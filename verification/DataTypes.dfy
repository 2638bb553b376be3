/** The declared types of message data. */
module DataTypes {
  datatype DataType = IntType | StrType | TupleType(members: map<string, DataType>) | ArrayType(element: DataType)
    | OtherType

  type Types = map<string, DataType>

  /** The names of a message's data in the order of its arguments, and their types. */
  datatype MessageData = MessageData(names: seq<string>, types: Types)

  /** The parameters of a type that are types. */
  function Parameters(t: DataType): Types {
    match t
    case TupleType(members) => members
    case ArrayType(element) => map["element_type" := element]
    case _ => map[]
  }
}
