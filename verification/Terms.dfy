/** What the operations compute: integer terms and a recursive function as trees, against their mathematical meaning. */
module Terms {
  import opened Options
  import opened Octets
  import opened Values
  import opened Evaluator
  import opened Sending

  // ----- terms -----

  datatype Term =
    | Number(n: int)
    | Variable(name: string)
    | Plus(a: Term, b: Term)
    | Minus(a: Term, b: Term)
    | Times(a: Term, b: Term)
    | Choice(cond: Test, yes: Term, no: Term)

  datatype Test = Same(a: Term, b: Term) | AtMost(a: Term, b: Term)

  predicate Fits(n: int) { -0x8000_0000 <= n < 0x8000_0000 }

  /** A number, unless it needs more than 32 bits. */
  function Checked(n: int): Option<int> {
    if Fits(n) then Some(n) else None
  }

  /** What a term means, or nothing when a number on the way does not fit; only the branch chosen matters. */
  function Meaning(t: Term, env: map<string, int>): Option<int> {
    match t
    case Number(n) => Some(n)
    case Variable(name) => if name in env then Some(env[name]) else None
    case Plus(a, b) =>
      (match (Meaning(a, env), Meaning(b, env)) case (Some(m), Some(n)) => Checked(m + n) case _ => None)
    case Minus(a, b) =>
      (match (Meaning(a, env), Meaning(b, env)) case (Some(m), Some(n)) => Checked(m - n) case _ => None)
    case Times(a, b) =>
      (match (Meaning(a, env), Meaning(b, env)) case (Some(m), Some(n)) => Checked(m * n) case _ => None)
    case Choice(cond, yes, no) =>
      match Truth(cond, env)
      case None => None
      case Some(truth) => if truth then Meaning(yes, env) else Meaning(no, env)
  }

  function Truth(c: Test, env: map<string, int>): Option<bool> {
    match (Meaning(c.a, env), Meaning(c.b, env))
    case (Some(m), Some(n)) => Some(if c.Same? then m == n else m <= n)
    case _ => None
  }

  /** The numbers written in it fit, and its variables have values. */
  predicate Closed(t: Term, env: map<string, int>) {
    match t
    case Number(n) => Fits(n)
    case Variable(name) => name in env
    case Plus(a, b) => Closed(a, env) && Closed(b, env)
    case Minus(a, b) => Closed(a, env) && Closed(b, env)
    case Times(a, b) => Closed(a, env) && Closed(b, env)
    case Choice(cond, yes, no) => ClosedTest(cond, env) && Closed(yes, env) && Closed(no, env)
  }

  predicate ClosedTest(c: Test, env: map<string, int>) {
    Closed(c.a, env) && Closed(c.b, env)
  }

  /** How deep choices are nested, which is the calls it takes. */
  function Height(t: Term): nat {
    match t
    case Number(_) => 0
    case Variable(_) => 0
    case Plus(a, b) => Max(Height(a), Height(b))
    case Minus(a, b) => Max(Height(a), Height(b))
    case Times(a, b) => Max(Height(a), Height(b))
    case Choice(cond, yes, no) => Max(Max(Height(cond.a), Height(cond.b)), 1 + Max(Height(yes), Height(no)))
  }

  function Size(t: Term): (n: nat)
    ensures n > 0
  {
    match t
    case Number(_) => 1
    case Variable(_) => 1
    case Plus(a, b) => 1 + Size(a) + Size(b)
    case Minus(a, b) => 1 + Size(a) + Size(b)
    case Times(a, b) => 1 + Size(a) + Size(b)
    case Choice(cond, yes, no) => 1 + Size(cond.a) + Size(cond.b) + Size(yes) + Size(no)
  }

  function Max(a: nat, b: nat): nat {
    if a < b then b else a
  }

  // ----- their trees -----

  function Tree(t: Term): Node {
    match t
    case Number(n) => Node(Int32Literal(n), [])
    case Variable(name) => Node(LexicalPadGet(name), [])
    case Plus(a, b) => Node(Binary(Add), [Tree(a), Tree(b)])
    case Minus(a, b) => Node(Binary(Subtract), [Tree(a), Tree(b)])
    case Times(a, b) => Node(Binary(Multiply), [Tree(a), Tree(b)])
    case Choice(cond, yes, no) => Choosing(TestTree(cond), Block(Tree(yes)), Block(Tree(no)))
  }

  function TestTree(c: Test): Node {
    Node(Binary(if c.Same? then Eq else LesserEqual), [Tree(c.a), Tree(c.b)])
  }

  /** A callable without arguments, in the scope it is called from. */
  function Block(tree: Node): Callable {
    Callable(tree, [], true)
  }

  function Choosing(cond: Node, yes: Callable, no: Callable): Node {
    Node(If, [cond, Node(StaticCallable(yes), []), Node(StaticCallable(no), [])])
  }

  /** The integers in scope. */
  ghost predicate InScope(pads: seq<Pad>, pad: nat, env: map<string, int>) {
    pad < |pads| && forall name :: name in env ==> PadGet(pads, pad, name) == Int(env[name])
  }

  lemma InScopeExtends(pads: seq<Pad>, more: seq<Pad>, pad: nat, env: map<string, int>)
    requires pads <= more && InScope(pads, pad, env)
    ensures InScope(more, pad, env)
  {
    forall name | name in env ensures PadGet(more, pad, name) == Int(env[name]) {
      GetExtends(pads, more, pad, name);
    }
  }

  lemma InScopeCalled(pads: seq<Pad>, pad: nat, env: map<string, int>)
    requires InScope(pads, pad, env)
    ensures InScope(pads + [Pad(map[], Some(pad))], |pads|, env)
  {
    var more := pads + [Pad(map[], Some(pad))];
    forall name | name in env ensures PadGet(more, |pads|, name) == Int(env[name]) {
      GetExtends(pads, more, pad, name);
    }
  }

  /** The outcome is this value, with new pads at most. */
  ghost predicate Computed(o: Outcome, v: Value, w: World) {
    o.Evaluated? && o.value == v && w.pads <= o.world.pads && o.world == w.(pads := o.world.pads)
  }

  /** The outcome is the term's number, or the end of the run where one does not fit. */
  ghost predicate Means(o: Outcome, n: Option<int>, w: World) {
    match n
    case Some(number) => Computed(o, Int(number), w)
    case None => o == Fails(IntegerOverflow)
  }

  // ----- what they evaluate to -----

  /** Two children, the second in the world the first left. */
  lemma TwoChildren(fuel: nat, op: Operation, first: Node, second: Node, pad: nat, w: World, answers: Answers)
    requires !Dynamic(op) && Arity(op) == 2
    ensures var a := Eval(fuel, first, pad, w, answers);
            var node := Node(op, [first, second]);
            if !a.Evaluated? then Eval(fuel, node, pad, w, answers) == a
            else
              var b := Eval(fuel, second, pad, a.world, answers);
              if !b.Evaluated? then Eval(fuel, node, pad, w, answers) == b
              else Eval(fuel, node, pad, w, answers)
                   == Later(a.steps + b.steps, Finish(fuel, op, [a.value, b.value], pad, b.world, answers))
  {
    hide Finish;
    var node := Node(op, [first, second]);
    var a := Eval(fuel, first, pad, w, answers);
    assert node.children[0] == first && node.children[1] == second;
    if a.Evaluated? {
      assert [] + [a.value] == [a.value];
      var b := Eval(fuel, second, pad, a.world, answers);
      if b.Evaluated? {
        assert [a.value] + [b.value] == [a.value, b.value];
        assert EvalArguments(fuel, node, [a.value, b.value], pad, b.world, answers)
            == Arguments([a.value, b.value], b.world, 0);
        assert EvalArguments(fuel, node, [a.value], pad, a.world, answers)
            == Arguments([a.value, b.value], b.world, b.steps);
      } else {
        assert EvalArguments(fuel, node, [a.value], pad, a.world, answers) == NoArguments(b);
      }
    }
  }

  /** What a binary operation makes of two integers. */
  function Combined(kind: Arithmetic, m: int, n: int): Option<Value> {
    match kind
    case Add => if Fits(m + n) then Some(Int(m + n)) else None
    case Subtract => if Fits(m - n) then Some(Int(m - n)) else None
    case Multiply => if Fits(m * n) then Some(Int(m * n)) else None
    case Eq => Some(Bool(m == n))
    case LesserEqual => Some(Bool(m <= n))
  }

  lemma BinaryFinishes(fuel: nat, kind: Arithmetic, m: int, n: int, pad: nat, w: World, answers: Answers)
    ensures match Combined(kind, m, n)
            case Some(v) => Computed(Finish(fuel, Binary(kind), [Int(m), Int(n)], pad, w, answers), v, w)
            case None => Finish(fuel, Binary(kind), [Int(m), Int(n)], pad, w, answers) == Fails(IntegerOverflow)
  {
    assert w.(pads := w.pads) == w;
  }

  lemma ComputedTwice(o: Outcome, n: nat, v: Value, w1: World, w: World)
    requires Computed(o, v, w1) && w.pads <= w1.pads && w1 == w.(pads := w1.pads)
    ensures Computed(Later(n, o), v, w)
  {}

  /** A binary operation on two terms. */
  lemma BinaryMeans(fuel: nat, kind: Arithmetic, first: Node, second: Node, m: Option<int>, n: Option<int>, pad: nat,
                    w: World, answers: Answers)
    requires Means(Eval(fuel, first, pad, w, answers), m, w)
    requires m.Some? ==>
               var w1 := Eval(fuel, first, pad, w, answers).world;
               Means(Eval(fuel, second, pad, w1, answers), n, w1)
    ensures var o := Eval(fuel, Node(Binary(kind), [first, second]), pad, w, answers);
            if m.Some? && n.Some? && Combined(kind, m.value, n.value).Some?
            then Computed(o, Combined(kind, m.value, n.value).value, w)
            else o == Fails(IntegerOverflow)
  {
    hide Eval, Finish, Combined;
    TwoChildren(fuel, Binary(kind), first, second, pad, w, answers);
    var a := Eval(fuel, first, pad, w, answers);
    if m.Some? && n.Some? {
      var b := Eval(fuel, second, pad, a.world, answers);
      BinaryFinishes(fuel, kind, m.value, n.value, pad, b.world, answers);
      if Combined(kind, m.value, n.value).Some? {
        ComputedTwice(Finish(fuel, Binary(kind), [a.value, b.value], pad, b.world, answers), a.steps + b.steps,
                      Combined(kind, m.value, n.value).value, b.world, w);
      }
    }
  }

  /** `If` calls the first callable when the condition is true and the second when it is false, and only that. */
  lemma IfChooses(fuel: nat, cond: Node, yes: Callable, no: Callable, pad: nat, w: World, answers: Answers)
    requires var c := Eval(fuel, cond, pad, w, answers); c.Evaluated? && c.value.Bool?
    ensures var c := Eval(fuel, cond, pad, w, answers);
            Eval(fuel, Choosing(cond, yes, no), pad, w, answers)
            == Later(c.steps + 4, EvalCall(fuel, if c.value.flag then yes else no, None, pad, c.world, answers))
  {
    hide EvalCall, Finish, EvalArguments;
    var node := Choosing(cond, yes, no);
    var c := Eval(fuel, cond, pad, w, answers);
    LeafPure(fuel, StaticCallable(yes), Code(yes), pad, c.world, answers);
    LeafPure(fuel, StaticCallable(no), Code(no), pad, c.world, answers);
    ThreeArguments(fuel, node, c.value, Code(yes), Code(no), pad, w, c.world, answers);
    BranchFinishes(fuel, c.value.flag, yes, no, pad, c.world, answers);
  }

  lemma BranchFinishes(fuel: nat, flag: bool, yes: Callable, no: Callable, pad: nat, w: World, answers: Answers)
    ensures Finish(fuel, If, [Bool(flag), Code(yes), Code(no)], pad, w, answers)
         == Later(2, EvalCall(fuel, if flag then yes else no, None, pad, w, answers))
  {
    hide EvalCall;
  }

  lemma ThreeArguments(fuel: nat, node: Node, a: Value, b: Value, c: Value, pad: nat, w: World, w1: World,
                       answers: Answers)
    requires !Dynamic(node.op) && Arity(node.op) == 3 && |node.children| == 3
    requires var o := Eval(fuel, node.children[0], pad, w, answers); o.Evaluated? && o.value == a && o.world == w1
    requires Eval(fuel, node.children[1], pad, w1, answers) == Evaluated(b, w1, 1)
    requires Eval(fuel, node.children[2], pad, w1, answers) == Evaluated(c, w1, 1)
    ensures EvalArguments(fuel, node, [], pad, w, answers)
         == Arguments([a, b, c], w1, Eval(fuel, node.children[0], pad, w, answers).steps + 2)
  {
    hide Eval;
    assert [] + [a] == [a] && [a] + [b] == [a, b] && [a, b] + [c] == [a, b, c];
    assert EvalArguments(fuel, node, [a, b, c], pad, w1, answers) == Arguments([a, b, c], w1, 0);
    assert EvalArguments(fuel, node, [a, b], pad, w1, answers) == Arguments([a, b, c], w1, 1);
    assert EvalArguments(fuel, node, [a], pad, w1, answers) == Arguments([a, b, c], w1, 2);
  }

  /** A call of a block. */
  lemma BlockCalled(fuel: nat, tree: Node, pad: nat, w: World, answers: Answers)
    requires fuel > 0
    ensures EvalCall(fuel, Block(tree), None, pad, w, answers)
         == Eval(fuel - 1, tree, |w.pads|, w.(pads := w.pads + [Pad(map[], Some(pad))]), answers)
  {
    hide Eval;
    assert CallPad(Block(tree), None, pad) == Pad(map[], Some(pad));
  }

  /**
   The tree of a term evaluates to what the term means, changing nothing but adding
   the pads of its calls, and the run ends in an overflow exactly when a number on the
   way does not fit in 32 bits.
   */
  lemma {:induction false} TreeMeans(fuel: nat, t: Term, env: map<string, int>, pad: nat, w: World, answers: Answers)
    requires Closed(t, env) && InScope(w.pads, pad, env) && Height(t) <= fuel
    ensures Means(Eval(fuel, Tree(t), pad, w, answers), Meaning(t, env), w)
    decreases Size(t), 1
  {
    hide Eval, PadGet, Finish, Apply;
    match t
    case Number(n) =>
      NumberMeans(fuel, n, pad, w, answers);
    case Variable(name) =>
      VariableMeans(fuel, name, env[name], pad, w, answers);
    case Plus(a, b) =>
      ArithmeticMeans(fuel, Add, a, b, env, pad, w, answers);
    case Minus(a, b) =>
      ArithmeticMeans(fuel, Subtract, a, b, env, pad, w, answers);
    case Times(a, b) =>
      ArithmeticMeans(fuel, Multiply, a, b, env, pad, w, answers);
    case Choice(cond, yes, no) =>
      ChoiceMeans(fuel, cond, yes, no, env, pad, w, answers);
  }

  lemma NumberMeans(fuel: nat, n: int, pad: nat, w: World, answers: Answers)
    ensures Computed(Eval(fuel, Node(Int32Literal(n), []), pad, w, answers), Int(n), w)
  {
    LeafPure(fuel, Int32Literal(n), Int(n), pad, w, answers);
  }

  lemma VariableMeans(fuel: nat, name: string, n: int, pad: nat, w: World, answers: Answers)
    requires PadGet(w.pads, pad, name) == Int(n)
    ensures Computed(Eval(fuel, Node(LexicalPadGet(name), []), pad, w, answers), Int(n), w)
  {
    LeafPure(fuel, LexicalPadGet(name), Int(n), pad, w, answers);
  }

  /** The arithmetic operations, each by its own name. */
  lemma {:induction false} ArithmeticMeans(fuel: nat, kind: Arithmetic, a: Term, b: Term, env: map<string, int>,
                                           pad: nat, w: World, answers: Answers)
    requires Closed(a, env) && Closed(b, env) && InScope(w.pads, pad, env) && Height(a) <= fuel && Height(b) <= fuel
    ensures var o := Eval(fuel, Node(Binary(kind), [Tree(a), Tree(b)]), pad, w, answers);
            match (Meaning(a, env), Meaning(b, env))
            case (Some(m), Some(n)) =>
              if Combined(kind, m, n).Some? then Computed(o, Combined(kind, m, n).value, w)
              else o == Fails(IntegerOverflow)
            case _ => o == Fails(IntegerOverflow)
    decreases Size(a) + Size(b), 3
  {
    hide Eval, Tree, InScope, Combined;
    PairMeans(fuel, a, b, env, pad, w, answers);
    BinaryMeans(fuel, kind, Tree(a), Tree(b), Meaning(a, env), Meaning(b, env), pad, w, answers);
  }

  /** Both operands. */
  lemma {:induction false} PairMeans(fuel: nat, a: Term, b: Term, env: map<string, int>, pad: nat, w: World,
                                     answers: Answers)
    requires Closed(a, env) && Closed(b, env) && InScope(w.pads, pad, env) && Height(a) <= fuel && Height(b) <= fuel
    ensures Means(Eval(fuel, Tree(a), pad, w, answers), Meaning(a, env), w)
    ensures Meaning(a, env).Some? ==>
              var w1 := Eval(fuel, Tree(a), pad, w, answers).world;
              Means(Eval(fuel, Tree(b), pad, w1, answers), Meaning(b, env), w1)
    decreases Size(a) + Size(b), 2
  {
    hide Eval, Tree;
    TreeMeans(fuel, a, env, pad, w, answers);
    if Meaning(a, env).Some? {
      var w1 := Eval(fuel, Tree(a), pad, w, answers).world;
      InScopeExtends(w.pads, w1.pads, pad, env);
      TreeMeans(fuel, b, env, pad, w1, answers);
    }
  }

  lemma {:induction false} ChoiceMeans(fuel: nat, cond: Test, yes: Term, no: Term, env: map<string, int>, pad: nat,
                                       w: World, answers: Answers)
    requires var t := Choice(cond, yes, no); Closed(t, env) && Height(t) <= fuel
    requires InScope(w.pads, pad, env)
    ensures Means(Eval(fuel, Tree(Choice(cond, yes, no)), pad, w, answers), Meaning(Choice(cond, yes, no), env), w)
    decreases Size(Choice(cond, yes, no)), 0
  {
    hide Eval, InScope, Tree, EvalCall;
    TestMeans(fuel, cond, env, pad, w, answers);
    var c := Eval(fuel, TestTree(cond), pad, w, answers);
    if Truth(cond, env).Some? {
      var chosen := if Truth(cond, env).value then yes else no;
      IfChooses(fuel, TestTree(cond), Block(Tree(yes)), Block(Tree(no)), pad, w, answers);
      InScopeExtends(w.pads, c.world.pads, pad, env);
      InScopeCalled(c.world.pads, pad, env);
      var w1 := c.world.(pads := c.world.pads + [Pad(map[], Some(pad))]);
      TreeMeans(fuel - 1, chosen, env, |c.world.pads|, w1, answers);
      BlockMeans(fuel, Tree(chosen), Meaning(chosen, env), pad, c.world, answers);
      MeansLater(EvalCall(fuel, Block(Tree(chosen)), None, pad, c.world, answers), c.steps + 4, Meaning(chosen, env),
                 c.world, w);
    } else {
      FirstFailsHere(fuel, If, Choosing(TestTree(cond), Block(Tree(yes)), Block(Tree(no))).children, pad, w, answers);
    }
    ChoiceTree(cond, yes, no);
  }

  lemma ChoiceTree(cond: Test, yes: Term, no: Term)
    ensures Tree(Choice(cond, yes, no)) == Choosing(TestTree(cond), Block(Tree(yes)), Block(Tree(no)))
  {}

  /** A test. */
  lemma {:induction false} TestMeans(fuel: nat, cond: Test, env: map<string, int>, pad: nat, w: World,
                                     answers: Answers)
    requires ClosedTest(cond, env) && InScope(w.pads, pad, env) && Height(cond.a) <= fuel && Height(cond.b) <= fuel
    ensures var o := Eval(fuel, TestTree(cond), pad, w, answers);
            match Truth(cond, env)
            case Some(truth) => Computed(o, Bool(truth), w)
            case None => o == Fails(IntegerOverflow)
    decreases Size(cond.a) + Size(cond.b), 4
  {
    hide Eval, Tree, InScope;
    ArithmeticMeans(fuel, if cond.Same? then Eq else LesserEqual, cond.a, cond.b, env, pad, w, answers);
  }

  /** The call of a block means what its tree means in the new pad. */
  lemma BlockMeans(fuel: nat, tree: Node, n: Option<int>, pad: nat, w: World, answers: Answers)
    requires fuel > 0
    requires var w1 := w.(pads := w.pads + [Pad(map[], Some(pad))]);
             Means(Eval(fuel - 1, tree, |w.pads|, w1, answers), n, w1)
    ensures Means(EvalCall(fuel, Block(tree), None, pad, w, answers), n, w)
  {
    hide Eval, EvalCall;
    BlockCalled(fuel, tree, pad, w, answers);
  }

  lemma MeansLater(o: Outcome, k: nat, n: Option<int>, w1: World, w: World)
    requires Means(o, n, w1) && w.pads <= w1.pads && w1 == w.(pads := w1.pads)
    ensures Means(Later(k, o), n, w)
  {}

  /** A node whose first child cannot be evaluated. */
  lemma FirstFailsHere(fuel: nat, op: Operation, children: seq<Node>, pad: nat, w: World, answers: Answers)
    requires !Dynamic(op) && Arity(op) > 0 && children != [] && !Eval(fuel, children[0], pad, w, answers).Evaluated?
    ensures Eval(fuel, Node(op, children), pad, w, answers) == Eval(fuel, children[0], pad, w, answers)
  {
    var node := Node(op, children);
    assert node.children[0] == children[0];
  }

  // ----- arguments of the wrong kind -----

  datatype Kind = AnInteger | ATruth | ACallable | AText

  predicate OfKind(v: Value, kind: Kind) {
    match kind
    case AnInteger => v.Int?
    case ATruth => v.Bool?
    case ACallable => v.Code?
    case AText => v.Text?
  }

  /** What these operations work on. */
  function Kinds(op: Operation): seq<Kind> {
    match op
    case Binary(_) => [AnInteger, AnInteger]
    case IntToAscii => [AnInteger]
    case If => [ATruth, ACallable, ACallable]
    case WriteOctets(_) => [AText]
    case _ => []
  }

  /**
   The first argument of the wrong kind decides what they return, and nothing else
   happens: an error or an instruction is passed on, anything else is a type error.
   */
  lemma MisfitDecides(fuel: nat, op: Operation, args: seq<Value>, k: nat, pad: nat, w: World, answers: Answers)
    requires k < |Kinds(op)| == |args| && !OfKind(args[k], Kinds(op)[k])
    requires forall i :: 0 <= i < k ==> OfKind(args[i], Kinds(op)[i])
    ensures Finish(fuel, op, args, pad, w, answers)
         == Evaluated(if Interrupts(args[k]) then args[k] else Error(TypeError), w, 1)
  {
    assert w.(pads := w.pads) == w;
    assert k > 0 ==> OfKind(args[0], Kinds(op)[0]);
    assert k > 1 ==> OfKind(args[1], Kinds(op)[1]);
  }

  // ----- calls and writes -----

  /** What cannot be called is a type error, and so is an argument list that is none, unless it is an error itself. */
  lemma WrongCallee(fuel: nat, op: Operation, args: seq<Value>, pad: nat, w: World, answers: Answers)
    requires op.FunctionCall? || op.FunctionCallForEach? || op.GenerateList?
    requires |args| == Arity(op)
    ensures !args[0].Code? ==> Finish(fuel, op, args, pad, w, answers) == Evaluated(Error(TypeError), w, 1)
    ensures op.FunctionCall? && args[0].Code? && !args[1].DynamicList? ==>
              Finish(fuel, op, args, pad, w, answers)
              == Evaluated(if args[1].Error? then args[1] else Error(TypeError), w, 1)
  {}

  /** A write gives zero and sends its octets; when the connection has ended it is a mismatch and sends nothing. */
  lemma WriteFate(fuel: nat, octets: Bytes, pad: nat, w: World, answers: Answers)
    ensures var o := Finish(fuel, WriteStaticOctets(octets), [], pad, w, answers);
            && o.Evaluated? && o.world == w.(output := o.world.output)
            && (octets == [] || !w.eof ==> o.value == Int(0) && o.world.output == w.output + octets)
            && (octets != [] && w.eof ==> o.value == Error(ProtocolMismatchError) && o.world.output == w.output)
            && Finish(fuel, WriteOctets(None), [Text(octets)], pad, w, answers) == o
  {
    assert w.output + [] == w.output && w.(output := w.output) == w;
  }
}
