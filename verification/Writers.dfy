/** The two writers of one message: the tree of a write transition, and the emitted send loop. */
module Writers {
  import opened Options
  import opened Octets
  import opened DataTypes
  import T = Translate
  import opened Values
  import opened Evaluator
  import opened Generation
  import opened Sending
  import E = Emitted
  import RoundTrip

  /** The declared types as the code generator sees them. */
  ghost predicate SameTypes(types: Types, fields: map<string, E.FieldType>) {
    && fields.Keys <= types.Keys
    && forall name :: name in fields ==> types[name] == if fields[name].Text? then StrType else IntType
  }

  /** The data as the interpreter's values. */
  function EnvironmentOf(data: E.Data): Environment {
    map name | name in data :: if data[name].TextValue? then Text(data[name].text) else Int(data[name].number)
  }

  /** What the interpreted write operation of one action sends; unlike the emitted code it does not stop at a NUL. */
  function Sends(a: T.Action, fields: map<string, E.FieldType>, data: E.Data): Bytes
    requires E.Writes(a, fields) && E.WellTyped(fields, data)
  {
    if a.WriteStaticOctets? then a.octets else E.Chunk(a, fields, data)
  }

  function SendsAll(actions: seq<T.Action>, fields: map<string, E.FieldType>, data: E.Data): Bytes
    requires E.Writable(actions, fields) && E.WellTyped(fields, data)
  {
    if actions == [] then [] else Sends(actions[0], fields, data) + SendsAll(actions[1..], fields, data)
  }

  predicate WithoutMembers(actions: seq<T.Action>) {
    forall i :: 0 <= i < |actions| && actions[i].WriteFromIdentifier? ==> actions[i].identifier.member.None?
  }

  /** The writer's tree has the same meaning on one action as the emitted write expression without its NUL rule. */
  lemma SentIsSend(a: T.Action, types: Types, fields: map<string, E.FieldType>, data: E.Data)
    requires E.Writes(a, fields) && E.WellTyped(fields, data) && SameTypes(types, fields)
    requires a.WriteFromIdentifier? ==> a.identifier.member.None?
    ensures Sent(a, types, EnvironmentOf(data)) == Some(Sends(a, fields, data)) && Depth(a) == 0
  {
    assert a.WriteFromIdentifier? ==> E.Holds(fields[a.identifier.name], data[a.identifier.name]);
  }

  lemma {:induction false} SentIsSends(actions: seq<T.Action>, types: Types, fields: map<string, E.FieldType>,
                                       data: E.Data)
    requires E.Writable(actions, fields) && E.WellTyped(fields, data) && SameTypes(types, fields)
             && WithoutMembers(actions)
    ensures SentAll(actions, types, EnvironmentOf(data)) == Some(SendsAll(actions, fields, data))
    ensures DepthOf(actions) == 0
    decreases |actions|
  {
    hide Sent, Sends, EnvironmentOf, E.WellTyped, SameTypes, E.Writes;
    if actions != [] {
      SentIsSend(actions[0], types, fields, data);
      assert forall i :: 0 <= i < |actions| - 1 ==> actions[1..][i] == actions[i + 1];
      SentIsSends(actions[1..], types, fields, data);
    }
  }

  ghost predicate NulFree(actions: seq<T.Action>) {
    forall i :: 0 <= i < |actions| && actions[i].WriteStaticOctets? ==> 0 !in actions[i].octets
  }

  /** A literal's NUL makes the emitted writer send less than the interpreted one. */
  lemma {:induction false} LiteralsAgree(octets: Bytes)
    ensures |E.CString(octets)| <= |octets|
    ensures E.CString(octets) == octets <==> 0 !in octets
    decreases |octets|
  {
    if octets != [] && octets[0] != 0 {
      LiteralsAgree(octets[1..]);
    }
  }

  lemma {:induction false} EncodingAgrees(actions: seq<T.Action>, fields: map<string, E.FieldType>, data: E.Data)
    requires E.Writable(actions, fields) && E.WellTyped(fields, data)
    ensures var emitted, interpreted := E.Encoding(actions, fields, data), SendsAll(actions, fields, data);
            |emitted| <= |interpreted| && (emitted == interpreted <==> NulFree(actions))
    decreases |actions|
  {
    if actions != [] {
      assert forall i :: 0 <= i < |actions| - 1 ==> actions[1..][i] == actions[i + 1];
      assert E.Writes(actions[0], fields);
      EncodingAgrees(actions[1..], fields, data);
      if actions[0].WriteStaticOctets? {
        LiteralsAgree(actions[0].octets);
      }
      NulFreeStep(actions);
      SameConcat(E.Chunk(actions[0], fields, data), Sends(actions[0], fields, data),
                 E.Encoding(actions[1..], fields, data), SendsAll(actions[1..], fields, data));
    }
  }

  lemma NulFreeStep(actions: seq<T.Action>)
    requires actions != []
    ensures NulFree(actions) <==> (actions[0].WriteStaticOctets? ==> 0 !in actions[0].octets) && NulFree(actions[1..])
  {
    assert forall i :: 0 <= i < |actions| - 1 ==> actions[1..][i] == actions[i + 1];
    if NulFree(actions[1..]) && (actions[0].WriteStaticOctets? ==> 0 !in actions[0].octets) {
      forall i | 0 <= i < |actions| && actions[i].WriteStaticOctets? ensures 0 !in actions[i].octets {
        assert i > 0 ==> actions[i] == actions[1..][i - 1];
      }
    }
  }

  /** A prefix and a tail that are not longer concatenate to the same octets only when both are the same. */
  lemma SameConcat(a: Bytes, b: Bytes, c: Bytes, d: Bytes)
    requires a <= b && |c| <= |d|
    ensures a + c == b + d <==> a == b && c == d
  {
    if a + c == b + d {
      assert |a| == |b| && |c| == |d|;
      assert (a + c)[|a|..] == c && (b + d)[|a|..] == d;
    }
  }

  /** The send loop appends the chunks up to an empty one. */
  lemma {:induction false} SentIsPrefix(actions: seq<T.Action>, k: nat, fields: map<string, E.FieldType>, data: E.Data)
    requires E.Writable(actions, fields) && E.WellTyped(fields, data) && k <= |actions|
    ensures E.Sent(actions, k, fields, data) <= E.Encoding(actions[k..], fields, data)
    decreases |actions| - k
  {
    if k < |actions| {
      assert actions[k..][0] == actions[k] && actions[k..][1..] == actions[k + 1..];
      SentIsPrefix(actions, k + 1, fields, data);
    }
  }

  /** What a tree sends is what the send loop appends, if and only if it is all the chunks and they are all appended. */
  lemma SameOctets(before: Bytes, tree: Bytes, chunks: Bytes, appended: Bytes)
    requires appended <= chunks && |chunks| <= |tree|
    ensures before + tree == before + appended <==> tree == chunks && appended == chunks
  {
    assert (before + tree)[|before|..] == tree && (before + appended)[|before|..] == appended;
  }

  /**
   The interpreted and the emitted writer send the same octets exactly when no
   literal holds a NUL and no non-empty chunk comes after an empty one.
   */
  lemma WritersAgree(actions: seq<T.Action>, types: Types, fields: map<string, E.FieldType>, data: E.Data,
                     pad: nat, w: World, answers: Answers)
    requires E.Writable(actions, fields) && E.WellTyped(fields, data) && SameTypes(types, fields)
             && WithoutMembers(actions)
    requires Shows(w.pads, pad, EnvironmentOf(data)) && !w.eof
    ensures TransitionTree(false, actions, types).Some?
    ensures var o := Eval(0, TransitionTree(false, actions, types).value, pad, w, answers);
            && o.Evaluated?
            && (o.world.output == w.output + E.Sent(actions, 0, fields, data)
                <==> NulFree(actions) && RoundTrip.NothingAfterEmpty(actions, 0, fields, data))
  {
    hide Eval, TransitionTree, E.Sent, E.Encoding, SendsAll, RoundTrip.NothingAfterEmpty;
    SentIsSends(actions, types, fields, data);
    TransitionTreeSends(0, actions, types, EnvironmentOf(data), pad, w, answers);
    EncodingAgrees(actions, fields, data);
    SentIsPrefix(actions, 0, fields, data);
    RoundTrip.SentIsEncoding(actions, 0, fields, data);
    assert actions[0..] == actions;
    SameOctets(w.output, SendsAll(actions, fields, data), E.Encoding(actions, fields, data),
               E.Sent(actions, 0, fields, data));
  }

  /** An empty text and then CR LF: the tree sends CR LF, and the send loop nothing. */
  lemma EmptyFieldEndsSending(name: string, pad: nat, w: World, answers: Answers)
    requires Shows(w.pads, pad, map[name := Text([])]) && !w.eof
    ensures var actions := [T.WriteFromIdentifier(T.Identifier(name, None), None), T.WriteStaticOctets([13, 10])];
            var fields: map<string, E.FieldType> := map[name := E.Text];
            var data: E.Data := map[name := E.TextValue([])];
            && E.Writable(actions, fields) && E.WellTyped(fields, data) && NulFree(actions)
            && E.Sent(actions, 0, fields, data) == []
            && TransitionTree(false, actions, map[name := StrType]).Some?
            && var o := Eval(0, TransitionTree(false, actions, map[name := StrType]).value, pad, w, answers);
            && o.Evaluated? && o.world.output == w.output + [13, 10]
  {
    hide Eval, TransitionTree;
    var actions := [T.WriteFromIdentifier(T.Identifier(name, None), None), T.WriteStaticOctets([13, 10])];
    var types, env: Environment := map[name := StrType], map[name := Text([])];
    assert actions[1..] == [T.WriteStaticOctets([13, 10])] && actions[1..][1..] == [];
    assert SentAll(actions[1..], types, env) == Some([13, 10] + []);
    assert SentAll(actions, types, env) == Some([] + ([13, 10] + []));
    assert DepthOf(actions[1..]) == 0;
    TransitionTreeSends(0, actions, types, env, pad, w, answers);
  }

  /** A literal NUL, LF: the tree sends both octets, and the send loop nothing. */
  lemma NulEndsLiteral(pad: nat, w: World, answers: Answers)
    requires pad < |w.pads| && !w.eof
    ensures var actions := [T.WriteStaticOctets([0, 10])];
            && E.Writable(actions, map[]) && E.WellTyped(map[], map[])
            && RoundTrip.NothingAfterEmpty(actions, 0, map[], map[])
            && E.Sent(actions, 0, map[], map[]) == []
            && TransitionTree(false, actions, map[]).Some?
            && var o := Eval(0, TransitionTree(false, actions, map[]).value, pad, w, answers);
            && o.Evaluated? && o.world.output == w.output + [0, 10]
  {
    hide Eval, TransitionTree;
    var actions := [T.WriteStaticOctets([0, 10])];
    assert actions[1..] == [];
    assert SentAll(actions, map[], map[]) == Some([0, 10] + []);
    TransitionTreeSends(0, actions, map[], map[], pad, w, answers);
  }
}
