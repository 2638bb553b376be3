/** The scripts that the runner feeds are sequences of reads in a tree. */
module Scripts {
  import opened Options
  import opened Octets
  import opened Values
  import opened ReadOperations
  import opened Reading
  import opened Evaluator
  import opened Sending
  import opened Receiving
  import opened ReadLoops

  function Leaves(ops: seq<ReadOperation>): (nodes: seq<Node>)
    ensures |nodes| == |ops| && forall i :: 0 <= i < |ops| ==> nodes[i] == Node(ops[i], [])
  {
    if ops == [] then [] else [Node(ops[0], [])] + Leaves(ops[1..])
  }

  /** The script has come to its end, or to a value that ends it. */
  predicate Complete(ops: seq<ReadOperation>, m: Meaning) {
    |m.values| == |ops| || (m.values != [] && Interrupts(m.values[|m.values| - 1]))
  }

  /** What the arguments of the sequence come to, from `done` on. */
  ghost predicate SequenceMeans(o: ArgumentsOutcome, done: seq<Value>, left: seq<ReadOperation>, w: World) {
    var m := Denote(left, Concat(w.input));
    if Complete(left, m)
    then o.Arguments? && o.values == done + m.values && o.world == w.(input := o.world.input)
         && Concat(o.world.input) == Concat(w.input)[m.taken..]
    else o == NoArguments(Fails(Starved))
  }

  /** The first operation, and the rest on what it left. */
  lemma DenoteStep(left: seq<ReadOperation>, stream: Bytes)
    requires left != []
    ensures var m, d := Denote(left, stream), Decide(left[0], stream);
            && (d.None? ==> m == Meaning([], 0) && !Complete(left, m))
            && (d.Some? && Interrupts(d.value.0) ==> m == Meaning([d.value.0], d.value.1) && Complete(left, m))
            && (d.Some? && !Interrupts(d.value.0) ==>
                  var rest := Denote(left[1..], stream[d.value.1..]);
                  && m == Meaning([d.value.0] + rest.values, d.value.1 + rest.taken)
                  && (Complete(left, m) <==> Complete(left[1..], rest)))
  {
    hide Decide;
    var d := Decide(left[0], stream);
    if d.Some? {
      var v := d.value.0;
      var rest := Denote(Left(left, v), stream[d.value.1..]);
      InFront(v, rest.values);
    }
  }

  lemma InFront(v: Value, rest: seq<Value>)
    ensures [v] + [] == [v] && |[v] + rest| == 1 + |rest|
    ensures ([v] + rest)[|rest|] == if rest == [] then v else rest[|rest| - 1]
  {}

  lemma FirstEnds(o: ArgumentsOutcome, done: seq<Value>, left: seq<ReadOperation>, w: World, v: Value, n: nat)
    requires left != [] && Decide(left[0], Concat(w.input)) == Some((v, n)) && Interrupts(v)
    requires o.Arguments? && o.values == done + [v] && o.world == w.(input := o.world.input)
    requires Concat(o.world.input) == Concat(w.input)[n..]
    ensures SequenceMeans(o, done, left, w)
  {
    hide Decide, Denote, Concat, Complete;
    DenoteStep(left, Concat(w.input));
  }

  lemma FirstGoesOn(o: ArgumentsOutcome, later: ArgumentsOutcome, done: seq<Value>, left: seq<ReadOperation>, w: World,
                    w1: World, v: Value, n: nat)
    requires left != [] && Decide(left[0], Concat(w.input)) == Some((v, n)) && !Interrupts(v)
    requires w1 == w.(input := w1.input) && Concat(w1.input) == Concat(w.input)[n..]
    requires SequenceMeans(later, done + [v], left[1..], w1)
    requires if later.Arguments? then o.Arguments? && o.values == later.values && o.world == later.world
             else o == later
    ensures SequenceMeans(o, done, left, w)
  {
    hide Decide, Denote, Concat, Complete;
    var stream := Concat(w.input);
    DenoteStep(left, stream);
    var rest := Denote(left[1..], stream[n..]);
    Suffix(stream, n, rest.taken);
    assert done + [v] + rest.values == done + ([v] + rest.values);
  }

  lemma Suffix(stream: Bytes, n: nat, m: nat)
    requires n + m <= |stream|
    ensures stream[n..][m..] == stream[n + m..]
  {}

  /**
   A sequence of reads in a tree, before the end of file: its arguments are the values
   the script of the reads means on the octets delivered, and it takes what the script
   takes; it waits for good exactly when the script is not complete.
   */
  lemma {:induction false} SequenceIsScript(fuel: nat, ops: seq<ReadOperation>, done: seq<Value>, pad: nat, w: World,
                                            answers: Answers)
    requires Script(ops) && |done| <= |ops| && Calm(done) && !w.eof
    ensures SequenceMeans(EvalArguments(fuel, Node(OpSequence, Leaves(ops)), done, pad, w, answers), done,
                          ops[|done|..], w)
    decreases |ops| - |done|
  {
    hide FinishRead, Decide, Concat, Eval, EvalArguments, Denote, SequenceMeans;
    var k, left, children := |done|, ops[|done|..], Leaves(ops);
    if k == |ops| {
      NothingLeft(fuel, ops, done, pad, w, answers);
    } else {
      assert left[0] == ops[k] && left[1..] == ops[k + 1..] && children[k] == Node(ops[k], []);
      ReadLeaf(fuel, ops[k], pad, w, answers);
      ReadIsDecided(ops[k], w);
      var o := Eval(fuel, children[k], pad, w, answers);
      if Decide(ops[k], Concat(w.input)).None? {
        FailsAt(fuel, children, done, pad, w, answers);
        NothingDecided(done, left, w);
      } else if Interrupts(o.value) {
        InterruptsAt(fuel, children, done, pad, w, answers);
        FirstEnds(EvalArguments(fuel, Node(OpSequence, children), done, pad, w, answers), done, left, w, o.value,
                  Decide(ops[k], Concat(w.input)).value.1);
      } else {
        CalmAt(fuel, children, done, pad, w, answers);
        SequenceIsScript(fuel, ops, done + [o.value], pad, o.world, answers);
        FirstGoesOn(EvalArguments(fuel, Node(OpSequence, children), done, pad, w, answers),
                    EvalArguments(fuel, Node(OpSequence, children), done + [o.value], pad, o.world, answers), done,
                    left, w, o.world, o.value, Decide(ops[k], Concat(w.input)).value.1);
      }
    }
  }

  lemma NothingLeft(fuel: nat, ops: seq<ReadOperation>, done: seq<Value>, pad: nat, w: World, answers: Answers)
    requires |done| == |ops|
    ensures SequenceMeans(EvalArguments(fuel, Node(OpSequence, Leaves(ops)), done, pad, w, answers), done,
                          ops[|done|..], w)
  {
    hide Concat;
    var node := Node(OpSequence, Leaves(ops));
    assert ArgumentsReady(node, done) && done + [] == done && ops[|ops|..] == [];
    assert Concat(w.input)[0..] == Concat(w.input);
  }

  lemma NothingDecided(done: seq<Value>, left: seq<ReadOperation>, w: World)
    requires left != [] && Decide(left[0], Concat(w.input)).None?
    ensures SequenceMeans(NoArguments(Fails(Starved)), done, left, w)
  {
    hide Decide, Concat, Complete, Denote;
    DenoteStep(left, Concat(w.input));
  }
}
