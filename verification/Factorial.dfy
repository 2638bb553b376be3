/** The recursive factorial, a callable bound globally, as a whole program. */
module Factorial {
  import opened Options
  import opened Values
  import opened Evaluator
  import opened Sending
  import opened Terms
  import opened Machine
  import opened Adequacy

  function Product(n: nat): nat {
    if n == 0 then 1 else n * Product(n - 1)
  }

  // ----- the program -----

  function Argument(): Node {
    Node(LexicalPadGet("i"), [])
  }

  /** A call of the global `factorial` with one argument. */
  function CallOf(argument: Node): Node {
    Node(FunctionCall, [Node(LexicalPadGet("factorial"), []), Node(MakeList, [argument])])
  }

  /** i times the factorial of i - 1 */
  function Recursive(): Node {
    Node(Binary(Multiply), [Argument(), CallOf(Tree(Less()))])
  }

  /** The argument itself up to one, and else the recursive call; its scope is the root's. */
  function FactorialCallable(): Callable {
    Callable(Choosing(TestTree(AtMost(Variable("i"), Number(1))), Block(Argument()), Block(Recursive())), ["i"], false)
  }

  function FactorialProgram(n: int): Node {
    Node(OpSequence, [Node(LexicalPadInitializeGlobal("factorial"), [Node(StaticCallable(FactorialCallable()), [])]),
                      CallOf(Node(Int32Literal(n), []))])
  }

  // ----- one call -----

  /** What a call with `n` comes to. */
  ghost predicate IsFactorial(o: Outcome, n: int, w: World) {
    if n <= 12 then Computed(o, Int(if n <= 1 then n else Product(n)), w) else o == Fails(IntegerOverflow)
  }

  lemma ProductFits(n: nat)
    requires n <= 12
    ensures Product(n) <= 479001600 && (n == 12 ==> Product(n) == 479001600)
  {
    assert Product(3) == 6;
    assert Product(6) == 720;
    assert Product(9) == 362880;
    assert Product(12) == 479001600;
  }

  /** The global callable is seen from a pad. */
  ghost predicate Defined(pads: seq<Pad>, pad: nat) {
    pad < |pads| && PadGet(pads, pad, "factorial") == Code(FactorialCallable())
  }

  /** A list of one value. */
  lemma ListOfOne(fuel: nat, child: Node, pad: nat, w: World, answers: Answers)
    requires var c := Eval(fuel, child, pad, w, answers); c.Evaluated? && !Interrupts(c.value)
    ensures var c := Eval(fuel, child, pad, w, answers);
            var o := Eval(fuel, Node(MakeList, [child]), pad, w, answers);
            o.Evaluated? && o.value == DynamicList([c.value]) && o.world == c.world
  {
    hide Finish;
    var node := Node(MakeList, [child]);
    var c := Eval(fuel, child, pad, w, answers);
    FinishPure(fuel, MakeList, [c.value], DynamicList([c.value]), pad, c.world, answers);
    assert [] + [c.value] == [c.value] && node.children[0] == child;
    assert EvalArguments(fuel, node, [c.value], pad, c.world, answers) == Arguments([c.value], c.world, 0);
  }

  lemma CallFinishes(fuel: nat, c: Callable, args: seq<Value>, pad: nat, w: World, answers: Answers)
    ensures Finish(fuel, FunctionCall, [Code(c), DynamicList(args)], pad, w, answers)
         == Later(2, EvalCall(fuel, c, Some(args), pad, w, answers))
  {
    hide EvalCall;
  }

  /** A call of the global, once its argument has a number. */
  lemma CallIs(fuel: nat, argument: Node, n: int, pad: nat, w: World, answers: Answers)
    requires Defined(w.pads, pad) && Computed(Eval(fuel, argument, pad, w, answers), Int(n), w)
    ensures var w1 := Eval(fuel, argument, pad, w, answers).world;
            exists k: nat :: Eval(fuel, CallOf(argument), pad, w, answers)
                             == Later(k, EvalCall(fuel, FactorialCallable(), Some([Int(n)]), pad, w1, answers))
  {
    hide Finish, EvalCall, FactorialCallable, PadGet, Eval;
    var c := Eval(fuel, argument, pad, w, answers);
    ListOfOne(fuel, argument, pad, w, answers);
    VariablePure(fuel, "factorial", pad, w, answers);
    var get, list := Node(LexicalPadGet("factorial"), []), Node(MakeList, [argument]);
    TwoChildren(fuel, FunctionCall, get, list, pad, w, answers);
    CallFinishes(fuel, FactorialCallable(), [Int(n)], pad, c.world, answers);
    var k := Eval(fuel, get, pad, w, answers).steps + Eval(fuel, list, pad, w, answers).steps + 2;
    LaterTwice(k - 2, 2, EvalCall(fuel, FactorialCallable(), Some([Int(n)]), pad, c.world, answers));
  }

  lemma LaterTwice(a: nat, b: nat, o: Outcome)
    ensures Later(a, Later(b, o)) == Later(a + b, o)
  {}

  /** The pad of a call, and a block's pad inside it. */
  function CallWorld(n: int, w: World): World {
    w.(pads := w.pads + [Pad(map["i" := Int(n)], Some(0))])
  }

  lemma CallScope(n: int, w: World)
    requires Defined(w.pads, 0)
    ensures var w1 := CallWorld(n, w);
            InScope(w1.pads, |w.pads|, map["i" := n]) && Defined(w1.pads, |w.pads|)
  {
    var more := CallWorld(n, w).pads;
    assert "i" != "factorial";
    GetExtends(w.pads, more, 0, "factorial");
  }

  lemma BlockScope(pads: seq<Pad>, pad: nat)
    requires Defined(pads, pad)
    ensures Defined(pads + [Pad(map[], Some(pad))], |pads|)
  {
    GetExtends(pads, pads + [Pad(map[], Some(pad))], pad, "factorial");
  }

  lemma DefinedExtends(pads: seq<Pad>, more: seq<Pad>, pad: nat)
    requires pads <= more && Defined(pads, pad)
    ensures Defined(more, pad)
  {
    GetExtends(pads, more, pad, "factorial");
  }

  /** The call opens its pad under the root and runs the choice. */
  lemma CallEnters(fuel: nat, n: int, pad: nat, w: World, answers: Answers)
    requires fuel > 0
    ensures EvalCall(fuel, FactorialCallable(), Some([Int(n)]), pad, w, answers)
         == Eval(fuel - 1, FactorialCallable().tree, |w.pads|, CallWorld(n, w), answers)
  {
    hide Eval;
    var c := FactorialCallable();
    assert ["i"][..0] == [];
    assert Bind(["i"], [Int(n)]) == Insert(Bind([], [Int(n)]), "i", Int(n));
    assert CallPad(c, Some([Int(n)]), pad) == Pad(map["i" := Int(n)], Some(0));
  }

  lemma {:induction false} FactorialCalled(fuel: nat, n: int, pad: nat, w: World, answers: Answers)
    requires Fits(n) && Defined(w.pads, 0) && fuel >= 2 + (if n <= 1 then 0 else 2 * n)
    ensures IsFactorial(EvalCall(fuel, FactorialCallable(), Some([Int(n)]), pad, w, answers), n, w)
    decreases if n <= 1 then 0 else n, 1
  {
    hide Eval, EvalCall, InScope, Defined, IsFactorial, Product, TestTree, Tree;
    var p, w1, env := |w.pads|, CallWorld(n, w), map["i" := n];
    var cond := AtMost(Variable("i"), Number(1));
    CallEnters(fuel, n, pad, w, answers);
    CallScope(n, w);
    TestMeans(fuel - 1, cond, env, p, w1, answers);
    assert Meaning(cond.a, env) == Some(n) && Meaning(cond.b, env) == Some(1);
    assert Truth(cond, env) == Some(n <= 1);
    IfChooses(fuel - 1, TestTree(cond), Block(Argument()), Block(Recursive()), p, w1, answers);
    var c := Eval(fuel - 1, TestTree(cond), p, w1, answers);
    var chosen := if n <= 1 then Argument() else Recursive();
    InScopeExtends(w1.pads, c.world.pads, p, env);
    DefinedExtends(w1.pads, c.world.pads, p);
    InScopeCalled(c.world.pads, p, env);
    BlockScope(c.world.pads, p);
    DefinedExtends(w.pads, c.world.pads, 0);
    var w2 := c.world.(pads := c.world.pads + [Pad(map[], Some(p))]);
    DefinedExtends(c.world.pads, w2.pads, 0);
    BlockCalled(fuel - 1, chosen, p, c.world, answers);
    if n <= 1 {
      ArgumentIs(fuel - 2, n, |c.world.pads|, w2, answers);
      Small(Eval(fuel - 2, chosen, |c.world.pads|, w2, answers), n, w2);
    } else {
      RecursiveIs(fuel - 2, n, |c.world.pads|, w2, answers);
    }
    FactorialLater(Eval(fuel - 2, chosen, |c.world.pads|, w2, answers), c.steps + 4, n, w2, w);
  }

  lemma Small(o: Outcome, n: int, w: World)
    requires n <= 1 && Computed(o, Int(n), w)
    ensures IsFactorial(o, n, w)
  {}

  lemma FactorialLater(o: Outcome, k: nat, n: int, w1: World, w: World)
    requires IsFactorial(o, n, w1) && w.pads <= w1.pads && w1 == w.(pads := w1.pads)
    ensures IsFactorial(Later(k, o), n, w)
  {}

  lemma ArgumentIs(fuel: nat, n: int, pad: nat, w: World, answers: Answers)
    requires InScope(w.pads, pad, map["i" := n])
    ensures Computed(Eval(fuel, Argument(), pad, w, answers), Int(n), w)
  {
    hide Eval, PadGet;
    VariableMeans(fuel, "i", n, pad, w, answers);
  }

  function Less(): Term {
    Minus(Variable("i"), Number(1))
  }

  /** The argument of the recursive call. */
  lemma LessIs(fuel: nat, n: int, pad: nat, w: World, answers: Answers)
    requires 1 < n && Fits(n) && InScope(w.pads, pad, map["i" := n])
    ensures Computed(Eval(fuel, Tree(Less()), pad, w, answers), Int(n - 1), w)
  {
    hide Eval, InScope, Tree;
    var env := map["i" := n];
    assert Meaning(Variable("i"), env) == Some(n) && Meaning(Number(1), env) == Some(1);
    TreeMeans(fuel, Less(), env, pad, w, answers);
  }

  /** The recursive call. */
  lemma {:induction false} CallOfLess(fuel: nat, n: int, pad: nat, w: World, answers: Answers)
    requires 1 < n && Fits(n) && InScope(w.pads, pad, map["i" := n]) && Defined(w.pads, pad) && Defined(w.pads, 0)
    requires fuel >= 2 * n
    ensures IsFactorial(Eval(fuel, CallOf(Tree(Less())), pad, w, answers), n - 1, w)
    decreases n, 0, 0
  {
    hide Eval, EvalCall, InScope, Defined, Tree, FactorialCallable, CallOf, IsFactorial, Less;
    LessIs(fuel, n, pad, w, answers);
    var m := Eval(fuel, Tree(Less()), pad, w, answers);
    CallIs(fuel, Tree(Less()), n - 1, pad, w, answers);
    DefinedExtends(w.pads, m.world.pads, 0);
    FactorialCalled(fuel, n - 1, pad, m.world, answers);
    var f := EvalCall(fuel, FactorialCallable(), Some([Int(n - 1)]), pad, m.world, answers);
    var k: nat :| Eval(fuel, CallOf(Tree(Less())), pad, w, answers) == Later(k, f);
    FactorialLater(f, k, n - 1, m.world, w);
  }

  /** The recursive branch. */
  lemma {:induction false} RecursiveIs(fuel: nat, n: int, pad: nat, w: World, answers: Answers)
    requires 1 < n && Fits(n) && InScope(w.pads, pad, map["i" := n]) && Defined(w.pads, pad) && Defined(w.pads, 0)
    requires fuel >= 2 * n
    ensures IsFactorial(Eval(fuel, Recursive(), pad, w, answers), n, w)
    decreases n, 0, 1
  {
    hide Eval, Finish, InScope, Defined, CallOf, IsFactorial, Tree;
    ArgumentIs(fuel, n, pad, w, answers);
    var a := Eval(fuel, Argument(), pad, w, answers);
    InScopeExtends(w.pads, a.world.pads, pad, map["i" := n]);
    DefinedExtends(w.pads, a.world.pads, pad);
    DefinedExtends(w.pads, a.world.pads, 0);
    CallOfLess(fuel, n, pad, a.world, answers);
    TwoChildren(fuel, Binary(Multiply), Argument(), CallOf(Tree(Less())), pad, w, answers);
    Multiplied(fuel, n, Eval(fuel, CallOf(Tree(Less())), pad, a.world, answers), pad, a.world, w, answers);
  }

  /** n times the factorial of n - 1, which fits only up to 12. */
  lemma Multiplied(fuel: nat, n: int, f: Outcome, pad: nat, w1: World, w: World, answers: Answers)
    requires 1 < n && IsFactorial(f, n - 1, w1) && w.pads <= w1.pads && w1 == w.(pads := w1.pads)
    ensures if f.Evaluated? then
              forall k: nat ::
                IsFactorial(Later(k, Finish(fuel, Binary(Multiply), [Int(n), f.value], pad, f.world, answers)), n, w)
            else IsFactorial(f, n, w)
  {
    hide Finish;
    if f.Evaluated? {
      ProductFits(n - 1);
      if n <= 12 { ProductFits(n); }
      assert f.value == Int(Product(n - 1)) && n * Product(n - 1) == Product(n);
      BinaryFinishes(fuel, Multiply, n, Product(n - 1), pad, f.world, answers);
    }
  }

  // ----- the program -----

  /** The binding, in an empty root pad. */
  lemma Bound(fuel: nat, w: World, answers: Answers)
    requires w.pads == [Pad(map[], None)]
    ensures var o := Eval(fuel, Node(LexicalPadInitializeGlobal("factorial"),
                                     [Node(StaticCallable(FactorialCallable()), [])]), 0, w, answers);
            && o.Evaluated? && o.value == Code(FactorialCallable()) && Defined(o.world.pads, 0)
            && o.world == w.(pads := o.world.pads)
  {
    hide FactorialCallable;
    LeafPure(fuel, StaticCallable(FactorialCallable()), Code(FactorialCallable()), 0, w, answers);
    EvalUnary(fuel, LexicalPadInitializeGlobal("factorial"), Node(StaticCallable(FactorialCallable()), []), 0, w,
              answers);
  }

  /** Two children of a sequence, the second of which decides. */
  lemma SecondDecides(fuel: nat, first: Node, second: Node, pad: nat, w: World, answers: Answers)
    requires var a := Eval(fuel, first, pad, w, answers); a.Evaluated? && !Interrupts(a.value)
    ensures var a := Eval(fuel, first, pad, w, answers);
            var b := Eval(fuel, second, pad, a.world, answers);
            var o := Eval(fuel, Node(OpSequence, [first, second]), pad, w, answers);
            if b.Evaluated? then o.Evaluated? && o.value == b.value && o.world == b.world else o == b
  {
    hide Finish;
    var node := Node(OpSequence, [first, second]);
    var a := Eval(fuel, first, pad, w, answers);
    var b := Eval(fuel, second, pad, a.world, answers);
    if b.Evaluated? {
      SequenceOfTwo(fuel, first, second, pad, w, answers);
    } else {
      assert [] + [a.value] == [a.value];
      assert !ArgumentsReady(node, [a.value]) && !ArgumentsReady(node, []);
      assert EvalArguments(fuel, node, [a.value], pad, a.world, answers) == NoArguments(b);
      assert EvalArguments(fuel, node, [], pad, w, answers) == NoArguments(b);
    }
  }

  lemma ProgramEvaluates(fuel: nat, n: int, w: World, answers: Answers)
    requires Fits(n) && w.pads == [Pad(map[], None)] && fuel >= 2 + (if n <= 1 then 0 else 2 * n)
    ensures var o := Eval(fuel, FactorialProgram(n), 0, w, answers);
            if n <= 12 then
              o.Evaluated? && o.value == Int(if n <= 1 then n else Product(n)) && o.world == w.(pads := o.world.pads)
            else o == Fails(IntegerOverflow)
  {
    hide Eval, EvalCall, FactorialCallable, Defined, CallOf, Product;
    Bound(fuel, w, answers);
    var first := Node(LexicalPadInitializeGlobal("factorial"), [Node(StaticCallable(FactorialCallable()), [])]);
    var second := CallOf(Node(Int32Literal(n), []));
    var w1 := Eval(fuel, first, 0, w, answers).world;
    NumberMeans(fuel, n, 0, w1, answers);
    CallIs(fuel, Node(Int32Literal(n), []), n, 0, w1, answers);
    var w2 := Eval(fuel, Node(Int32Literal(n), []), 0, w1, answers).world;
    DefinedExtends(w1.pads, w2.pads, 0);
    FactorialCalled(fuel, n, 0, w2, answers);
    SecondDecides(fuel, first, second, 0, w, answers);
  }

  /** The machine exits with this value, and has only added pads. */
  ghost predicate ExitsWith(tree: Node, w: World, answers: Answers, v: Value) {
    exists k, pads :: Exited(Run(Instance(tree, w), k, answers), v, w.(pads := pads))
  }

  /**
   The stack machine on that program: for every 32-bit integer up to 12 it exits with
   the factorial (the integer itself when it is not positive), and for every larger
   one it stops at the overflow.
   */
  lemma MachineComputesFactorial(n: int, w: World, answers: Answers)
    requires Fits(n) && w.pads == [Pad(map[], None)]
    ensures if n <= 12
            then ExitsWith(FactorialProgram(n), w, answers, Int(if n <= 1 then n else Product(n)))
            else exists k :: Run(Instance(FactorialProgram(n), w), k, answers) == Halted(IntegerOverflow)
  {
    hide Eval, FactorialProgram, Product, Run, Exited;
    var fuel := 2 + if n <= 1 then 0 else 2 * n;
    ProgramEvaluates(fuel, n, w, answers);
    var o := Eval(fuel, FactorialProgram(n), 0, w, answers);
    if n <= 12 {
      assert o == Evaluated(o.value, o.world, o.steps);
      ExitsIffEvaluates(FactorialProgram(n), w, answers, o.value, o.world);
      var k :| Exited(Run(Instance(FactorialProgram(n), w), k, answers), o.value, o.world);
      assert Exited(Run(Instance(FactorialProgram(n), w), k, answers), o.value, w.(pads := o.world.pads));
    } else {
      HaltsIffFails(FactorialProgram(n), w, answers, IntegerOverflow);
    }
  }

  /** Five factorial is a hundred and twenty. */
  lemma FiveFactorial(w: World, answers: Answers)
    requires w.pads == [Pad(map[], None)]
    ensures ExitsWith(FactorialProgram(5), w, answers, Int(120))
  {
    assert Product(3) == 6 && Product(5) == 120;
    MachineComputesFactorial(5, w, answers);
  }
}
