/** The shape of the stacks in every reachable state. */
module Shape {
  import opened Options
  import opened Values
  import opened Contexts
  import opened Machine
  import opened Evaluator
  import opened Refinement
  import opened Adequacy
  import opened Scope

  /** The context has the operation's own type. */
  predicate OwnContext(f: Frame) {
    if ControlFlow(f.node.op) then f.context.ControlFlowContext?
    else if f.node.op.UnaryCallback? then f.context.CallbackContext?
    else Writes(f.node.op) || Reads(f.node.op) ==> f.context.InputOutputContext?
  }

  /** `lower` waits for the child it has no value for yet, and `upper` is the frame of that child. */
  predicate WaitsFor(lower: Frame, upper: Frame) {
    && !ArgumentsReady(lower.node, lower.accumulator)
    && |lower.accumulator| < |lower.node.children|
    && upper.node == lower.node.children[|lower.accumulator|]
  }

  ghost predicate ShapedFrames(frames: seq<Frame>, pad: nat) {
    && (forall i :: 0 <= i < |frames| ==> frames[i].pad == pad && OwnContext(frames[i]))
    && (forall i :: 0 <= i < |frames| - 1 ==> WaitsFor(frames[i], frames[i + 1]))
  }

  /** `lower` has its top frame at a call, and `upper` runs the tree of the callable. */
  ghost predicate Calling(lower: Continuation, upper: Continuation) {
    && lower.frames != [] && upper.frames != []
    && var top := Last(lower.frames);
    && ControlFlow(top.node.op) && ArgumentsReady(top.node, top.accumulator)
    && top.context.ControlFlowContext? && top.context.callableInvoked && top.context.callable.Some?
    && upper.frames[0].node == top.context.callable.value.tree
  }

  ghost predicate Shaped(cfg: Config) {
    cfg.Running? ==>
      var cs := cfg.continuations;
      && cs != []
      && (forall i :: 0 <= i < |cs| ==> ShapedFrames(cs[i].frames, cs[i].pad) && cs[i].pad < |cfg.world.pads|)
      && (forall i :: 0 <= i < |cs| - 1 ==> Calling(cs[i], cs[i + 1]))
      && (Last(cs).frames == [] ==> |cs| == 1 && cs[0].result.Returned?)
  }

  /** Causes a shaped machine never halts for. */
  predicate Broken(cause: Cause) {
    cause.MissingFrame? || cause.MissingArguments? || cause.NotCallable?
  }

  ghost predicate Kept(cfg: Config) {
    Shaped(cfg) && (cfg.Halted? ==> !Broken(cfg.cause))
  }

  /** Everything under the top continuation, and the top continuation's own frames and pad. */
  ghost predicate ShapedUnder(below: seq<Continuation>, first: Node, pad: nat, w: World) {
    && (forall i :: 0 <= i < |below| ==> ShapedFrames(below[i].frames, below[i].pad) && below[i].pad < |w.pads|)
    && (forall i :: 0 <= i < |below| - 1 ==> Calling(below[i], below[i + 1]))
    && (below != [] ==> Calling(Last(below), Continuation([Fresh(first, pad)], pad, Returned(Bool(false)))))
    && pad < |w.pads|
  }

  /** Preparing pushes only frames that the ones below wait for. */
  lemma {:induction false} PrepareShaped(frames: seq<Frame>, top: Frame, pad: nat)
    requires ShapedFrames(frames + [top], pad) && Prepare(frames, top).Some?
    ensures var all := Prepare(frames, top).value;
            && ShapedFrames(all, pad) && ArgumentsReady(Last(all).node, Last(all).accumulator)
            && all[0].node == (frames + [top])[0].node
    decreases top.node
  {
    if !ArgumentsReady(top.node, top.accumulator) {
      var child := Fresh(top.node.children[|top.accumulator|], top.pad);
      var more := frames + [top] + [child];
      assert (frames + [top])[|frames|] == top;
      forall i | 0 <= i < |more| - 1 ensures WaitsFor(more[i], more[i + 1]) {
        if i < |frames| { assert WaitsFor((frames + [top])[i], (frames + [top])[i + 1]); }
      }
      assert more[0].node == (frames + [top])[0].node;
      PrepareShaped(frames + [top], child, pad);
    }
  }

  lemma ShapedCons(below: seq<Continuation>, c: Continuation, w: World)
    requires c.frames != [] && ShapedUnder(below, c.frames[0].node, c.pad, w) && ShapedFrames(c.frames, c.pad)
    ensures Shaped(Running(below + [c], w))
  {
    var cs := below + [c];
    forall i | 0 <= i < |cs| - 1 ensures Calling(cs[i], cs[i + 1]) {
      if i < |below| - 1 { assert Calling(below[i], below[i + 1]); }
    }
  }

  lemma DeliverShaped(below: seq<Continuation>, frames: seq<Frame>, top: Frame, pad: nat, v: Value, w: World)
    requires ShapedFrames(frames + [top], pad) && ShapedUnder(below, (frames + [top])[0].node, pad, w)
    ensures Kept(Deliver(below, frames, pad, v, w))
  {
    var old_ := frames + [top];
    if frames != [] {
      var parent := Last(frames).(accumulator := Last(frames).accumulator + [v]);
      var fs := ButLast(frames) + [parent];
      forall i | 0 <= i < |fs| - 1 ensures WaitsFor(fs[i], fs[i + 1]) {
        assert WaitsFor(old_[i], old_[i + 1]);
      }
      assert forall i :: 0 <= i < |fs| ==> fs[i].pad == old_[i].pad;
      ShapedCons(below, Continuation(fs, pad, Returned(v)), w);
    } else if below != [] {
      ReturnShaped(below, v, w);
    }
  }

  lemma ReturnShaped(below: seq<Continuation>, v: Value, w: World)
    requires below != []
    requires forall i :: 0 <= i < |below| ==> ShapedFrames(below[i].frames, below[i].pad) && below[i].pad < |w.pads|
    requires forall i :: 0 <= i < |below| - 1 ==> Calling(below[i], below[i + 1])
    requires exists upper :: Calling(Last(below), upper)
    ensures ReturnTo(Last(below), v).Ok?
    ensures Shaped(Running(ButLast(below) + [ReturnTo(Last(below), v).value], w))
  {
    var c := Last(below);
    var top := Last(c.frames);
    var resumed := top.(context := top.context.(value := Some(v)));
    var fs := ButLast(c.frames) + [resumed];
    forall i | 0 <= i < |fs| - 1 ensures WaitsFor(fs[i], fs[i + 1]) {
      assert WaitsFor(c.frames[i], c.frames[i + 1]);
    }
    assert forall i :: 0 <= i < |fs| ==> fs[i].pad == c.frames[i].pad;
    if |below| > 1 { assert Calling(below[|below| - 2], below[|below| - 1]); }
    ShapedCons(ButLast(below), Continuation(fs, c.pad, Returned(v)), w);
  }

  lemma CallShaped(below: seq<Continuation>, frames: seq<Frame>, top: Frame, pad: nat, context: Context, w: World)
    requires ShapedFrames(frames + [top], pad) && ShapedUnder(below, (frames + [top])[0].node, pad, w)
    requires ControlFlow(top.node.op) && ArgumentsReady(top.node, top.accumulator)
    requires context.ControlFlowContext? && context.callable.Some?
    ensures Kept(Call(below, frames, top, pad, context, w))
  {
    var next := Call(below, frames, top, pad, context, w);
    if next.Running? {
      var waiting := top.(context := context.(callableInvoked := true));
      var caller := Continuation(frames + [waiting], pad, Suspended(WaitingForCallableInvocation));
      Replaced(frames, top, waiting, pad);
      var tree := context.callable.value.tree;
      var callee := Fresh(tree, |w.pads|);
      PrepareShaped([], callee, |w.pads|);
      ShapedCons(below, caller, w);
      assert Last(below + [caller]) == caller && Last(caller.frames) == waiting;
      var c := Last(next.continuations);
      assert next.continuations == (below + [caller]) + [c];
      assert c.frames[0].node == tree;
      var cs := below + [caller];
      assert forall i :: 0 <= i < |cs| - 1 ==> Calling(cs[i], cs[i + 1]);
      ShapedCons(cs, c, next.world);
    }
  }

  /** Another context in the top frame keeps the shape. */
  lemma Replaced(frames: seq<Frame>, top: Frame, other: Frame, pad: nat)
    requires ShapedFrames(frames + [top], pad)
    requires other == top.(context := other.context) && OwnContext(other)
    ensures ShapedFrames(frames + [other], pad) && (frames + [other])[0].node == (frames + [top])[0].node
  {
    var a, b := frames + [top], frames + [other];
    forall i | 0 <= i < |b| - 1 ensures WaitsFor(b[i], b[i + 1]) {
      assert WaitsFor(a[i], a[i + 1]);
    }
    forall i | 0 <= i < |b| ensures b[i].pad == pad && OwnContext(b[i]) {
      assert a[i].pad == pad && OwnContext(a[i]);
    }
  }

  lemma ExecuteShaped(f: Frame, w: World)
    requires ArgumentsReady(f.node, f.accumulator) && OwnContext(f) && Rooted(w.pads) && f.pad < |w.pads|
    ensures match Execute(f, w.pads)
            case Done(_, pads) => Rooted(pads) && |pads| >= |w.pads|
            case Stuck(cause) => !Broken(cause)
            case Blocked(reason, context) =>
              && OwnContext(f.(context := context))
              && (reason.WaitingForCallableInvocation? ==> ControlFlow(f.node.op) && context.callable.Some?)
  {
    if Immediate(f.node.op) {
      ApplyFrames(f.node.op, f.accumulator, w.pads, f.pad);
    }
  }

  /** Shaped, with rooted pads, and not halted for a broken stack. */
  ghost predicate Good(cfg: Config) {
    Kept(cfg) && (cfg.Running? ==> Rooted(cfg.world.pads))
  }

  /** One step keeps the shape, and a shaped machine does not halt for a broken stack. */
  lemma StepKeepsShape(cfg: Config, answers: Answers)
    requires Good(cfg)
    ensures Good(Step(cfg, answers))
  {
    hide Step;
    if cfg.Running? {
      var below, c := ButLast(cfg.continuations), Last(cfg.continuations);
      assert below + [c] == cfg.continuations;
      if c.frames == [] {
        assert Finished(cfg);
        FinishedStep(cfg, answers);
      } else {
        FramesKeepShape(cfg, below, c, answers);
      }
    } else {
      FinishedStep(cfg, answers);
    }
  }

  lemma FramesKeepShape(cfg: Config, below: seq<Continuation>, c: Continuation, answers: Answers)
    requires Good(cfg) && cfg.Running? && cfg.continuations == below + [c] && c.frames != []
    ensures Good(Step(cfg, answers))
  {
    var frames, top := ButLast(c.frames), Last(c.frames);
    assert frames + [top] == c.frames;
    assert cfg.continuations[..|below|] == below && cfg.continuations[|below|] == c;
    if below != [] { assert Calling(cfg.continuations[|below| - 1], cfg.continuations[|below|]); }
    FacingStep(Site(below, frames, c.pad), c.result, cfg.world, top, answers);
    PreparedKeepsShape(below, frames, top, c.pad, cfg.world, answers);
  }

  lemma PreparedKeepsShape(below: seq<Continuation>, frames: seq<Frame>, top: Frame, pad: nat, w: World,
                           answers: Answers)
    requires ShapedFrames(frames + [top], pad) && ShapedUnder(below, (frames + [top])[0].node, pad, w) && Rooted(w.pads)
    ensures match Prepare(frames, top)
            case None => true
            case Some(all) => Good(StepTop(below, ButLast(all), Last(all), pad, w, answers))
  {
    match Prepare(frames, top)
    case None =>
    case Some(all) =>
      PrepareShaped(frames, top, pad);
      assert ButLast(all) + [Last(all)] == all;
      TopKeepsShape(below, ButLast(all), Last(all), pad, w, answers);
  }

  lemma TopKeepsShape(below: seq<Continuation>, frames: seq<Frame>, top: Frame, pad: nat, w: World, answers: Answers)
    requires ShapedFrames(frames + [top], pad) && ShapedUnder(below, (frames + [top])[0].node, pad, w)
    requires ArgumentsReady(top.node, top.accumulator) && Rooted(w.pads)
    ensures Good(StepTop(below, frames, top, pad, w, answers))
  {
    assert (frames + [top])[|frames|] == top;
    ExecuteShaped(top, w);
    match Execute(top, w.pads)
    case Stuck(_) =>
    case Done(v, pads) =>
      DeliverShaped(below, frames, top, pad, v, w.(pads := pads));
    case Blocked(reason, context) =>
      if reason.WaitingForCallableInvocation? {
        CallShaped(below, frames, top, pad, context, w);
        CallRooted(below, frames, top, pad, context, w);
      } else {
        ServeShaped(below, frames, top, pad, reason, context, w, answers);
      }
  }

  lemma CallRooted(below: seq<Continuation>, frames: seq<Frame>, top: Frame, pad: nat, context: Context, w: World)
    requires Rooted(w.pads) && pad < |w.pads|
    ensures var next := Call(below, frames, top, pad, context, w); next.Running? ==> Rooted(next.world.pads)
  {}

  lemma ServeShaped(below: seq<Continuation>, frames: seq<Frame>, top: Frame, pad: nat, reason: Reason,
                    context: Context,
                    w: World, answers: Answers)
    requires ShapedFrames(frames + [top], pad) && ShapedUnder(below, (frames + [top])[0].node, pad, w)
    requires Rooted(w.pads) && OwnContext(top.(context := context))
    ensures Good(Serve(below, frames, top, pad, reason, context, w, answers))
  {
    match ServiceOf(top, reason, context, w, answers)
    case Dropped(_) =>
    case Served(served, w1) =>
      var other := top.(context := served);
      Replaced(frames, top, other, pad);
      ShapedCons(below, Continuation(frames + [other], pad, Suspended(reason)), w1);
  }

  /** Every state a program reaches is shaped, and its pads are rooted. */
  lemma {:induction false} ReachableShaped(cfg: Config, n: nat, answers: Answers)
    requires Good(cfg)
    ensures Good(Run(cfg, n, answers))
    decreases n
  {
    if n > 0 {
      StepKeepsShape(cfg, answers);
      ReachableShaped(Step(cfg, answers), n - 1, answers);
    }
  }

  /** A well-formed program reaches shaped states only, and none of the interpreter's asserts fails. */
  lemma ProgramKeepsShape(tree: Node, w: World, answers: Answers, n: nat)
    requires WellFormed(tree) && Rooted(w.pads) && WellFormedPads(w.pads) && (forall q :: WellFormedValue(answers(q)))
    ensures var cfg := Run(Instance(tree, w), n, answers);
            Shaped(cfg) && (cfg.Halted? ==> !Structural(cfg.cause))
  {
    ReachableShaped(Instance(tree, w), n, answers);
    var cfg := Run(Instance(tree, w), n, answers);
    if cfg.Halted? {
      EndOfRun(tree, w, answers, n);
      EvalSound(n, tree, 0, w, answers);
    }
  }
}
