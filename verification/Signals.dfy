/**
 The notification signal with one waiter and any number of producers that
 publish first and notify afterwards, as interleaved atomic steps.
 */
module Signals {
  /** What a waiter examines: the queues and flags of an interpreter, or the collection itself. */
  type Source = nat

  /** A producer is idle, has published an event, or has also set the flag and is about to wake the waiter. */
  datatype Producer = Idle | Published(source: Source) | Flagged(source: Source)

  /**
   The waiter examines its sources, is about to lock the signal, sleeps, or was
   woken and has yet to lock it again.
   */
  datatype Waiter = Scanning(left: set<Source>) | Entering | Parked | Woken

  /** `unseen` are the sources with an event newer than the waiter's last look at them. */
  datatype State = State(notified: bool, waiter: Waiter, producers: seq<Producer>, sources: set<Source>,
                         unseen: set<Source>)

  datatype Step =
    | Publish(producer: nat, source: Source)
    | SetFlag(producer: nat)
    | NotifyAll(producer: nat)
    | Examine(source: Source)
    | ScanAgain
    | BeginWait
    | Lock
    | WakeSpuriously
    | Relock

  predicate Enabled(s: State, step: Step) {
    match step
    case Publish(p, source) => p < |s.producers| && s.producers[p].Idle? && source in s.sources
    case SetFlag(p) => p < |s.producers| && s.producers[p].Published?
    case NotifyAll(p) => p < |s.producers| && s.producers[p].Flagged?
    case Examine(source) => s.waiter.Scanning? && source in s.waiter.left
    case ScanAgain => s.waiter == Scanning({})
    case BeginWait => s.waiter == Scanning({})
    case Lock => s.waiter.Entering?
    case WakeSpuriously => s.waiter.Parked?
    case Relock => s.waiter.Woken?
  }

  /** Everything done under the signal's mutex is one step; sleeping gives the mutex up in the same step. */
  function Take(s: State, step: Step): State
    requires Enabled(s, step)
  {
    match step
    case Publish(p, source) => s.(producers := s.producers[p := Published(source)], unseen := s.unseen + {source})
    case SetFlag(p) => s.(producers := s.producers[p := Flagged(s.producers[p].source)], notified := true)
    case NotifyAll(p) => s.(producers := s.producers[p := Idle], waiter := if s.waiter.Parked? then Woken else s.waiter)
    case Examine(source) => s.(waiter := Scanning(s.waiter.left - {source}), unseen := s.unseen - {source})
    case ScanAgain => s.(waiter := Scanning(s.sources))
    case BeginWait => s.(waiter := Entering)
    case Lock => if s.notified then s.(notified := false, waiter := Scanning(s.sources)) else s.(waiter := Parked)
    case WakeSpuriously => s.(waiter := Woken)
    case Relock => s.(notified := false, waiter := Scanning(s.sources))
  }

  function Start(producers: nat, sources: set<Source>): State {
    State(false, Scanning(sources), seq(producers, _ => Idle), sources, {})
  }

  function Run(s: State, steps: seq<Step>): State
    requires Runnable(s, steps)
    decreases |steps|
  {
    if steps == [] then s else Run(Take(s, steps[0]), steps[1..])
  }

  predicate Runnable(s: State, steps: seq<Step>)
    decreases |steps|
  {
    steps != [] ==> Enabled(s, steps[0]) && Runnable(Take(s, steps[0]), steps[1..])
  }

  /** A producer is on its way to telling the waiter about the source. */
  ghost predicate Announcing(s: State, source: Source) {
    exists p :: 0 <= p < |s.producers| && s.producers[p] == Published(source)
  }

  ghost predicate Pending(s: State, source: Source) {
    exists p :: 0 <= p < |s.producers| && (s.producers[p] == Published(source) || s.producers[p] == Flagged(source))
  }

  /** No event is lost, whatever the waiter is doing. */
  ghost predicate Invariant(s: State) {
    && s.unseen <= s.sources
    && match s.waiter
       case Scanning(left) => left <= s.sources && forall e :: e in s.unseen && e !in left ==>
         s.notified || Announcing(s, e)
       case Entering => forall e :: e in s.unseen ==> s.notified || Announcing(s, e)
       case Parked => forall e :: e in s.unseen ==> Pending(s, e)
       case Woken => true
  }

  /** A producer's step leaves the other producers where they are. */
  lemma OthersKeep(s: State, p: nat, next: Producer, e: Source)
    requires p < |s.producers|
    ensures var t := s.(producers := s.producers[p := next]);
            && (Announcing(s, e) && s.producers[p] != Published(e) ==> Announcing(t, e))
            && (Pending(s, e) && s.producers[p] != Published(e) && s.producers[p] != Flagged(e) ==> Pending(t, e))
            && (next == Published(e) ==> Announcing(t, e) && Pending(t, e))
            && (next == Flagged(e) ==> Pending(t, e))
  {
    var t := s.(producers := s.producers[p := next]);
    assert t.producers[p] == next;
    if Announcing(s, e) && s.producers[p] != Published(e) {
      var q :| 0 <= q < |s.producers| && s.producers[q] == Published(e);
      assert t.producers[q] == Published(e);
    }
    if Pending(s, e) && s.producers[p] != Published(e) && s.producers[p] != Flagged(e) {
      var q :| 0 <= q < |s.producers| && (s.producers[q] == Published(e) || s.producers[q] == Flagged(e));
      assert t.producers[q] == s.producers[q];
    }
  }

  lemma StepKeeps(s: State, step: Step)
    requires Invariant(s) && Enabled(s, step)
    ensures Invariant(Take(s, step))
  {
    var t := Take(s, step);
    if step.Publish? || step.SetFlag? || step.NotifyAll? {
      forall e | e in t.unseen
        ensures Announcing(s, e) && s.producers[step.producer] != Published(e) ==> Announcing(t, e)
        ensures Pending(s, e) && s.producers[step.producer] !in {Published(e), Flagged(e)} ==> Pending(t, e)
        ensures t.producers[step.producer] == Published(e) ==> Announcing(t, e) && Pending(t, e)
        ensures t.producers[step.producer] == Flagged(e) ==> Pending(t, e)
      {
        OthersKeep(s, step.producer, t.producers[step.producer], e);
      }
    } else if step.Lock? && !s.notified {
      forall e | e in s.unseen ensures Pending(t, e) {
        assert Announcing(s, e);
      }
    } else {
      forall e | Announcing(s, e) ensures Announcing(t, e) {}
    }
  }

  lemma {:induction false} RunKeeps(s: State, steps: seq<Step>)
    requires Invariant(s) && Runnable(s, steps)
    ensures Invariant(Run(s, steps))
    decreases |steps|
  {
    if steps != [] {
      StepKeeps(s, steps[0]);
      RunKeeps(Take(s, steps[0]), steps[1..]);
    }
  }

  /**
   No lost wake-up: in every interleaving, while the waiter sleeps unwoken and an
   event is newer than its last look, some producer still has its notify to finish,
   and finishing it wakes the waiter.
   */
  lemma NoLostWakeUp(producers: nat, sources: set<Source>, steps: seq<Step>, e: Source)
    requires Runnable(Start(producers, sources), steps)
    ensures var s := Run(Start(producers, sources), steps);
            s.waiter.Parked? && e in s.unseen ==> Pending(s, e)
  {
    RunKeeps(Start(producers, sources), steps);
  }

  /** Once every producer is done, a sleeping waiter has seen everything. */
  lemma QuietMeansSeen(producers: nat, sources: set<Source>, steps: seq<Step>)
    requires Runnable(Start(producers, sources), steps)
    ensures var s := Run(Start(producers, sources), steps);
            s.waiter.Parked? && Quiet(s) ==> s.unseen == {}
  {
    RunKeeps(Start(producers, sources), steps);
    var s := Run(Start(producers, sources), steps);
    if Quiet(s) { NothingPending(s); }
  }

  predicate Quiet(s: State) {
    forall p :: 0 <= p < |s.producers| ==> s.producers[p].Idle?
  }

  lemma NothingPending(s: State)
    requires Quiet(s)
    ensures forall e :: !Pending(s, e)
  {}

  // ----- every event can be seen -----

  /** Steps of the waiter, and of producers that have published: nothing new happens, and no wake-up is spurious. */
  predicate Settling(steps: seq<Step>) {
    forall i :: 0 <= i < |steps| ==> !steps[i].Publish? && !steps[i].WakeSpuriously?
  }

  /** After these steps the event has been looked at. */
  ghost predicate Sees(s: State, steps: seq<Step>, e: Source) {
    Runnable(s, steps) && Settling(steps) && e !in Run(s, steps).unseen
  }

  lemma StepFirst(s: State, step: Step, more: seq<Step>, e: Source)
    requires Enabled(s, step) && !step.Publish? && !step.WakeSpuriously? && Sees(Take(s, step), more, e)
    ensures Sees(s, [step] + more, e)
  {
    assert ([step] + more)[1..] == more;
  }

  lemma LookAt(s: State, e: Source)
    requires s.waiter.Scanning? && e in s.waiter.left
    ensures Sees(s, [Examine(e)], e)
  {
    assert Sees(Take(s, Examine(e)), [], e);
    StepFirst(s, Examine(e), [], e);
    assert [Examine(e)] + [] == [Examine(e)];
  }

  lemma {:induction false} ScanSees(s: State, e: Source) returns (steps: seq<Step>)
    requires s.waiter.Scanning? && e in s.sources
    ensures Sees(s, steps, e)
    decreases s.waiter.left
  {
    var step, more;
    if e in s.waiter.left {
      steps := [Examine(e)];
      LookAt(s, e);
      return;
    } else if s.waiter.left == {} {
      step, more := ScanAgain, [Examine(e)];
      LookAt(Take(s, step), e);
    } else {
      var x :| x in s.waiter.left;
      step := Examine(x);
      more := ScanSees(Take(s, step), e);
    }
    StepFirst(s, step, more, e);
    steps := [step] + more;
  }

  lemma WokenSees(s: State, e: Source) returns (steps: seq<Step>)
    requires s.waiter.Woken? && e in s.sources
    ensures Sees(s, steps, e)
  {
    LookAt(Take(s, Relock), e);
    StepFirst(s, Relock, [Examine(e)], e);
    steps := [Relock] + [Examine(e)];
  }

  /** A producer that has set the flag wakes the waiter. */
  lemma NotifySees(s: State, p: nat, e: Source) returns (steps: seq<Step>)
    requires s.waiter.Parked? && e in s.sources && p < |s.producers| && s.producers[p].Flagged?
    ensures Sees(s, steps, e)
  {
    var more := WokenSees(Take(s, NotifyAll(p)), e);
    StepFirst(s, NotifyAll(p), more, e);
    steps := [NotifyAll(p)] + more;
  }

  lemma ParkedSees(s: State, e: Source) returns (steps: seq<Step>)
    requires s.waiter.Parked? && e in s.sources && Pending(s, e)
    ensures Sees(s, steps, e)
  {
    var p :| 0 <= p < |s.producers| && (s.producers[p] == Published(e) || s.producers[p] == Flagged(e));
    if s.producers[p].Flagged? {
      steps := NotifySees(s, p, e);
    } else {
      var more := NotifySees(Take(s, SetFlag(p)), p, e);
      StepFirst(s, SetFlag(p), more, e);
      steps := [SetFlag(p)] + more;
    }
  }

  /**
   Whatever the waiter is doing in a reachable state, the steps it and the producers
   have still to take can get it to look at an event it has not seen, without any
   further event or spurious wake-up.
   */
  lemma EventCanBeSeen(producers: nat, sources: set<Source>, before: seq<Step>, e: Source) returns (steps: seq<Step>)
    requires Runnable(Start(producers, sources), before)
    requires e in Run(Start(producers, sources), before).unseen
    ensures Sees(Run(Start(producers, sources), before), steps, e)
  {
    RunKeeps(Start(producers, sources), before);
    var s := Run(Start(producers, sources), before);
    hide Sees, Run, Runnable;
    match s.waiter
    case Scanning(_) => steps := ScanSees(s, e);
    case Woken => steps := WokenSees(s, e);
    case Parked => steps := ParkedSees(s, e);
    case Entering =>
      var t := Take(s, Lock);
      var more;
      if s.notified {
        more := [Examine(e)];
        LookAt(t, e);
      } else {
        var p :| 0 <= p < |s.producers| && s.producers[p] == Published(e);
        assert t.producers[p] == Published(e);
        more := ParkedSees(t, e);
      }
      StepFirst(s, Lock, more, e);
      steps := [Lock] + more;
  }
}
