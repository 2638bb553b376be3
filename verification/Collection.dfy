/** The collection of interpreters, replaced as a whole by compare-and-exchange, as interleaved atomic steps. */
module Collection {
  import opened Options

  /** An interpreter is known by a number; the map is keyed by file descriptor. */
  type Interpreters = map<int, nat>

  datatype Update = Insert(fd: int, interpreter: nat) | Remove(fd: int)

  /** What a committed transaction did to the collection. */
  function Apply(m: Interpreters, u: Update): Interpreters {
    match u
    case Insert(fd, interpreter) => (m - {fd})[fd := interpreter]
    case Remove(fd) => m - {fd}
  }

  function Fold(m: Interpreters, log: seq<Update>): Interpreters {
    if log == [] then m else Apply(Fold(m, log[..|log| - 1]), log[|log| - 1])
  }

  // ----- what a log of commits says -----

  /** The interpreter under a file descriptor. */
  function Under(m: Interpreters, fd: int): Option<nat> {
    if fd in m then Some(m[fd]) else None
  }

  /** Commit `k` is the last one for the descriptor. */
  ghost predicate LastFor(log: seq<Update>, fd: int, k: nat) {
    k < |log| && log[k].fd == fd && forall j :: k < j < |log| ==> log[j].fd != fd
  }

  /** The last commit for the descriptor inserted this interpreter; or it removed one, or there was none. */
  ghost predicate LastSays(log: seq<Update>, fd: int, under: Option<nat>) {
    && (forall k: nat :: LastFor(log, fd, k) ==> under == if log[k].Insert? then Some(log[k].interpreter) else None)
    && ((forall k: nat :: !LastFor(log, fd, k)) ==> under == None)
  }

  lemma LastExtends(log: seq<Update>, u: Update, fd: int, k: nat)
    ensures LastFor(log + [u], fd, k) <==> if u.fd == fd then k == |log| else LastFor(log, fd, k)
  {
    var more := log + [u];
    assert more[|log|] == u;
    assert forall j :: 0 <= j < |log| ==> more[j] == log[j];
  }

  /** Whatever the commits, what is under a descriptor is what the last commit for it says. */
  lemma {:induction false} FoldSays(log: seq<Update>, fd: int)
    ensures LastSays(log, fd, Under(Fold(map[], log), fd))
    decreases |log|
  {
    if log != [] {
      var before, u := log[..|log| - 1], log[|log| - 1];
      FoldSays(before, fd);
      assert log == before + [u];
      forall k: nat {
        LastExtends(before, u, fd, k);
      }
      if u.fd == fd { assert LastFor(log, fd, |before|); }
    }
  }

  /** A shared pointer: equal pointers are equal objects, and no address is used twice while it is held. */
  datatype Pointer = Pointer(address: nat, target: Interpreters)

  datatype Thread =
    | Idle
    | Started(update: Update)
    | Loaded(update: Update, current: Pointer)
    | Computed(update: Update, current: Pointer, replacement: Pointer)
    | Failed(update: Update)

  /** `exited` only grows; `log` records the commits in order. */
  datatype State = State(container: Pointer, nextAddress: nat, threads: seq<Thread>, exited: set<nat>, log: seq<Update>)

  datatype Step =
    | Begin(thread: nat, update: Update)
    | Load(thread: nat)
    | Compute(thread: nat)
    | Exchange(thread: nat)
    | ExchangeFails(thread: nat)  // the pointer has changed, or the exchange fails spuriously
    | Exit(interpreter: nat)

  ghost predicate Next(s: State, step: Step, t: State) {
    match step
    case Begin(i, update) =>
      i < |s.threads| && (s.threads[i].Idle? || s.threads[i].Failed?) && t == At(s, i, Started(update))
    case Load(i) =>
      i < |s.threads| && s.threads[i].Started? && t == At(s, i, Loaded(s.threads[i].update, s.container))
    case Compute(i) =>
      && i < |s.threads| && s.threads[i].Loaded?
      && var u, current := s.threads[i].update, s.threads[i].current;
         if u.Insert? && u.fd in current.target && current.target[u.fd] !in s.exited
         then t == At(s, i, Failed(u))
         else t == At(s, i, Computed(u, current, Pointer(s.nextAddress, Apply(current.target, u))))
                      .(nextAddress := s.nextAddress + 1)
    case Exchange(i) =>
      && i < |s.threads| && s.threads[i].Computed? && s.threads[i].current.address == s.container.address
      && t == At(s, i, Idle).(container := s.threads[i].replacement, log := s.log + [s.threads[i].update])
    case ExchangeFails(i) =>
      i < |s.threads| && s.threads[i].Computed? && t == At(s, i, Started(s.threads[i].update))
    case Exit(interpreter) =>
      t == s.(exited := s.exited + {interpreter})
  }

  function At(s: State, i: nat, thread: Thread): State
    requires i < |s.threads|
  {
    s.(threads := s.threads[i := thread])
  }

  function Initial(threads: nat): State {
    State(Pointer(0, map[]), 1, seq(threads, _ => Idle), {}, [])
  }

  ghost predicate Run(threads: nat, steps: seq<Step>, run: seq<State>) {
    && |run| == |steps| + 1
    && run[0] == Initial(threads)
    && forall i :: 0 <= i < |steps| ==> Next(run[i], steps[i], run[i + 1])
  }

  /** Every pointer a thread holds agrees with every other one on what the address holds. */
  ghost predicate Held(s: State, thread: Thread) {
    match thread
    case Loaded(_, current) => current.address < s.nextAddress
      && (current.address == s.container.address ==> current == s.container)
    case Computed(u, current, replacement) =>
      && current.address < s.nextAddress && (current.address == s.container.address ==> current == s.container)
      && replacement.address < s.nextAddress && replacement.address != s.container.address
      && replacement.target == Apply(current.target, u)
      && (u.Insert? && u.fd in current.target ==> current.target[u.fd] in s.exited)
    case _ => true
  }

  /** No two threads hold the same replacement, nor one as its replacement that another has loaded. */
  ghost predicate Apart(a: Thread, b: Thread) {
    a.Computed? ==>
      && (b.Computed? ==> a.replacement.address != b.replacement.address && a.replacement.address != b.current.address)
      && (b.Loaded? ==> a.replacement.address != b.current.address)
  }

  ghost predicate Invariant(s: State) {
    && s.container.address < s.nextAddress
    && s.container.target == Fold(map[], s.log)
    && (forall i :: 0 <= i < |s.threads| ==> Held(s, s.threads[i]))
    && (forall i, j :: 0 <= i < |s.threads| && 0 <= j < |s.threads| && i != j ==> Apart(s.threads[i], s.threads[j]))
  }

  lemma StepKeeps(s: State, step: Step, t: State)
    requires Invariant(s) && Next(s, step, t)
    ensures Invariant(t)
  {
    if step.Exchange? {
      var i := step.thread;
      assert Held(s, s.threads[i]);
      assert t.log[..|t.log| - 1] == s.log;
      forall j | 0 <= j < |t.threads| ensures Held(t, t.threads[j]) {
        if j != i {
          assert Held(s, s.threads[j]) && Apart(s.threads[i], s.threads[j]) && Apart(s.threads[j], s.threads[i]);
        }
      }
    }
    forall j | 0 <= j < |t.threads| ensures Held(t, t.threads[j]) {
      assert Held(s, s.threads[j]);
      if step.Exchange? && j != step.thread {
        assert Apart(s.threads[step.thread], s.threads[j]);
        assert Apart(s.threads[j], s.threads[step.thread]);
      }
    }
    forall j, k | 0 <= j < |t.threads| && 0 <= k < |t.threads| && j != k ensures Apart(t.threads[j], t.threads[k]) {
      assert Apart(s.threads[j], s.threads[k]);
      assert Held(s, s.threads[j]) && Held(s, s.threads[k]);
    }
  }

  lemma {:induction false} RunKeeps(threads: nat, steps: seq<Step>, run: seq<State>)
    requires Run(threads, steps, run)
    ensures Invariant(run[|run| - 1])
    decreases |steps|
  {
    if steps != [] {
      var n := |steps| - 1;
      RunKeeps(threads, steps[..n], run[..n + 1]);
      assert Next(run[n], steps[n], run[n + 1]);
      StepKeeps(run[n], steps[n], run[n + 1]);
    }
  }

  /**
   Linearizable: in every interleaving the collection is the committed updates
   applied in the order of their commits.
   */
  lemma CollectionIsFold(threads: nat, steps: seq<Step>, run: seq<State>)
    requires Run(threads, steps, run)
    ensures run[|run| - 1].container.target == Fold(map[], run[|run| - 1].log)
  {
    RunKeeps(threads, steps, run);
  }

  /** So what is under a descriptor is what the last committed update for it says. */
  lemma LastCommitDecides(threads: nat, steps: seq<Step>, run: seq<State>, fd: int)
    requires Run(threads, steps, run)
    ensures LastSays(run[|run| - 1].log, fd, Under(run[|run| - 1].container.target, fd))
  {
    CollectionIsFold(threads, steps, run);
    FoldSays(run[|run| - 1].log, fd);
  }

  /** An insert that commits replaces nothing, or an interpreter that had exited. */
  lemma InsertSparesTheLiving(threads: nat, steps: seq<Step>, run: seq<State>, n: nat)
    requires Run(threads, steps, run) && n < |steps| && steps[n].Exchange?
    ensures run[n + 1].log == run[n].log + [run[n].threads[steps[n].thread].update]
    ensures run[n + 1].container.target == Apply(run[n].container.target, run[n].threads[steps[n].thread].update)
    ensures var u := run[n].threads[steps[n].thread].update;
            u.Insert? && u.fd in run[n].container.target ==> run[n].container.target[u.fd] in run[n].exited
  {
    RunKeeps(threads, steps[..n], run[..n + 1]);
    assert run[..n + 1][n] == run[n];
    assert Next(run[n], steps[n], run[n + 1]);
    assert Held(run[n], run[n].threads[steps[n].thread]);
  }

  /**
   A transaction that has started can commit by its own steps, when no other thread
   comes between and no living interpreter is in its way.
   */
  lemma CanCommit(s: State, i: nat) returns (steps: seq<Step>, run: seq<State>)
    requires i < |s.threads| && s.threads[i].Started?
    requires var u := s.threads[i].update;
             u.Insert? && u.fd in s.container.target ==> s.container.target[u.fd] in s.exited
    ensures |run| == |steps| + 1 && run[0] == s && forall k :: 0 <= k < |steps| ==> Next(run[k], steps[k], run[k + 1])
    ensures run[|run| - 1].log == s.log + [s.threads[i].update] && run[|run| - 1].exited == s.exited
  {
    var u := s.threads[i].update;
    var loaded := At(s, i, Loaded(u, s.container));
    var replacement := Pointer(s.nextAddress, Apply(s.container.target, u));
    var computed := At(loaded, i, Computed(u, s.container, replacement)).(nextAddress := s.nextAddress + 1);
    var done := At(computed, i, Idle).(container := replacement, log := s.log + [u]);
    steps, run := [Load(i), Compute(i), Exchange(i)], [s, loaded, computed, done];
    assert Next(s, Load(i), loaded) && Next(loaded, Compute(i), computed) && Next(computed, Exchange(i), done);
  }

  datatype Outcome = Committed | Thrown | Retrying

  /** One thread's transactions, while other threads commit theirs at any moment. */
  class TransactionalContainer {
    var container: Pointer
    var nextAddress: nat
    ghost var log: seq<Update>

    ghost predicate Valid()
      reads this
    {
      container.address < nextAddress && container.target == Fold(map[], log)
    }

    lemma ContainerSays()
      requires Valid()
      ensures forall fd :: LastSays(log, fd, Under(container.target, fd))
    {
      forall fd ensures LastSays(log, fd, Under(container.target, fd)) { FoldSays(log, fd); }
    }

    constructor ()
      ensures Valid() && log == [] && container.target == map[]
    {
      container, nextAddress, log := Pointer(0, map[]), 1, [];
    }

    /** An exchange that succeeds. */
    method Commit(replacement: Pointer, ghost u: Update)
      requires Valid() && replacement.address < nextAddress && replacement.target == Apply(container.target, u)
      modifies this`container, this`log
      ensures Valid() && container == replacement && log == old(log) + [u]
    {
      assert (log + [u])[..|log|] == log;
      container := replacement;
      log := log + [u];
    }

    /** Commits by other threads, each under an address of its own. */
    method OtherThreads(updates: seq<Update>)
      requires Valid()
      modifies this
      ensures Valid() && log == old(log) + updates && nextAddress >= old(nextAddress)
      ensures if updates == [] then container == old(container) else container.address >= old(nextAddress)
    {
      for i := 0 to |updates|
        invariant Valid() && log == old(log) + updates[..i] && nextAddress >= old(nextAddress)
        invariant if i == 0 then container == old(container) else container.address >= old(nextAddress)
      {
        var replacement := Pointer(nextAddress, Apply(container.target, updates[i]));
        nextAddress := nextAddress + 1;
        Commit(replacement, updates[i]);
        assert updates[..i + 1] == updates[..i] + [updates[i]];
      }
      assert updates[..|updates|] == updates;
    }

    /**
     `do_transaction` with the function of `insert_interpreter` or
     `remove_interpreter`, amid other threads' commits: it retries exactly while its
     exchange is lost, throws exactly when the collection it then finds has a living
     interpreter under the descriptor, and else commits. Once committed, what is under
     the descriptor is what the update says, and under every other what the commits
     before it said.
     */
    method DoTransaction(u: Update, exited: set<nat>, attempts: seq<Attempt>) returns (outcome: Outcome, tries: nat)
      requires Valid()
      modifies this
      ensures Valid() && tries <= |attempts| && AllLost(attempts[..tries])
      ensures forall fd :: LastSays(log, fd, Under(container.target, fd))
      ensures outcome.Retrying? <==> tries == |attempts|
      ensures log == old(log) + Noise(attempts[..tries])
                     + (if outcome.Retrying? then [] else attempts[tries].before)
                     + (if outcome.Committed? then [u] else [])
      ensures outcome.Thrown? ==> u.Insert? && u.fd in container.target && container.target[u.fd] !in exited
      ensures outcome.Committed? ==>
                && !Lost(attempts[tries])
                && var before := Fold(map[], log[..|log| - 1]);
                && (u.Insert? ==> Under(container.target, u.fd) == Some(u.interpreter))
                && (u.Remove? ==> Under(container.target, u.fd) == None)
                && (forall fd :: fd != u.fd ==> Under(container.target, fd) == Under(before, fd))
                && (u.Insert? && u.fd in before ==> before[u.fd] in exited)
    {
      hide Fold, LastSays, Noise, AllLost;
      NoiseBegins(attempts);
      assert log + [] == log;
      tries := 0;
      while tries < |attempts|
        invariant Valid() && tries <= |attempts| && AllLost(attempts[..tries])
        invariant log == old(log) + Noise(attempts[..tries])
      {
        NoiseStep(old(log), attempts, tries);
        OtherThreads(attempts[tries].before);
        var current := container;
        if u.Insert? && u.fd in current.target && current.target[u.fd] !in exited {
          ContainerSays();
          assert log + [] == log;
          return Thrown, tries;
        }
        var replacement := Pointer(nextAddress, Apply(current.target, u));
        nextAddress := nextAddress + 1;
        OtherThreads(attempts[tries].between);
        if container.address == current.address && !attempts[tries].spurious {
          assert attempts[tries].between == [] && log + [] == log;
          assert (log + [u])[..|log|] == log;
          Commit(replacement, u);
          ContainerSays();
          return Committed, tries;
        }
        tries := tries + 1;
      }
      ContainerSays();
      assert log + [] + [] == log;
      return Retrying, tries;
    }
  }

  // ----- the attempts -----

  /** What other threads commit before an attempt loads the pointer, and from then to its exchange. */
  datatype Attempt = Attempt(before: seq<Update>, between: seq<Update>, spurious: bool)

  /** The exchange finds another pointer, or fails spuriously. */
  predicate Lost(a: Attempt) {
    a.between != [] || a.spurious
  }

  predicate AllLost(attempts: seq<Attempt>) {
    forall i :: 0 <= i < |attempts| ==> Lost(attempts[i])
  }

  /** All that others committed around the attempts. */
  function Noise(attempts: seq<Attempt>): seq<Update> {
    if attempts == [] then []
    else
      var n := |attempts| - 1;
      Noise(attempts[..n]) + attempts[n].before + attempts[n].between
  }

  lemma NoiseBegins(attempts: seq<Attempt>)
    ensures Noise(attempts[..0]) == [] && AllLost(attempts[..0])
  {}

  lemma NoiseStep(log: seq<Update>, attempts: seq<Attempt>, k: nat)
    requires k < |attempts|
    ensures log + Noise(attempts[..k + 1])
         == log + Noise(attempts[..k]) + attempts[k].before + attempts[k].between
    ensures AllLost(attempts[..k]) && Lost(attempts[k]) ==> AllLost(attempts[..k + 1])
  {
    assert attempts[..k + 1][..k] == attempts[..k];
    var noise, before, between := Noise(attempts[..k]), attempts[k].before, attempts[k].between;
    assert log + (noise + before + between) == log + noise + before + between;
  }
}
