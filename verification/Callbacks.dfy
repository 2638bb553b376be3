/** The callback handshake between the interpreter thread and the callback thread, as interleaved atomic steps. */
module Callbacks {
  import opened Options
  import opened Values

  datatype Call = Call(key: string, arguments: seq<Value>)

  /**
   The callback operation on top of an interpreter: not called yet, its request
   queued but not marked as called, called, answered, or no callback operation.
   */
  datatype Operation = NoCallback | Fresh(call: Call) | Posted(call: Call) | Called(call: Call)
    | Answered(call: Call, value: Value)

  datatype Interpreter = Interpreter(top: Operation, requests: seq<Call>, responses: seq<Value>)

  /** The callback thread holds at most one request, with the interpreter it came from. */
  datatype State = State(interpreters: map<int, Interpreter>, processing: Option<(int, Call)>)

  /** What the registered callbacks compute; an unknown key is a type error. */
  type Functions = map<string, seq<Value> -> Value>

  function ResultOf(functions: Functions, call: Call): Value {
    if call.key in functions then functions[call.key](call.arguments) else Error(TypeError)
  }

  datatype Step =
    | Reach(fd: int, call: Call)  // the interpreter comes to a callback operation
    | Request(fd: int)            // handle_start_callback: push the request
    | MarkCalled(fd: int)         // handle_start_callback: set_callback_called
    | Pick(fd: int)               // callback_loop: pop the request
    | Respond                     // callback_loop: push the result
    | Finish(fd: int)             // handle_finish_callback: pop the response

  ghost predicate Next(functions: Functions, s: State, step: Step, t: State) {
    match step
    case Reach(fd, call) =>
      && fd in s.interpreters && (s.interpreters[fd].top.NoCallback? || s.interpreters[fd].top.Answered?)
      && t == With(s, fd, s.interpreters[fd].(top := Fresh(call)))
    case Request(fd) =>
      && fd in s.interpreters && s.interpreters[fd].top.Fresh?
      && t == With(s, fd, s.interpreters[fd].(top := Posted(s.interpreters[fd].top.call),
                                              requests := s.interpreters[fd].requests + [s.interpreters[fd].top.call]))
    case MarkCalled(fd) =>
      && fd in s.interpreters && s.interpreters[fd].top.Posted?
      && t == With(s, fd, s.interpreters[fd].(top := Called(s.interpreters[fd].top.call)))
    case Pick(fd) =>
      && fd in s.interpreters && s.processing.None? && s.interpreters[fd].requests != []
      && t == With(s, fd, s.interpreters[fd].(requests := s.interpreters[fd].requests[1..]))
              .(processing := Some((fd, s.interpreters[fd].requests[0])))
    case Respond =>
      && s.processing.Some? && s.processing.value.0 in s.interpreters
      && var fd := s.processing.value.0;
         t == With(s, fd, s.interpreters[fd].(responses := s.interpreters[fd].responses
                                                           + [ResultOf(functions, s.processing.value.1)]))
              .(processing := None)
    case Finish(fd) =>
      && fd in s.interpreters && s.interpreters[fd].top.Called? && s.interpreters[fd].responses != []
      && t == With(s, fd, s.interpreters[fd].(
                      top := Answered(s.interpreters[fd].top.call, s.interpreters[fd].responses[0]),
                      responses := s.interpreters[fd].responses[1..]))
  }

  function With(s: State, fd: int, i: Interpreter): State {
    s.(interpreters := s.interpreters[fd := i])
  }

  ghost predicate Run(functions: Functions, steps: seq<Step>, run: seq<State>) {
    && |run| == |steps| + 1
    && (forall fd :: fd in run[0].interpreters ==> run[0].interpreters[fd] == Interpreter(NoCallback, [], []))
    && run[0].processing.None?
    && forall i :: 0 <= i < |steps| ==> Next(functions, run[i], steps[i], run[i + 1])
  }

  function InProcess(s: State, fd: int): nat {
    if s.processing.Some? && s.processing.value.0 == fd then 1 else 0
  }

  /** A request is out, from the moment it is queued until its answer is delivered. */
  predicate Waiting(top: Operation) {
    top.Posted? || top.Called?
  }

  /** One interpreter's requests, those being processed, and its responses. */
  ghost predicate Accounted(functions: Functions, s: State, fd: int)
    requires fd in s.interpreters
  {
    var i := s.interpreters[fd];
    && |i.requests| + InProcess(s, fd) + |i.responses| == (if Waiting(i.top) then 1 else 0)
    && (i.requests != [] ==> i.requests[0] == i.top.call)
    && (InProcess(s, fd) == 1 ==> s.processing.value.1 == i.top.call)
    && (i.responses != [] ==> i.responses[0] == ResultOf(functions, i.top.call))
    && (i.top.Answered? ==> i.top.value == ResultOf(functions, i.top.call))
  }

  ghost predicate Invariant(functions: Functions, s: State) {
    && (s.processing.Some? ==> s.processing.value.0 in s.interpreters)
    && forall fd :: fd in s.interpreters ==> Accounted(functions, s, fd)
  }

  lemma StepKeeps(functions: Functions, s: State, step: Step, t: State)
    requires Invariant(functions, s) && Next(functions, s, step, t)
    ensures Invariant(functions, t)
  {
    forall fd | fd in t.interpreters ensures Accounted(functions, t, fd) {
      assert Accounted(functions, s, fd);
      if step.Pick? {
        assert Accounted(functions, s, step.fd);
      } else if step.Respond? {
        assert Accounted(functions, s, s.processing.value.0);
      }
    }
  }

  lemma {:induction false} RunKeeps(functions: Functions, steps: seq<Step>, run: seq<State>)
    requires Run(functions, steps, run)
    ensures Invariant(functions, run[|run| - 1])
    decreases |steps|
  {
    if steps == [] {
      forall fd | fd in run[0].interpreters ensures Accounted(functions, run[0], fd) {}
    } else {
      var n := |steps| - 1;
      RunKeeps(functions, steps[..n], run[..n + 1]);
      assert Next(functions, run[n], steps[n], run[n + 1]);
      StepKeeps(functions, run[n], steps[n], run[n + 1]);
    }
  }

  /**
   Exactly once: in every interleaving, an interpreter whose callback is called
   and unanswered has one request queued, in process or answered, and otherwise
   none; an answered callback received the result for its own key and arguments.
   */
  lemma ExactlyOnce(functions: Functions, steps: seq<Step>, run: seq<State>, fd: int)
    requires Run(functions, steps, run) && fd in run[|run| - 1].interpreters
    ensures var s := run[|run| - 1];
            var i := s.interpreters[fd];
            && |i.requests| + InProcess(s, fd) + |i.responses| == (if Waiting(i.top) then 1 else 0)
            && (i.top.Answered? ==>
                  var call := i.top.call;
                  i.top.value == if call.key in functions then functions[call.key](call.arguments)
                    else Error(TypeError))
  {
    RunKeeps(functions, steps, run);
    assert Accounted(functions, run[|run| - 1], fd);
  }

  // ----- every request can be answered -----

  /** A run of these steps. */
  ghost predicate Leads(functions: Functions, steps: seq<Step>, run: seq<State>) {
    |run| == |steps| + 1 && forall i :: 0 <= i < |steps| ==> Next(functions, run[i], steps[i], run[i + 1])
  }

  /** How far the answer of this interpreter's callback is. */
  function Distance(s: State, fd: int): nat
    requires fd in s.interpreters
  {
    var i := s.interpreters[fd];
    match i.top
    case Fresh(_) => 7
    case Posted(_) => 6
    case Called(_) =>
      if i.responses != [] then 1 else if s.processing.None? then 3 else if s.processing.value.0 == fd then 2 else 4
    case _ => 0
  }

  /** A step towards it, by the interpreter thread or the callback thread. */
  lemma StepOnward(functions: Functions, s: State, fd: int) returns (step: Step, t: State)
    requires Invariant(functions, s) && fd in s.interpreters && Distance(s, fd) > 0
    ensures Next(functions, s, step, t) && !step.Reach?
    ensures fd in t.interpreters && Distance(t, fd) < Distance(s, fd)
    ensures t.interpreters[fd].top.call == s.interpreters[fd].top.call
    ensures Distance(t, fd) == 0 ==> t.interpreters[fd].top.Answered?
  {
    assert Accounted(functions, s, fd);
    var i := s.interpreters[fd];
    if i.top.Fresh? {
      step, t := Step.Request(fd), With(s, fd, i.(top := Posted(i.top.call), requests := i.requests + [i.top.call]));
    } else if i.top.Posted? {
      step, t := MarkCalled(fd), With(s, fd, i.(top := Called(i.top.call)));
    } else if i.responses != [] {
      step, t := Finish(fd),
        With(s, fd, i.(top := Answered(i.top.call, i.responses[0]), responses := i.responses[1..]));
    } else if s.processing.None? {
      step := Pick(fd);
      t := With(s, fd, i.(requests := i.requests[1..])).(processing := Some((fd, i.requests[0])));
    } else {
      var other := s.processing.value.0;
      var j := s.interpreters[other];
      step := Respond;
      t := With(s, other, j.(responses := j.responses + [ResultOf(functions, s.processing.value.1)]))
        .(processing := None);
    }
  }

  /**
   In every reachable state a callback that is due, queued or out can still be
   answered, by steps of the two threads alone.
   */
  lemma {:induction false} CanBeAnswered(functions: Functions, s: State, fd: int)
    returns (steps: seq<Step>, run: seq<State>)
    requires Invariant(functions, s) && fd in s.interpreters && Distance(s, fd) > 0
    ensures Leads(functions, steps, run) && run[0] == s && forall i :: 0 <= i < |steps| ==> !steps[i].Reach?
    ensures var end := run[|run| - 1];
            && fd in end.interpreters && end.interpreters[fd].top.Answered?
            && end.interpreters[fd].top.call == s.interpreters[fd].top.call
    decreases Distance(s, fd)
  {
    var step, t := StepOnward(functions, s, fd);
    StepKeeps(functions, s, step, t);
    steps, run := [step], [s, t];
    if Distance(t, fd) > 0 {
      var more, later := CanBeAnswered(functions, t, fd);
      steps, run := [step] + more, [s] + later;
    }
  }

  /** So no interleaving leaves a callback waiting for good. */
  lemma CallbackCanBeAnswered(functions: Functions, steps: seq<Step>, run: seq<State>, fd: int)
    returns (more: seq<Step>, later: seq<State>)
    requires Run(functions, steps, run) && fd in run[|run| - 1].interpreters
    requires Distance(run[|run| - 1], fd) > 0
    ensures Leads(functions, more, later) && later[0] == run[|run| - 1]
    ensures forall i :: 0 <= i < |more| ==> !more[i].Reach?
    ensures var end := later[|later| - 1];
            fd in end.interpreters && end.interpreters[fd].top.Answered?
  {
    RunKeeps(functions, steps, run);
    more, later := CanBeAnswered(functions, run[|run| - 1], fd);
  }
}
