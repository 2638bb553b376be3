/** The control-flow operations on the context they update across resumptions. */
module ControlFlowObjects {
  import opened Options
  import opened Octets
  import opened Values
  import opened Contexts
  import opened StateMachine
  import opened Machine

  /** An operation and its `ControlFlowOperationContext`. */
  class ControlFlowOperation {
    const op: Operation
    var callable: Option<Callable>
    var value: Option<Value>
    var arglist: Option<seq<Value>>
    var accumulator: seq<Value>
    var callableInvoked: bool
    var info: Option<ProcessingInfo>

    constructor (op: Operation, context: Context)
      requires context.ControlFlowContext?
      ensures this.op == op && View() == context
    {
      this.op := op;
      callable, value, arglist := context.callable, context.value, context.arglist;
      accumulator, callableInvoked, info := context.accumulator, context.callableInvoked, context.info;
    }

    function View(): (c: Context)
      reads this
      ensures c.ControlFlowContext?
    {
      ControlFlowContext(callable, value, arglist, accumulator, callableInvoked, info)
    }

    /** The result of a call and the context it leaves are the chosen ones; nothing when it never comes back. */
    ghost predicate Chosen(choice: Choice, r: Option<OperationResult>)
      reads this
    {
      match choice
      case Return(v) => r == Some(Returned(v))
      case Invoke(context) => r == Some(Suspended(WaitingForCallableInvocation)) && View() == context
      case Never => r.None?
    }

    /** Agreement of a call, and the context it leaves, with one execution of the machine. */
    ghost predicate Executed(before: Context, args: seq<Value>, r: Option<OperationResult>)
      requires ControlFlow(op) && |args| >= Arity(op) && before.ControlFlowContext?
      reads this
    {
      match ExecuteControlFlow(op, before, args, [])
      case Done(v, _) => r == Some(Returned(v))
      case Blocked(reason, context) => r == Some(Suspended(reason)) && View() == context
      case Stuck(_) => r.None?
    }

    /** `operator()`; nothing when the call never comes back. */
    method Call(args: seq<Value>) returns (r: Option<OperationResult>)
      requires ControlFlow(op) && |args| >= Arity(op)
      modifies this
      ensures Executed(old(View()), args, r)
    {
      if callable.None? {
        r := Begin(args);
      } else if !callableInvoked {
        r := Some(Suspended(WaitingForCallableInvocation));
      } else if value.None? {
        r := Some(Suspended(WaitingForCallableResult));
      } else {
        r := Continue();
      }
    }

    /** The first call dispatches on the arguments. */
    method Begin(args: seq<Value>) returns (r: Option<OperationResult>)
      requires ControlFlow(op) && |args| >= Arity(op)
      modifies this
      ensures Chosen(Start(op, old(View()), args), r)
    {
      if op.StateMachineOperation? {
        r := Open();
        return;
      }
      match Select(op, args) {
        case Yields(v) =>
          r := Some(Returned(v));
        case Never =>
          r := None;
        case Calls(c, list) =>
          callable := Some(c);
          arglist := list;
          accumulator := [];
          r := Some(Suspended(WaitingForCallableInvocation));
      }
    }

    /** A later call, with the value the callable returned. */
    method Continue() returns (r: Option<OperationResult>)
      requires ControlFlow(op) && callable.Some? && callableInvoked && value.Some?
      modifies this
      ensures Chosen(Resume(op, old(View()), old(value).value), r)
    {
      if op.FunctionCallForEach? {
        r := NextElement();
      } else if op.GenerateList? {
        r := NextGenerated();
      } else if !op.StateMachineOperation? {
        r := Some(Returned(value.value));
      } else if info.None? {
        r := None;
      } else if info.value.mode.InState? {
        r := ProcessStateReturn();
      } else if info.value.transition.None? {
        r := Some(Returned(Error(NameError)));
      } else {
        r := ProcessTransitionReturn();
      }
    }

    /** `FunctionCallForEach`: keep the result and go on with the next element, or finish. */
    method NextElement() returns (r: Option<OperationResult>)
      requires op.FunctionCallForEach? && callable.Some? && callableInvoked && value.Some?
      modifies this
      ensures Chosen(Resume(op, old(View()), old(value).value), r)
    {
      accumulator := accumulator + [value.value];
      if arglist.Some? && |accumulator| < |arglist.value| {
        value := None;
        callableInvoked := false;
        r := Some(Suspended(WaitingForCallableInvocation));
      } else {
        r := Some(Returned(DynamicList(accumulator)));
      }
    }

    /** `GenerateList`: an interrupt ends the list, an error is the result, any other value is kept. */
    method NextGenerated() returns (r: Option<OperationResult>)
      requires op.GenerateList? && callable.Some? && callableInvoked && value.Some?
      modifies this
      ensures Chosen(Resume(op, old(View()), old(value).value), r)
    {
      if value.value.InterruptGenerator? {
        return Some(Returned(DynamicList(accumulator)));
      }
      if value.value.Error? {
        return Some(Returned(value.value));
      }
      accumulator := accumulator + [value.value];
      callableInvoked := false;
      value := None;
      r := Some(Suspended(WaitingForCallableInvocation));
    }

    /** `StateMachineOperation`: the state called Open comes first. */
    method Open() returns (r: Option<OperationResult>)
      requires op.StateMachineOperation?
      modifies this
      ensures Chosen(StateMachine.Begin(op.states, old(View())), r)
    {
      if "Open" !in op.states {
        return Some(Returned(Error(NameError)));
      }
      accumulator := [Dictionary(map[])];
      info := Some(ProcessingInfo(InTransition, None, None, ("Open", op.states["Open"])));
      r := StartStateCallback();
    }

    method StartStateCallback() returns (r: Option<OperationResult>)
      requires info.Some?
      modifies this
      ensures Chosen(StartState(old(View()), old(info).value), r)
    {
      callable := Some(Callable(info.value.toState.1.tree, ["dictionary"], true));
      value := None;
      info := Some(info.value.(mode := InState));
      return Some(Suspended(WaitingForCallableInvocation));
    }

    method StartTransitionCallback() returns (r: Option<OperationResult>)
      requires info.Some? && info.value.transition.Some?
      modifies this
      ensures Chosen(StartTransition(old(View()), old(info).value, old(info).value.transition.value.1), r)
    {
      var t := info.value.transition.value.1;
      callable := Some(Callable(t.tree, t.argumentNames, true));
      value := None;
      info := Some(info.value.(mode := InTransition));
      return Some(Suspended(WaitingForCallableInvocation));
    }

    /** `_process_state_return` */
    method ProcessStateReturn() returns (r: Option<OperationResult>)
      requires op.StateMachineOperation? && info.Some? && value.Some?
      modifies this
      ensures Chosen(StateReturned(op.states, old(View()), old(info).value, old(value).value), r)
    {
      var v := value.value;
      if v.Error? {
        return Some(Returned(v));
      }
      if !v.DynamicList? || |v.values| != 2 || !v.values[0].Text? || !v.values[1].Dictionary? {
        return Some(Returned(Error(TypeError)));
      }
      if info.value.toState.0 == "Closed" {
        return Some(Returned(v.values[1]));
      }
      var here := info.value.toState;
      info := Some(info.value.(fromState := Some(here.0)));
      var message := NameOf(v.values[0].data);
      if message !in here.1.transitions {
        return Some(Returned(Error(NameError)));
      }
      var t := here.1.transitions[message];
      if t.target !in op.states {
        return Some(Returned(Error(NameError)));
      }
      accumulator := ExtractArguments(t.argumentNames, v.values[1].members);
      info := Some(info.value.(transition := Some((message, t)), toState := (t.target, op.states[t.target])));
      r := StartTransitionCallback();
    }

    /** `_process_transition_return` */
    method ProcessTransitionReturn() returns (r: Option<OperationResult>)
      requires info.Some? && value.Some?
      modifies this
      ensures Chosen(TransitionReturned(old(View()), old(info).value, old(value).value), r)
    {
      var v := value.value;
      if v.Error? {
        return Some(Returned(v));
      }
      if !v.DynamicList? || |v.values| != 1 {
        return Some(Returned(Error(TypeError)));
      }
      if v.values[0].Dictionary? {
        accumulator := [v.values[0]];
        r := StartStateCallback();
      } else if v.values[0].Error? {
        r := Some(Returned(v.values[0]));
      } else {
        r := Some(Returned(Error(TypeError)));
      }
    }

    method GetArgumentList() returns (r: Result<Option<seq<Value>>>)
      requires ControlFlow(op)
      ensures r == ArgumentList(op, View())
    {
      if op.FunctionCallForEach? {
        if arglist.None? || |accumulator| >= |arglist.value| {
          return Raise(ElementOutOfRange);
        }
        var item := arglist.value[|accumulator|];
        if op.elementIsSingleArgument {
          return Ok(Some([item]));
        }
        if !item.DynamicList? {
          return Raise(NotAList);
        }
        return Ok(Some(item.values));
      }
      if op.StateMachineOperation? {
        return Ok(Some(accumulator));
      }
      return Ok(arglist);
    }

    method SetCallableInvoked()
      modifies this`callableInvoked
      ensures View() == ControlFlowContext(callable, value, arglist, accumulator, true, info)
    {
      callableInvoked := true;
    }

    method SetCallableReturn(v: Value)
      modifies this`value
      ensures View() == ControlFlowContext(callable, Some(v), arglist, accumulator, callableInvoked, info)
    {
      value := Some(v);
    }
  }
}
