# A verified model of the network protocol DSL

The repository compiles a protocol description into operation trees, run by a
resumable stack machine, and into emitted C++ parsers and serializers. This project
models five linked parts of it in Dafny and proves what holds of them for every
input, every run or every interleaving. `dafny verify dfyconfig.toml` checks
everything.

**The interpreter.** `Values` holds values, trees, lexical pads (a store in which a
parent is older than its child) and the operations that only compute; `Contexts`
what an operation keeps between executions. `ReadOperations` are the five read
operations with the runner feeding them from the queue, and `StateMachine` is the
operation that walks a state map. `Machine` is the stack machine: frames inside
continuations inside the interpreter, with the runner's answer to a blocked
operation. `Evaluator` is the recursive, fuelled meaning of a tree, and counts the
steps. `Refinement` and `Adequacy` show that the machine computes exactly that
meaning, in exactly those steps. `Shape` and `Scope` hold the stack invariant,
scope framing, what well-formed trees never run into, and the laws of the loop
operators. `Terms` compares what operations compute with mathematics, and
`Factorial` does so for a recursive program on the machine. `InterpreterObjects`
and `ControlFlowObjects` are the interpreter and its control-flow operations as
objects updated in place, each method proved against the functions.

**Generated programs.** `DataTypes` are the declared types, and `Generation`
compiles actions, state callbacks and whole programs into trees. `GenerationShape`
and `Programs` show that every program the generators return keeps the
interpreter's shape, and what becomes of a write loop whose list is missing or
empty. `Sending` is what a generated writer puts on the wire, and `Writers` when
the emitted send loop sends the same. `Receiving` is what a read in a tree makes of
the octets delivered; `ReadTransitions` has the round trip of messages of texts
through both generated trees. `Descriptions` says what a description puts on the
wire and that its writer sends just that. `MemberFields`, `IntegerFields`,
`ReadLoops` and `TextLoops` say what generated readers make of members, integers
and lists, where they go wrong, and exactly when.

**The wire codec.** `Escape` has both escape writers and both escape readers, each
against one specification. `Translate` compiles a description into read and write
actions and proves the two dual; `Acceptance` says which descriptions and actions
are accepted. `Integers` is the decimal text of integer fields. `Emitted` holds the
emitted serializer, send loop and parser as classes over an action list;
`RoundTrip` proves that what one sends the other gives back, and `Parsing` how a
call of the parser ends and when input may come in two parts.

**The two-party protocol.** `Analysis` builds both automata, `StateMaps` accepts or
rejects them and generates the state maps, `Lookahead` chooses a message from the
octets ahead, and `Recognition` says which octets make a state choose which.
`Deployment` shows the two generated machines dual, and `Session` derives safety
and progress over queues and ties its parties to runs of `StateMachine`. `Turns`
and `Conversations` run the generated programs themselves, from the octets of one
message to whole conversations on the stack machine, and `Greeting` follows one
protocol through all stages.

**The runner.** `Reading` gives read operations a meaning on a whole stream;
`Scripts` shows sequences of reads in a tree to have that meaning; `Runner` feeds
them from chunks that arrive at any moment and reaches it too. `Output` is the same for writes. `Signals`, `Callbacks` and `Collection` are the
notification signal, the callback handshake and the compare-and-exchange container
as interleaved atomic steps.

Where the code leaves C++'s defined behaviour or throws, the machine halts with a
cause instead: signed 32-bit overflow, an assert that fails, `at` past the end of a
list, the wrong alternative of a variant, a null argument list (the callable of
`If` or `GenerateList` declares argument names), a call or a loop that never comes
back, a read that everything delivered leaves waiting. The evaluator fails for the
same causes.

Findings along the way, all of them kept in the model:

- The comments of the escape reader call the sequence longer than the terminator
  and starting with it; the code does not check it. The round trip is proved under
  that condition, with exactly when it fails (`Escape.EscapeRoundTrip`); a witness
  shows a value lost where it does not hold (`Escape.PrefixNeeded`).
- `FunctionCallForEach` with a callable and an argument that is not a list calls
  itself without end: the fallback overload (`operation/functioncallforeach.cpp`,
  line 31) is declared after the lambda that would have to find it. For a generated
  loop that is so exactly when its collection is not a list, and an empty list
  reads past its end (`Programs.WriteLoopFate`); a list the application leaves out
  comes to the first (`Programs.LeftOutListNeverReturns`).
- A generated list reader never gives back a non-empty list that was sent: it keeps an
  element exactly when the terminator is known not to be next
  (`ReadLoops.ElementFate`), so it gives all but the last element, or fewer if a later
  element begins with the terminator (`ReadLoops.LoopDropsLast`,
  `TextLoops.ListNeverReturns`, and for two lines `TextLoops.SecondLineDropped`).
- A generated reader of a member stores what the names but the last lead to, with
  that member set (`MemberFields.MemberStored`). On a variable that has the path this
  is the update in place exactly when the path is one name
  (`MemberFields.TextMemberInPlace`); with more names the innermost tuple takes the
  place of the variable's value. Where the path is not there an error is stored
  (`MemberFields.StoresValue`), as for a loop's fresh variable
  (`MemberFields.FreshTuple`) and an argument left out (`MemberFields.LeftOutArgument`).
- A generated integer reader takes no arguments, so the child that would take the
  field's octets never runs. It never both gives the integer and takes what was sent
  for it; it gives the integer exactly when that is not negative, has at most 31 bits
  and no digit nine, and the terminator does not begin with a digit below nine
  (`IntegerFields.IntegerFieldRead`; `IntegerFields.NineteenIsOne`).
- The runner looks at the end of file only when its queue is empty, so when a
  connection is closed in the middle of a message the reader waits for good
  (`Receiving.ReadIsDecided`).
- A protocol with messages of a third agent passes both analyses and both
  generators, and its two programs wait for each other
  (`Session.StrangersAreDeployed`).
- The two translators disagree on an empty token sequence before a terminator
  block: the reader accepts it, the writer does not
  (`Translate.ReaderAcceptsSilentSequence`).
- The interpreted and the emitted writer send the same octets exactly when no literal
  holds a NUL, at which the emitted serializer's C strings end, and no non-empty chunk
  comes after an empty one, at which the emitted send loop ends
  (`Writers.WritersAgree`, `Writers.NulEndsLiteral`, `Writers.EmptyFieldEndsSending`,
  `RoundTrip.SentIsEncoding`).
- The emitted parser swallows a terminator that is cut in two by the end of its
  input; on messages without escapes it gets the same as on the whole input exactly
  when none is cut
  (`Parsing.TwoCallsIffNotCut`, `Parsing.CutTerminator`).
- A message that is exactly its literal is not recognised: the lookahead waits for
  one more octet, and at the end of file reports a mismatch (`Lookahead.ExactLiteral`).


## Model

| member | source | states |
|---|---|---|
| `Adequacy.MachineRefinesEvaluator` | src/networkprotocoldsl/continuation.cpp:151-180 | For every tree and every surrounding stack: if the left-to-right, dynamically scoped evaluator gives a value, the stack machine hands that value to the context in the same world after exactly the evaluator's steps; if the evaluator fails, the machine halts for the same cause; if it runs out of fuel, the machine is still inside after at least that many steps |
| `Adequacy.EndOfRun` | src/networkprotocoldsl/interpreter.hpp:35-74 | Wherever a whole program's run ends, the evaluator with that much fuel says the same value and world, or the same failure |
| `Adequacy.ExitsIffEvaluates` | src/networkprotocoldsl/interpreter.hpp:35-74 | A program exits with a value and a world if and only if its tree evaluates to them for some fuel |
| `Adequacy.HaltsIffFails` | src/networkprotocoldsl/executionstackframe.cpp:163-178 | A program halts for a cause if and only if its tree fails for that cause for some fuel |
| `Adequacy.FuelMonotone` | src/networkprotocoldsl/interpreter.hpp:35-74 | More fuel never changes an outcome, so the outcome of a program is one |
| `Adequacy.PlainTerminates` | src/networkprotocoldsl/continuation.cpp:165-180 | A tree without callables or blocking operations needs no fuel and takes at most one step per node |
| `Adequacy.PlainProgramEnds` | src/networkprotocoldsl/continuation.cpp:165-180 | A well-formed such program exits, or halts because an addition, subtraction or multiplication overflows, within as many steps as it has nodes |
| `Adequacy.PlainHalts` | src/networkprotocoldsl/continuation.cpp:165-180 | A tree without calls that fails stops the machine within one step per node, from any surrounding stack |
| `Terms.TreeMeans` | src/networkprotocoldsl/operation/if.cpp:10-18 | The tree of every integer term over literals, variables, addition, subtraction, multiplication and choices by = or <= evaluates to what the term means in mathematics, and the run ends in an overflow if and only if a number on the way does not fit in 32 bits |
| `Terms.IfChooses` | src/networkprotocoldsl/operation/if.cpp:10-18 | `If` calls its first callable when the condition is true and its second when it is false, and nothing else |
| `Terms.MisfitDecides` | src/networkprotocoldsl/operation/if.cpp:20-58 | Arithmetic, rendering, writing and `If`: the first argument of the wrong kind decides, an error or instruction being passed on and anything else a type error |
| `Terms.WrongCallee` | src/networkprotocoldsl/operation/functioncall.cpp:11-29 | A callee that is none is a type error, and so is an argument list that is none, unless it is an error itself |
| `Terms.WriteFate` | src/networkprotocoldsl/operation/writeoctets.cpp:9-26 | A write gives zero and sends its octets; after the end of the connection it is a mismatch and sends nothing |
| `Factorial.MachineComputesFactorial` | tests/009-recursive-factorial.cpp:28-55 | The program of the recursive factorial, run by the stack machine: it exits with n! for every n up to 12 (with n itself below 1), and for every larger 32-bit n it stops at the overflow |
| `Refinement.EvalRuns` | src/networkprotocoldsl/continuation.cpp:165-180 | The simulation itself, for any step function that agrees with the machine's |
| `Refinement.CallRuns` | src/networkprotocoldsl/interpreter.hpp:41-70 | A call from evaluation to return: argument binding, the new pad, the stacked continuation, the value handed back |
| `Refinement.ForEachRuns` | src/networkprotocoldsl/operation/functioncallforeach.cpp:36-91 | The resumable map runs as the evaluator's recursion over the list |
| `Refinement.GenerateRuns` | src/networkprotocoldsl/operation/generatelist.cpp:24-58 | The resumable generator runs as the evaluator's recursion |
| `Refinement.StatesRun` | src/networkprotocoldsl/operation/statemachineoperation.cpp:228-262 | The state machine operation runs as the evaluator's sequence of callback calls, each with its arguments in a pad of its own |
| `Refinement.ReadRuns` | src/networkprotocoldsl/interpreterrunner.cpp:29-98 | A read returns at once, or blocks once and returns what the delivered input settles, or stops the run when all of it settles nothing |
| `Shape.StepKeepsShape` | src/networkprotocoldsl/executionstackframe.cpp:163-178 | One step keeps the stack shape: each lower frame waits on the child at the size of its accumulator, which is the frame above it, on the same pad |
| `Shape.ReachableShaped` | src/networkprotocoldsl/executionstackframe.cpp:163-178 | Every reachable state has that shape |
| `Shape.ProgramKeepsShape` | src/networkprotocoldsl/executionstackframe.cpp:174-178 | From any tree that gives every fixed-arity node its children: every state reached has the shape, and no run stops for a missing child, argument or frame |
| `Scope.EvalSound` | src/networkprotocoldsl/executionstackframe.cpp:50-74 | A tree that gives every fixed-arity node its children never fails for a missing child, argument, frame or callable, whatever the callbacks answer |
| `Scope.EvalFrames` | src/networkprotocoldsl/lexicalpad.cpp:5-43 | Evaluating at a pad leaves the names of every other older pad but the root as they were; parents never change |
| `Scope.CallFrames` | src/networkprotocoldsl/interpreter.hpp:41-58 | A whole call leaves the name set of every older pad but the root unchanged |
| `Scope.SetThenGet` | src/networkprotocoldsl/lexicalpad.cpp:5-31 | `set` returns what `get` saw, acts on the nearest binding, and is seen through exactly the chains whose nearest binding is that one |
| `Scope.InitializeThenGet` | src/networkprotocoldsl/lexicalpad.cpp:28-35 | Initializing binds in the pad itself unless the name is bound there, whatever the pads above say |
| `Scope.InitializeGlobalThenGet` | src/networkprotocoldsl/lexicalpad.cpp:37-43 | A global binding is seen from every pad in which the name was unbound, and from no other |
| `Scope.ForEachIsMap` | src/networkprotocoldsl/operation/functioncallforeach.cpp:36-91 | On a non-empty list the result is a list exactly when one call per element, in order, each in the world the one before left, gives its elements |
| `Scope.GenerateTakesUntil` | src/networkprotocoldsl/operation/generatelist.cpp:24-58 | The calls behind a generated list: the values before the first interrupt, or the error that came before it |
| `Scope.GenerateIsUntil` | src/networkprotocoldsl/operation/generatelist.cpp:24-58 | The operation has a value and a world if and only if calls made one after the other come to a first interrupt or error in that world; the list is the values before an interrupt, an error is the result |
| `InterpreterObjects.Interpreter.Step` | src/networkprotocoldsl/interpreter.hpp:35-74 | The object's step, with the runner's answer to a block, is the machine's step on its view |
| `InterpreterObjects.Interpreter.Enter` | src/networkprotocoldsl/interpreter.hpp:38-58 | A blocked invocation leaves the machine's state after `Call`: pad, binding, stacked continuation |
| `InterpreterObjects.Interpreter.Leave` | src/networkprotocoldsl/interpreter.hpp:62-70 | A returned continuation is popped and its value handed to the one below |
| `InterpreterObjects.Interpreter.Answer` | src/networkprotocoldsl/interpreterrunner.cpp:100-135 | Requests, answers, reads and writes change the world and the waiting context and nothing else; a read that all input leaves waiting ends the run |
| `InterpreterObjects.Interpreter.ReadChunks` | src/networkprotocoldsl/interpreterrunner.cpp:29-98 | The joining loop over the queued chunks, what it gives the operation and what it leaves in the queue |
| `InterpreterObjects.ContinuationObject.Step` | src/networkprotocoldsl/continuation.cpp:165-180 | Frames, result, pads and the reported state after one step |
| `InterpreterObjects.ContinuationObject.ExecuteTop` | src/networkprotocoldsl/executionstackframe.cpp:163-171 | Executing the top frame, control-flow operations as objects on their own context, is the machine's execution |
| `InterpreterObjects.ContinuationObject.PrepareStack` | src/networkprotocoldsl/continuation.cpp:151-161 | The frames of the missing children are pushed, down to one that is ready, or the assert fails |
| `InterpreterObjects.ContinuationObject.SetCallableReturn` | src/networkprotocoldsl/continuation.cpp:238-242 | The value reaches the waiting operation and the stack is prepared again |
| `InterpreterObjects.LexicalPads.Get` | src/networkprotocoldsl/lexicalpad.cpp:5-16 | The nearest binding on the parent chain, or a name error |
| `InterpreterObjects.LexicalPads.Set` | src/networkprotocoldsl/lexicalpad.cpp:18-31 | The nearest binding is replaced and its old value returned |
| `InterpreterObjects.LexicalPads.Initialize` | src/networkprotocoldsl/lexicalpad.cpp:33-35 | An existing binding stays |
| `InterpreterObjects.LexicalPads.InitializeGlobal` | src/networkprotocoldsl/lexicalpad.cpp:37-43 | The root pad is the one initialised |
| `InterpreterObjects.LexicalPads.Push` | src/networkprotocoldsl/interpreter.hpp:44-56 | A new pad with the arguments bound in order, names beyond them unbound |
| `ControlFlowObjects.ControlFlowOperation.Call` | src/networkprotocoldsl/operation/if.cpp:70-89 | The operation and the context it leaves agree with one execution of the machine, over all five operations and every resumption |
| `ControlFlowObjects.ControlFlowOperation.Begin` | src/networkprotocoldsl/operation/functioncall.cpp:11-28 | The first call: callable, argument list and accumulator set, or the value returned instead |
| `ControlFlowObjects.ControlFlowOperation.Continue` | src/networkprotocoldsl/operation/statemachineoperation.cpp:228-262 | A later call goes where the operation and its mode say |
| `ControlFlowObjects.ControlFlowOperation.NextElement` | src/networkprotocoldsl/operation/functioncallforeach.cpp:42-48 | One result kept; the next element asked for, or the list returned |
| `ControlFlowObjects.ControlFlowOperation.NextGenerated` | src/networkprotocoldsl/operation/generatelist.cpp:28-46 | An interrupt ends the list, an error is the result, another value is kept and the callable asked again |
| `ControlFlowObjects.ControlFlowOperation.GetArgumentList` | src/networkprotocoldsl/operation/functioncallforeach.cpp:79-91 | The arguments of the current element, and the cases in which there are none |
| `ControlFlowObjects.ControlFlowOperation.Open` | src/networkprotocoldsl/operation/statemachineoperation.cpp:250-261 | The state called Open comes first, with an empty dictionary; a name error without it |
| `ControlFlowObjects.ControlFlowOperation.ProcessStateReturn` | src/networkprotocoldsl/operation/statemachineoperation.cpp:83-161 | What a state callback's value leads to: the result, an error, or the transition's callback with its arguments |
| `ControlFlowObjects.ControlFlowOperation.ProcessTransitionReturn` | src/networkprotocoldsl/operation/statemachineoperation.cpp:163-226 | What a transition callback's value leads to |
| `GenerationShape.TransitionTreeWellFormed` | src/networkprotocoldsl/generate.cpp:330-346 | Every tree generated for a transition, read or written, loops and member accesses included, gives each fixed-arity node its children |
| `GenerationShape.CallbackWellFormed` | src/networkprotocoldsl/generate.cpp:462-512 | So do both kinds of state callback |
| `Programs.ProgramWellFormed` | src/networkprotocoldsl/generate.cpp:521-553 | So does every program the generators return, with the trees of all its states and transitions |
| `Programs.DeployedKeepsShape` | src/networkprotocoldsl/executionstackframe.cpp:163-178 | Both programs of a deployed protocol, in any world and whatever their callbacks answer, reach shaped states only, and no assert of the interpreter fails |
| `Programs.WriteLoopFate` | src/networkprotocoldsl/operation/functioncallforeach.cpp:13-34 | The loop of a generated writer fails for every fuel as a call that never comes back if and only if its collection is not a list, and for every fuel past the end of the list if and only if the list is empty |
| `Programs.LeftOutListNeverReturns` | src/networkprotocoldsl/operation/statemachineoperation.cpp:42-56 | A list the application leaves out of its data becomes false among the arguments, and a message that begins with a loop over it never comes back |
| `Sending.TransitionTreeSends` | src/networkprotocoldsl/generate.cpp:195-252 | Run in a pad that shows the data, the tree of a message sends exactly the message's octets: literals, fields, members of tuples, and for a loop the encodings of its elements and then the terminator; it changes no old pad and returns the pad's names as a dictionary |
| `Descriptions.WriterSaysDescription` | src/networkprotocoldsl/sema/partstowriteactions.cpp:89-135 | What the write actions of a description send for some data is what the description says: literals, fields with the escape of their sequence, terminators, and loops, element by element |
| `Descriptions.TreeSaysDescription` | src/networkprotocoldsl/generate.cpp:195-252 | So a generated writer sends exactly what the description says |
| `Descriptions.EscapedFieldActions` | src/networkprotocoldsl/sema/partstoreadactions.cpp:100-137 | A field with terminator and escape: the one read action and the two write actions, with that escape |
| `Writers.WritersAgree` | src/networkprotocoldsl/codegen/generate_state_machine.cpp:396-403 | On messages without loops and members the interpreted writer and the emitted send loop send the same octets if and only if no literal holds a NUL and no non-empty chunk comes after an empty one |
| `Writers.EmptyFieldEndsSending` | src/networkprotocoldsl/codegen/generate_state_machine.cpp:396-403 | An empty text and then CR LF: the tree sends CR LF, the send loop nothing |
| `Writers.NulEndsLiteral` | src/networkprotocoldsl/codegen/generate_serializer.cpp:173-207 | A literal NUL, LF: the tree sends both octets, the send loop nothing |
| `Writers.EncodingAgrees` | src/networkprotocoldsl/codegen/generate_serializer.cpp:173-207 | All the chunks of the serializer together are what the tree sends if and only if no literal holds a NUL, and never more |
| `Receiving.ReadIsDecided` | src/networkprotocoldsl/interpreterrunner.cpp:29-98 | A read's value and what it takes depend on the chunks only through their concatenation; octets that decide nothing are waited on for good even at the end of file, which is seen only behind an empty queue |
| `Receiving.LiteralRead` | src/networkprotocoldsl/operation/readstaticoctets.cpp:9-33 | A literal, once as many octets are there, is taken; the value is true if they agree with it, all of them or up to a NUL, and else a mismatch |
| `Receiving.EndOfFileRead` | src/networkprotocoldsl/operation/readstaticoctets.cpp:11-16 | At the end of file an undecided read is a mismatch, and a lookahead chooses as its rules say |
| `Receiving.EscapedTextRead` | src/networkprotocoldsl/operation/readoctetsuntilterminator.cpp:30-72 | An escaped text delivered in one chunk is read back, and exactly its encoding and terminator taken, if and only if what follows does not turn the terminator into an escape sequence |
| `ReadTransitions.ScriptReadsBack` | src/networkprotocoldsl/generate.cpp:136-193 | The read operations of a message of texts without escapes mean, on the octets sent for it and anything after them, its values, and take exactly what was sent |
| `ReadTransitions.TransitionTreeReads` | src/networkprotocoldsl/generate.cpp:155-193 | The generated reader of a message of literals, texts and text members of tuples takes exactly the message and returns the pad's names with every field holding its text: without escapes however the octets were cut into chunks, with escapes from one chunk |
| `ReadTransitions.FilledIs` | src/networkprotocoldsl/generate.cpp:155-193 | Those are the texts of exactly the names and members read; every other name, and every other member of a tuple, is as before |
| `ReadTransitions.InterpretedRoundTrip` | src/networkprotocoldsl/sema/analyze.cpp:15-31 | From one description: what the writer's tree sends, the reader's tree turns back into the texts, whatever follows, escapes and members included |
| `Receiving.FieldDecides` | src/networkprotocoldsl/operation/readoctetsuntilterminator.cpp:74-82 | A text is read back, and exactly it and its terminator taken, if and only if the terminator does not start earlier in the two together |
| `ReadLoops.ElementFate` | src/networkprotocoldsl/generate.cpp:295-305 | An element that was read is dropped, and the list ends before it, exactly when the terminator is next; it is kept and the loop goes on exactly when the terminator is known not to be next; else the run waits for good, or has seen the end of file and the list becomes an error |
| `ReadLoops.LoopStops` | src/networkprotocoldsl/generate.cpp:277-306 | On elements its body reads, the generated loop stores the elements before the one that precedes the first place where the terminator is next, and takes all up to and with that terminator |
| `ReadLoops.LoopDropsLast` | src/networkprotocoldsl/generate.cpp:277-306 | The generated loop never stores all elements sent; it stores all but the last and leaves what follows the list if and only if the terminator is not next before a later element |
| `TextLoops.TextLoopDropsLast` | src/networkprotocoldsl/generate.cpp:277-306 | The same of every loop over tuples of texts, its elements' octets being those the writer sends for them |
| `TextLoops.ListNeverReturns` | src/networkprotocoldsl/sema/analyze.cpp:15-31 | From one description of a list: what the writer's tree sends for it, the reader's tree never turns back into it, but into the list without its last element if and only if no later element begins with the loop's terminator |
| `TextLoops.SecondLineDropped` | src/networkprotocoldsl/generate.cpp:295-305 | The lines a and b, each ended by LF and the list by LF, are read as the list of a alone |
| `MemberFields.MemberStored` | src/networkprotocoldsl/generate.cpp:173-185 | For every member path and whatever the variable held: the reader leaves in it what setting the last name in the value that the other names lead to gives |
| `MemberFields.TextMemberInPlace` | src/networkprotocoldsl/generate.cpp:173-185 | On a variable that has the path, reading a text member updates the variable in place if and only if the path is a single name |
| `MemberFields.InPlaceIffSingle` | src/networkprotocoldsl/operation/dictionaryset.hpp:11-28 | What is stored is the value updated in place if and only if the path is a single name |
| `MemberFields.StoresValue` | src/networkprotocoldsl/operation/dictionaryset.hpp:11-28 | A dictionary is stored if and only if the names lead through dictionaries; otherwise an error is |
| `MemberFields.ReadErrorStored` | src/networkprotocoldsl/operation/dictionaryset.hpp:21-25 | A read that gave an error leaves that error in the variable, in place of the tuple |
| `MemberFields.FreshTuple` | src/networkprotocoldsl/generate.cpp:255-275 | On the empty tuple a loop variable starts with, a path of two names stores a name error and a longer one a type error |
| `MemberFields.LeftOutArgument` | src/networkprotocoldsl/operation/statemachineoperation.cpp:42-56 | On the false of an argument left out, every path stores a type error |
| `IntegerFields.IntegerFieldRead` | src/networkprotocoldsl/operation/readintfromascii.hpp:21-25 | For every integer, terminator and rest: the generated reader stores the integer if and only if it is not negative, has at most 31 bits and no digit nine, and the terminator does not start with another of the digits 0 to 8; then the terminator is still unread, so what was sent is never just taken |
| `IntegerFields.IntegerDecides` | src/networkprotocoldsl/operation/readintfromascii.cpp:14-53 | The condition on the operation itself |
| `IntegerFields.NineteenIsOne` | src/networkprotocoldsl/operation/readintfromascii.cpp:40-53 | The integer 19 sent with CR LF is read as 1, and the nine and CR LF are left |
| `Escape.ApplyEscapeReplacement` | src/networkprotocoldsl/operation/writeoctetswithescape.cpp:11-34 | The find-based writer computes the leftmost, non-overlapping replacement |
| `Escape.EmittedEscape` | src/networkprotocoldsl/codegen/generate_serializer.cpp:54-64 | The byte loop computes the same replacement for every input and every non-empty character |
| `Escape.ReadOctetsUntilTerminator.HandleReadEscaped` | src/networkprotocoldsl/operation/readoctetsuntilterminator.cpp:22-72 | From any context: finds a terminator exactly when the scan does, appends the scanned text and consumes what the scan takes; otherwise consumes nothing and is not ready. In all cases what the buffer holds afterwards |
| `Escape.ReadOctetsUntilTerminator.HandleReadPlain` | src/networkprotocoldsl/operation/readoctetsuntilterminator.cpp:74-82 | The text before the first terminator, or nothing consumed and nothing changed |
| `Escape.EmittedUntilTerminator` | src/networkprotocoldsl/codegen/generate_parser.cpp:199-255 | The emitted reader finds a terminator in the same cases as the interpreted one, with the same text and count; otherwise what it keeps and that it swallows the input |
| `Escape.EscapeRoundTrip` | src/networkprotocoldsl/operation/readoctetsuntilterminator.cpp:30-72 | When the character is one octet at the same single place in terminator and sequence and the terminator is a proper prefix of the sequence, reading escape(v), t, rest gives back exactly v and takes exactly its encoding if and only if the sequence is not a prefix of t and rest |
| `Escape.PrefixNeeded` | src/networkprotocoldsl/operation/readoctetsuntilterminator.cpp:22-29 | A witness that the condition on the sequence is not idle: with LF for LF SP, ended by CR LF, the value CR LF reads back as nothing |
| `Escape.LineFolding` | src/networkprotocoldsl/operation/readoctetsuntilterminator.cpp:24-29 | The instance of HTTP line folding (RFC 9112, section 5.2): it holds if and only if what follows does not start with a space |
| `Translate.ApplyEscapeToActions` | src/networkprotocoldsl/sema/partstoreadactions.cpp:100-116 | In place, every action on an identifier gets the escape and keeps its other fields, and no other action changes |
| `Acceptance.ReaderAccepts` | src/networkprotocoldsl/sema/partstoreadactions.cpp:139-190 | The reader accepts a description if and only if every identifier has a literal or its terminator right behind it, every sequence but the last and every loop has a terminator block, and no terminator block stands alone |
| `Acceptance.WriterAccepts` | src/networkprotocoldsl/sema/partstowriteactions.cpp:107-160 | The writer accepts it if and only if no sequence is empty and every loop has a terminator block |
| `Acceptance.TransitionCompiles` | src/networkprotocoldsl/generate.cpp:312-345 | A transition has a tree if and only if each action has one: fields declared as integers or strings, loops over declared arrays, of tuples for readers |
| `Translate.ReadWriteDual` | src/networkprotocoldsl/sema/partstoreadactions.cpp:139-206 | For every description both translators accept, nested loops included, expanding each read-until to the field and its literal gives exactly the write actions |
| `Translate.TokensDual` | src/networkprotocoldsl/sema/partstowriteactions.cpp:16-48 | The same for one token sequence and its escape |
| `Translate.WriterAcceptsWhatReaderDoes` | src/networkprotocoldsl/sema/partstowriteactions.cpp:107-156 | A description the reader accepts is accepted by the writer if and only if no token sequence, at any depth, is empty without a terminator of its own |
| `Translate.ReaderAcceptsSilentSequence` | src/networkprotocoldsl/sema/partstoreadactions.cpp:139-152 | One description on which the two translators differ |
| `Integers.IntegerRoundTrip` | src/networkprotocoldsl/codegen/generate_parser.cpp:453-468 | Every integer the field's type holds is read back from its decimal text |
| `Integers.StrToMeans` | src/networkprotocoldsl/codegen/generate_parser.cpp:455-465 | Space, a sign or none, digits and anything else: the signed number of the digits, or nothing without digits |
| `Integers.FieldMeans` | src/networkprotocoldsl/codegen/generate_parser.cpp:452-468 | What an integer field becomes: the cast of that number, zero for an empty text, and nothing, where the conversion throws, otherwise |
| `Integers.DigitsCanonical` | src/networkprotocoldsl/operation/inttoascii.hpp:13-24 | The rendering is the only one without a leading zero |
| `Integers.Cast` | src/networkprotocoldsl/codegen/generate_parser.cpp:457-465 | The cast lands in the field's range and keeps what is in it |
| `Integers.CastWraps` | src/networkprotocoldsl/codegen/generate_parser.cpp:457-465 | The cast adds or takes whole multiples of the type's modulus |
| `Emitted.MessageSerializer.SetData` | src/networkprotocoldsl/codegen/generate_serializer.cpp:106-127 | Data stored, stage and completion reset |
| `Emitted.MessageSerializer.NextChunk` | src/networkprotocoldsl/codegen/generate_serializer.cpp:153-284 | The current stage's chunk; nothing once complete or past the last stage, which completes it |
| `Emitted.MessageSerializer.Advance` | src/networkprotocoldsl/codegen/generate_serializer.cpp:287-330 | One stage on, complete after the last, nothing once complete |
| `Emitted.Sender.Send` | src/networkprotocoldsl/codegen/generate_state_machine.cpp:393-406 | The output buffer grows by the chunks up to the first empty one, and the state is the message's target |
| `Emitted.Sender.BytesWritten` | src/networkprotocoldsl/codegen/generate_state_machine.cpp:339-348 | Exactly the octets written leave the front of the buffer |
| `Emitted.MessageParser.Parse` | src/networkprotocoldsl/codegen/generate_parser.cpp:125-256 | Status, octets consumed, stage and field buffers after one call from any state |
| `Emitted.MessageParser.Stage` | src/networkprotocoldsl/codegen/generate_parser.cpp:144-256 | One case of the switch: where it returns, what it consumes and buffers |
| `Emitted.MessageParser.Search` | src/networkprotocoldsl/codegen/generate_parser.cpp:222-232 | The plain search loop finds the first terminator |
| `Emitted.MessageParser.Field` | src/networkprotocoldsl/codegen/generate_parser.cpp:166-256 | One field, found or not, with or without escapes |
| `Emitted.MessageParser.TakeData` | src/networkprotocoldsl/codegen/generate_parser.cpp:438-488 | The message built from the buffers, then a reset; no reset when a conversion throws |
| `RoundTrip.SentIsEncoding` | src/networkprotocoldsl/codegen/generate_state_machine.cpp:396-403 | The send loop appends the whole encoding if and only if no non-empty chunk comes after an empty one |
| `RoundTrip.MessageRoundTrip` | src/networkprotocoldsl/codegen/generate_parser.cpp:125-256 | On the encoding followed by anything, one parser run completes, consumes exactly the encoding and gives back every field read, for distinct fields with terminator-safe values |
| `RoundTrip.DescriptionRoundTrip` | src/networkprotocoldsl/sema/analyze.cpp:15-31 | The same from one description: what the writer's send loop appends, the reader's parser takes and turns back into the data |
| `RoundTrip.FieldReadsBack` | src/networkprotocoldsl/codegen/generate_parser.cpp:199-243 | A terminator-safe field is read back with exactly its own octets |
| `RoundTrip.FieldsTaken` | src/networkprotocoldsl/codegen/generate_parser.cpp:438-488 | Buffers that hold the rendered fields become the fields |
| `Parsing.ParseEnds` | src/networkprotocoldsl/codegen/generate_parser.cpp:125-256 | Every call of the emitted parser takes whole pieces, literals and fields up to their first terminators, and ends because they were all, because a literal is wrong, or because what follows is too short |
| `Parsing.TwoCallsIffNotCut` | src/networkprotocoldsl/codegen/generate_parser.cpp:225-243 | On input in two parts a second call gets what one call on all of it gets if and only if the terminator of the field at hand is not cut in two |
| `Parsing.CutTerminator` | src/networkprotocoldsl/codegen/generate_parser.cpp:232-243 | CR LF cut in two: the field swallows it and goes on to the next CR LF |
| `Lookahead.TransitionLookahead.Call` | src/networkprotocoldsl/operation/transitionlookahead.cpp:6-27 | The first condition that holds; a mismatch when none holds and none can; otherwise waiting |
| `Lookahead.TransitionLookahead.ReadyToEvaluate` | src/networkprotocoldsl/operation/transitionlookahead.cpp:123-142 | True exactly when the call gives a value, for every condition list and context |
| `Lookahead.TransitionLookahead.HandleRead` | src/networkprotocoldsl/operation/transitionlookahead.cpp:29-33 | The buffer is all there is to read and nothing is consumed |
| `Lookahead.ConditionMeans` | src/networkprotocoldsl/operation/transitionlookahead.cpp:66-108 | A condition holds if and only if nothing is left at the end of file, or the terminator occurs in the buffer, or the buffer extends the literal by an octet |
| `Lookahead.DeadMeans` | src/networkprotocoldsl/operation/transitionlookahead.cpp:66-108 | Before the end of file it is dead if and only if no further octets, nor the end of file, can make it hold |
| `Lookahead.DecidesOnce` | src/networkprotocoldsl/operation/transitionlookahead.cpp:6-27 | Every list and context have one result |
| `Lookahead.PicksExtendedLiteral` | src/networkprotocoldsl/operation/transitionlookahead.cpp:91-108 | With pairwise incomparable literals, a message is picked if and only if the buffer extends its literal by at least one octet |
| `Lookahead.OrderIrrelevant` | src/networkprotocoldsl/operation/transitionlookahead.cpp:6-27 | With pairwise incomparable literals the order of the conditions does not matter |
| `Lookahead.DecisionStable` | src/networkprotocoldsl/operation/transitionlookahead.cpp:91-108 | When no two conditions ever hold together, no further octets change a decision made before the end of file |
| `Lookahead.ExactLiteral` | src/networkprotocoldsl/operation/transitionlookahead.cpp:94-100 | Exactly the literal is not picked: it waits, and at the end of file it is a mismatch |
| `Analysis.AnalyzeTransitions` | src/networkprotocoldsl/sema/analyze.cpp:33-48 | Every message translated for the agent's side, or nothing if one fails |
| `Analysis.AnalyzeAgent` | src/networkprotocoldsl/sema/analyze.cpp:50-84 | The automaton whose states are the names mentioned and whose edges are the messages |
| `Analysis.Analyze` | src/networkprotocoldsl/sema/analyze.cpp:86-95 | Both automata, or neither |
| `Analysis.MirroredAutomata` | src/networkprotocoldsl/sema/analyze.cpp:50-84 | Both automata have the same states, edges and targets; an edge is written by at most one side, and by exactly one if and only if its agent is the client or the server |
| `StateMaps.GenerateReadStateCallback` | src/networkprotocoldsl/generate.cpp:437-466 | One lookahead rule per transition; nothing for no transitions or one without a condition |
| `Recognition.ConditionHolds` | src/networkprotocoldsl/generate.cpp:384-435 | A message's condition holds if and only if the message has begun: its first read, inside a loop if it begins with one, finds its literal and an octet more or its terminator, or it leads to Closed and the connection has ended |
| `Recognition.GeneratedRecognises` | src/networkprotocoldsl/generate.cpp:437-466 | A generated lookahead chooses a message that has begun if one has, is a mismatch if none has and none can, and waits otherwise |
| `Recognition.ChoosesWhatBegins` | src/networkprotocoldsl/generate.cpp:437-466 | When no two messages of a state begin alike, a message is chosen before the end of file if and only if it has begun |
| `Recognition.LiteralRecognised` | src/networkprotocoldsl/generate.cpp:392-397 | With incomparable literals, if and only if the octets extend its literal |
| `StateMaps.ConstructTransitions` | src/networkprotocoldsl/generate.cpp:475-492 | Accepted if and only if every transition compiles and none mixes reading with writing |
| `StateMaps.ConstructStateMap` | src/networkprotocoldsl/generate.cpp:468-519 | Accepted if and only if there are states and each is coherent and, outside Closed, asks or has a full set of conditions; what is generated for each |
| `Deployment.DeployedIsDual` | src/networkprotocoldsl/generate.cpp:468-519 | Two generated machines of one protocol are dual (same states, same non-empty choices and targets outside Closed, one side asking where the other reads) if and only if every message that leaves another state than Closed belongs to the client or the server |
| `Deployment.Deploy` | src/networkprotocoldsl/generate.cpp:521-553 | Both analyses, then both generators: a pair of programs exactly when all four accept |
| `Deployment.FarewellDeploys` | src/networkprotocoldsl/generate.cpp:468-519 | They do accept something: a one-message protocol, for every agent and every word |
| `Session.SafeRun` | src/networkprotocoldsl/operation/statemachineoperation.cpp:84-112 | Safety of every run of any two dual machines |
| `Session.ProgressOfRun` | src/networkprotocoldsl/operation/statemachineoperation.cpp:84-112 | Progress of every run of any two dual machines |
| `Session.SessionSafety` | src/networkprotocoldsl/sema/analyze.cpp:33-84 | In every run over FIFO queues: at most one queue holds messages, the party behind reaches the other's state and history by receiving them, and no reader finds a message its state lacks |
| `Session.SessionProgress` | src/networkprotocoldsl/operation/statemachineoperation.cpp:84-112 | Some party can step if and only if the session has not finished with both in Closed and both queues empty |
| `Session.StrangersBlock` | src/networkprotocoldsl/sema/analyze.cpp:39-41 | A shared state whose messages belong to neither party is a deadlock of the two generated machines |
| `Session.StrangersAreDeployed` | src/networkprotocoldsl/sema/analyze.cpp:39-41 | Such protocols pass every stage: one message of any third agent, deployed, deadlocked at the start |
| `Session.PartiesAreStateMachines` | src/networkprotocoldsl/operation/statemachineoperation.cpp:228-262 | In every run the states each party went through are those whose callbacks its state machine operation calls for some answers, and it is calling the callback of the state the party is in |
| `Turns.WriteTurn` | src/networkprotocoldsl/operation/statemachineoperation.cpp:84-112 | A turn of a generated writer: its application is asked with the state's name and dictionary and chooses a message and data; exactly what the message says for them is sent, and the target state gets the message's arguments |
| `Turns.ReadTurn` | src/networkprotocoldsl/generate.cpp:437-466 | A turn of a generated reader: the message ahead is recognised, exactly its octets are taken, and the target state gets its texts among the arguments |
| `Conversations.ProgramConverses` | src/networkprotocoldsl/generate.cpp:521-553 | A generated program on the stack machine: if it can take all turns of a script to Closed, it exits with the application's result, having sent what its own messages say and read what the others' say |
| `Conversations.ProgramsConverse` | src/networkprotocoldsl/generate.cpp:521-553 | The two programs of a deployed protocol: each sends exactly what the other is delivered, and both come to the same state with nothing of it left to read |
| `Greeting.ClientExits` | src/networkprotocoldsl/generate.cpp:521-553 | A protocol of two messages: its client exits, for any name, having sent the greeting with the name folded, and BYE |
| `Greeting.ServerGreeted` | src/networkprotocoldsl/generate.cpp:521-553 | Its server, on those octets, comes to the next state with the name unfolded |
| `StateMachine.ExtractArguments` | src/networkprotocoldsl/operation/statemachineoperation.cpp:42-56 | One argument per declared name, a missing one being false |
| `StateMachine.RunIsOrderly` | src/networkprotocoldsl/operation/statemachineoperation.cpp:84-112 | Whatever the callbacks return: there is a number of calls, all of them in a run still going, up to which state and transition callbacks alternated, the states visited formed a path from Open, every transition callback got the data answered with its message, and every state callback the dictionary handed on to it; a dictionary is the result if and only if the last call was to Closed and returned it |
| `StateMachine.AnswerKeepsOrder` | src/networkprotocoldsl/operation/statemachineoperation.cpp:228-262 | One more answer keeps that order; the result is a dictionary if and only if Closed's callback returned a message and that dictionary |
| `StateMachine.AnswerEnds` | src/networkprotocoldsl/operation/statemachineoperation.cpp:84-112 | How answers end a run: with their error, with a type error for anything but the expected list, with a name error exactly for a message that is not on offer or leads nowhere |
| `ReadOperations.ReadyToEvaluate` | src/networkprotocoldsl/operation/terminatelistifreadahead.cpp:67-86 | Ready exactly when the operation has a value, for the five read operations, end of file included |
| `ReadOperations.ResumedSettles` | src/networkprotocoldsl/interpreterrunner.cpp:29-98 | A read the runner unblocks has a value |
| `Reading.DecisionExtends` | src/networkprotocoldsl/operation/terminatelistifreadahead.cpp:7-38 | No further octets change what an operation makes of the stream |
| `Reading.FeedDecides` | src/networkprotocoldsl/operation/readstaticoctets.cpp:25-33 | A read either consumes exactly what the operation means to take and settles its value, or consumes nothing and leaves it looking |
| `Reading.JoiningDecides` | src/networkprotocoldsl/interpreterrunner.cpp:43-79 | The joining loop on queued chunks comes to what the operation decides on all of them, and leaves the rest |
| `Runner.InterpreterContext.HandleRead` | src/networkprotocoldsl/interpreterrunner.cpp:29-98 | With chunks arriving between any two queue operations: nothing lost or repeated, unblocked exactly when the operation has a value, and blocked unnotified only when the octets queued decide nothing |
| `Runner.InterpreterContext.JoinChunks` | src/networkprotocoldsl/interpreterrunner.cpp:43-79 | The joining loop, its push-back and its three outcomes |
| `Runner.InterpreterContext.InterpreterLoop` | src/networkprotocoldsl/interpreterrunner.cpp:167-245 | The values and the unread octets are those the script means on the whole stream, whatever the chunks and their arrival |
| `Runner.ReadInChunks` | src/networkprotocoldsl/interpreterrunner.cpp:29-98 | Chunk independence: values and unread suffix depend on the chunks only through their concatenation |
| `Scripts.SequenceIsScript` | src/networkprotocoldsl/executionstackframe.cpp:50-74 | A sequence of reads in a tree, before the end of file: its values are those the script of the reads means on the octets delivered, it takes what the script takes, and it waits for good exactly when the script is not complete |
| `Runner.InterpreterContext.Pop` | src/networkprotocoldsl/support/mutexlockqueue.hpp:30-39 | The front chunk passes from the queue to the reader, and the stream is conserved |
| `Runner.InterpreterContext.PushFront` | src/networkprotocoldsl/support/mutexlockqueue.hpp:40-43 | What is pushed back comes first again, and the stream is conserved |
| `Runner.InterpreterContext.Arrivals` | src/networkprotocoldsl/support/mutexlockqueue.hpp:22-25 | Chunks arrive at the back, in order, and notify |
| `Runner.InterpreterContext.Wait` | src/networkprotocoldsl/support/notificationsignal.hpp:42-54 | Sleeps for good only when unnotified with nothing more to come |
| `Output.InterpreterContext.InterpreterLoop` | src/networkprotocoldsl/interpreterrunner.cpp:100-114 | What was sent and what is queued are the encodings of the writes, once each and in order: all of them, or those before the first write that found the connection closed |
| `Output.InterpreterContext.HandleWrite` | src/networkprotocoldsl/interpreterrunner.cpp:106-112 | Nothing at the end of file; otherwise all that is left of a write is queued and counted as written, with the network thread at work before, between and after |
| `Output.InterpreterContext.Advance` | src/networkprotocoldsl/operation/writeoctets.cpp:63-72 | The cursor moves by the size given, at most to the end |
| `Signals.NoLostWakeUp` | src/networkprotocoldsl/support/notificationsignal.hpp:30-54 | In every interleaving, while the waiter sleeps unwoken beside an event newer than its last look, some producer has its notify still to finish |
| `Signals.QuietMeansSeen` | src/networkprotocoldsl/interpreterrunner.cpp:220-242 | Once every producer is done, a sleeping waiter has seen every event |
| `Signals.EventCanBeSeen` | src/networkprotocoldsl/support/notificationsignal.hpp:30-54 | In every reachable state, the steps the waiter and the producers have still to take can get it to look at an event it has not seen, without a further event or a spurious wake-up |
| `Signals.StepKeeps` | src/networkprotocoldsl/support/notificationsignal.hpp:30-54 | Every atomic step of producers and waiter keeps the invariant behind them |
| `Callbacks.ExactlyOnce` | src/networkprotocoldsl/interpreterrunner.cpp:116-135 | In every interleaving, requests, the one in process and responses add up to one exactly while a callback is out, and to none otherwise; an answered callback got the result for its own key and arguments |
| `Callbacks.CallbackCanBeAnswered` | src/networkprotocoldsl/interpreterrunner.cpp:116-135 | In every reachable state, a callback that is due, queued or out can be answered by steps of the two threads alone |
| `Callbacks.StepKeeps` | src/networkprotocoldsl/interpreterrunner.cpp:252-270 | Every atomic step of the interpreter and callback threads keeps that account |
| `Collection.CollectionIsFold` | src/networkprotocoldsl/support/transactionalcontainer.hpp:19-27 | In every interleaving, spurious failures included, the collection is the fold of the committed updates in commit order |
| `Collection.LastCommitDecides` | src/networkprotocoldsl/interpretercollectionmanager.cpp:21-54 | In every interleaving, what is under a descriptor is what the last committed update for it says |
| `Collection.CanCommit` | src/networkprotocoldsl/support/transactionalcontainer.hpp:19-27 | A transaction that has started commits by its own three steps when no other thread comes between and no living interpreter is in its way |
| `Collection.InsertSparesTheLiving` | src/networkprotocoldsl/interpretercollectionmanager.cpp:21-36 | A committed insert replaces nothing or an interpreter that had exited |
| `Collection.TransactionalContainer.DoTransaction` | src/networkprotocoldsl/support/transactionalcontainer.hpp:19-27 | The retry loop amid given commits of other threads: it retries exactly while its exchange is lost, throws only for a living interpreter under the descriptor, and else commits; then the inserted interpreter is under its descriptor, or none is after a removal, and every other descriptor is as the commits before left it; in every case what is under a descriptor is what the last commit for it says |
| `Collection.StepKeeps` | src/networkprotocoldsl/support/transactionalcontainer.hpp:19-27 | Every atomic step of load, compute and exchange keeps the invariant behind them |

## Left out

- Emitted.MessageParser.TakeData: fields no action reads keep their default values in the code and are absent from the model's message.
- Emitted.MessageSerializer.NextChunk: loop-free action lists only.
- Escape.EmittedUntilTerminator and the other escape readers take a non-empty terminator and sequence.
- RoundTrip.MessageRoundTrip: the values must be terminator-safe, that is, no terminator starts earlier in value and terminator, or the escape round trip's own condition holds.
- Sending.TransitionTreeSends: lists in loops are not empty (an empty one is the subject of Programs.WriteLoopFate), and the connection is open.
- Writers.WritersAgree: messages without loops and without member accesses, as the emitted serializer is modelled without loops.
- ReadTransitions.TransitionTreeReads: literals, text fields and text members of tuples, as longer paths, integers and loops do not read back (MemberFields, IntegerFields, TextLoops); texts with escapes from one chunk, and the fields bound in the pad itself, as a transition's callback binds its arguments.
- ReadLoops.LoopStops: non-empty lists, whose elements' bodies read back; an escaped text in an element arrives in one chunk with everything else.
- Session.SessionSafety: the reader is taken to recognise the message at the head of its queue, and the end of file as the message into Closed; recognition itself is the subject of Recognition and Turns.
- Conversations.ProgramsConverse: what each party is delivered is there before it starts, and the end of file is signalled from the start or not at all, so a script has no message that a party reads as the end of file (Turns.ReadTurn has one).
- Parsing.TwoCallsIffNotCut: messages without escapes, whose reader buffers partial sequences as well.
- Session.SessionProgress: an application that is asked answers with a message its state offers; any other answer ends the code's state machine with an error.
- Runner.ReadInChunks: non-empty terminators, lookahead rules of which no two ever hold together, and no end of file; reads with escapes append to their context before they have consumed anything, and from one chunk they are the subject of Receiving.
- Runner.InterpreterContext.HandleRead: one interpreter at a time, with the network thread's pushes between any two queue operations.
- Signals.NoLostWakeUp: one waiter per signal; sources are numbered instead of being queues.
- Collection.CollectionIsFold: addresses are never reused in the model; in the code the pointer a thread holds keeps its address from being reused.
- Callbacks.ExactlyOnce: a callback that throws, and an interpreter removed while its callback is out.
- Signals and Callbacks are step relations over values, not objects: the atomic steps of several threads, in any order, are what they are about. Collection has both.
- Collection.TransactionalContainer.DoTransaction: finitely many attempts, for which it is given what other threads commit around each; the code retries without bound.
- The machine's input is delivered before the run, with the end of file signalled or not; chunks that arrive during a read are the subject of Runner. The pads are an indexed store, so the sharing and lifetime of pad pointers is not modelled.
- The answers of callbacks are a function of all requests so far.
- A range error that `strtol` left behind in `errno` from an earlier read, and native-endian integers.
- The emitted `Parser` and `on_bytes_received`, which choose between several message parsers.
- Emission of C++ text: header guards, literal quoting, data types.
- Tokenization and the template parser; the model starts at the token shapes the two translators accept.
- libuv, sockets, command lines, the debug log, and shared-pointer lifetimes.
