# Pigen: verified models of its compiler core

Pigen translates a hardware language with ready/valid transfers to SystemVerilog. This project models the parts of
Pigen that carry unbounded obligations, and proves them for all inputs, all reachable states and all runs:

* **Routed fabrics** (`Fabric*.dfy`). The generator pairs endpoints into a binary tree of 3-port routers, finds a path
  for every connection by breadth-first search and encodes it as one turn bit per hop. The emitted network (two-entry
  queues, turn bits, round-robin grants, back pressure) is a state machine with one step per clock edge. Results: the
  generator's own checks cannot fail, routes are the unique tree paths and are readable in both directions; every
  payload handed over by valid and ready is received exactly once, in order, at the right destination, under the word
  that names its source; the network neither deadlocks nor starves a packet, and every payload arrives within a fixed
  number of cycles.
* **Exact integers** (`Numbers`, `Limbs`, `LimbShift`, `LimbGrow`, `PowerWidth`, `Integers`). In-place limb arithmetic
  with carries and borrows, canonical interning, and the dyadic-interval algorithm that finds the exact width of
  base^exponent without computing the power, including that its precision loop never gives up early.
* **Width algebra** (`Widths`, `NumericTypes`, `PowerTypes`, `OperatorTypes`, `OperatorWidths`). The closed forms give
  exactly the smallest width, no operator overflows its result type, and which result types have a bit to spare is known
  exactly.
* **Elastic pipelines** (`Pipeline`). The emitted slot and valid equations compute a function on the streams of tokens
  taken by valid and ready, and no handshake waits for its partner.
* **Atomic transfers** (`TransferRoutes`, `AtomicFire`, `StorageQueues`). The emitted equations make the endpoints of a
  group fire together, deliver the firing group's payload and conserve tokens over whole runs, down to the registers of
  the buffers. They read only nets that are declared, and which nets have two drivers is known exactly.
* **Guards, uses and ownership** (`Predicates`, `FlagTables`, `ExpressionUses`, `Targets`, `Reading`, `UseAnalyzer`,
  `Ownership`, `Writers`). Guards are canonical, and the uses recorded for expressions and for assignment targets are
  exact, down to the context of each. A design is accepted exactly when every owned signal has at most one consumer and
  one producer in every cycle, so that no two executed assignments write, or read, such a signal.
* **Syntax** (`Syntax`, `Lexing`, `Parsing`, `ParseSound`, `ParseComplete`, `Parser`, `Decorations`, `PrintedText`,
  `ReadBack`, `Printing`, `Grammar`). The precedence climbing parser accepts exactly the spellings of well-shaped trees,
  which are those of an operator table written down separately. The printer is modelled down to its characters, and the
  lexer and parser undo it exactly on the printable expressions.
* **Preprocessing** (`Expansion`, `Substitution`, `Recursion`, `Conditionals`, `Provenance`, `Preprocessing`). Macro
  expansion terminates and agrees with plain substitution, which puts each argument for its parameter; reporting
  recursion is exact wherever arguments cannot change which macros are invoked; the output of a source is the expansion
  of what its conditional structure selects; every token can be traced to its spelling and to the invocation it stands at.

Imperative code is modelled imperatively: limb arrays are changed in place, the integer model, predicate model, parser,
printer, resolver, use analyser and macro expander are classes whose methods update their fields, and each method is
proved against a specification function whose own properties are then proved as lemmas. The emitted hardware is a
synchronous step function on its registers. Payloads and stage bodies are arbitrary; arbitration starts from any
reachable preference; guards, readiness and inputs are arbitrary in every cycle.

Where the code and its description or the language standard differ, the code is followed:

* `**` is right-associative (src/expression.c:192), while IEEE 1800-2017 section 11.3.2 makes it left-associative.
* The printer's intent is a text that reads back as the same expression. It fails in three ways: it puts no parentheses
  around a binary or conditional operand of a unary operator (src/sv_emit.c:358), it puts no space between two unary
  operators, whose characters the lexer may fuse into another operator (src/lexer.c:31-49), and it prints a negative or a
  very wide literal as something else. `Printing.RoundTrip` is an if-and-only-if over exactly these;
  `Printing.NegatedSumIsLost` and `Printing.FusedIsLost` are instances.
* A macro is refused as recursive whenever it is invoked while its own replacement is being expanded, also by an
  invocation that came in with an argument (src/preprocess.c:368-418). Section 22.5.1 of IEEE 1800-2017 forbids only
  macro text that expands to itself. `Recursion.NestedArgumentIsRefused` (an invocation within its own argument) and
  `Recursion.PassedNameIsRefused` (a name passed to a macro that invokes it) are refused although substitution ends.
  Substitution that never ends is always refused (`Expansion.ExpansionIsSubstitution`). The converse, and with it
  exactness, is `Recursion.RecursionIsEndless`, under conditions that can be read off the text and the definitions: no
  argument contains a backtick or unbalanced brackets, and in a replacement text no parameter directly follows a backtick
  or a macro name with a parameter list, or opens the argument list of a macro with an empty one. The other
  conditions are needed too: `Recursion.OpenBracketIsRefused` (brackets), `Recursion.PassedListIsRefused` (a parameter
  after the macro name) and `Recursion.EmptyArgumentIsRefused` (a parameter in an empty list).
* The emitted module may drive a ready net twice: the declaration of a `port` inside the module (src/declarations.c:446-472)
  and that of an output (src/declarations.c:780-792) already assign its out_ready, and the transfer routes
  (src/assignments.c:964-1003) assign it again when a group reads such a `port`, or an output that is no `port`.
  `TransferRoutes.ReadyDrivenTwice` says that this happens exactly then; `TransferRoutes.PortToBufDrivenTwice` is an
  instance.
* Three operators give a type with a bit to spare in some cases (src/data_type.c:1733-1921), which are exactly those of
  `OperatorWidths.Spare`: adding int[1] and an unsigned operand, subtracting an unsigned operand from int[1], and
  multiplying by uint[1].
* The type of a power with a concrete exponent (src/data_type.c:1844-1854) is one bit short for a signed one-bit base
  with a one-bit exponent, and for no other: `OperatorTypes.ConcretePowerExactly`.

## Model

| member | source | states |
|---|---|---|
| FabricBuild.FabricTopology.MakeParent | src/blocks.c:394-420 | an empty side passes the other through; otherwise exactly one new router joins both sides, wired both ways |
| FabricBuild.JoinForest | src/blocks.c:394-420 | joining two neighbouring subtrees leaves a forest over the same endpoints with one subtree fewer and one router more |
| FabricBuild.FabricTopology.CombineLevel | src/blocks.c:579-584 | one pass over the level array pairs all its nodes in place, keeps the forest and raises its height by at most one |
| FabricBuild.SingleTree | src/blocks.c:579-586 | a forest of one tree over all endpoints is a complete router tree: symmetric links, each endpoint on exactly one port, one dummy port |
| FabricBuild.FabricTopology.Build | src/blocks.c:557-587 | n routed endpoints make a tree of exactly n-1 routers and height at most ceil(log2 n) |
| FabricTree.WalkIsRoute | src/blocks.c:496-555 | there is exactly one walk without U-turns from a queue to an endpoint |
| FabricTree.HopBound | src/blocks.c:540-553 | every route makes at most 2h-1 hops in a tree of height h, and at most one hop per router |
| FabricTree.RouteFromSimple | src/blocks.c:496-555 | a route visits no router queue twice |
| FabricRoute.Discover | src/blocks.c:505-535 | the breadth-first search over the topology always discovers the destination |
| FabricRoute.ReadPath | src/blocks.c:536-540 | following `previous` back from the finish and reversing gives a repetition-free path from start to finish |
| FabricTrace.PathIsRoute | src/blocks.c:496-555 | the path found is the unique tree route, whatever order the search met the nodes in |
| FabricTrace.RouteConnection | src/blocks.c:496-555 | the word holds one turn bit per hop of the tree route; failure exactly for routes of more than 64 hops |
| FabricTrace.TraceForward | src/blocks.c:448-466 | a word that carries the route from s to d leads from s to d, never to the dummy port |
| FabricTrace.TraceReverse | src/blocks.c:476-494 | the delivered word leads from d back to the source s |
| FabricTrace.WordNamesSource | src/blocks.c:476-494 | equal words in the same queue come from the same source after the same number of hops |
| FabricTrace.DeliveredWordsDiffer | src/blocks.c:613-617 | delivered words of different sources at one destination differ |
| FabricWords.RotateRightWord | src/blocks.c:438-446 | rotates the bits of the word by count modulo width, and is count single forwarding steps |
| FabricWords.ForwardRotates | src/blocks.c:702-767 | the emitted forwarding arithmetic rotates the path word by one bit |
| FabricPlan.CheckRoutes | src/blocks.c:595-619 | the generator's forward, reverse and collision checks always succeed and yield the delivered words |
| FabricPlan.NoCollision | src/blocks.c:613-617 | two connections to one destination never get the same delivered word |
| FabricPlan.BuildFabric | src/blocks.c:557-621 | for every validated connection list and endpoint order the generator succeeds; only more than 2^32 endpoints can exceed the 64-bit path |
| FabricPlan.PlanFabric | src/blocks.c:557-621 | from the connections alone: collecting their endpoints and sorting them in any way gives each routed endpoint once, and generation succeeds |
| FabricPlan.FewEndpointsFewHops | src/blocks.c:540-553 | up to 2^32 endpoints have routes of at most 63 hops |
| FabricFifo.ClockedIsQueue | src/blocks.c:685-700 | the two-slot registers with a count are a first-in first-out queue of at most two entries |
| FabricNet.GrantAt | src/blocks.c:702-767 | an output port is granted only to an input that requests it, and to one whenever some input does |
| FabricNet.PlaceStep | src/blocks.c:685-767 | at a clock edge every queue loses what it pops from its front and gains what is pushed at its end |
| FabricNet.PoppedArrives | src/blocks.c:834-890 | a packet popped anywhere is pushed in the same cycle at the wired neighbour, forwarded by one turn |
| FabricNet.PushedDeparts | src/blocks.c:834-890 | a packet pushed anywhere inside was popped from the wired neighbour in the same cycle |
| FabricHandshakes.TakesExactly | src/blocks.c:685-767 | a queue takes a packet exactly when enabled, with fewer than two entries, and offered one by the source or by a head that turns its way |
| FabricHandshakes.LetsGoExactly | src/blocks.c:685-767 | a queue lets its head go exactly when enabled and the head is drawn: by a ready destination, or by room behind the port it turns to and wins |
| FabricSafety.HomedStep | src/blocks.c:685-890 | every step keeps every packet on its route with the word of its hop count, whatever the arbitration |
| FabricSafety.NeverMisrouted | src/blocks.c:702-890 | no packet ever leaves through the dummy port or into a source |
| FabricSafety.WaitingStep | src/blocks.c:685-890 | a source's waiting payloads change in a step by exactly what moved on and what was injected, in order |
| FabricRuns.RunsExist | src/blocks.c:685-890 | every series of inputs has a run from reset |
| FabricRuns.ExactlyOnceInOrder | src/blocks.c:685-890 | over every run what a source sent is what its destination put out under the source's word, followed by what still waits |
| FabricHandshakes.SentIsHandedOver | src/blocks.c:685-701 | what counts as sent is exactly the payloads valid in an enabled cycle with room in the source skid |
| FabricHandshakes.OutputIsReceived | src/blocks.c:685-701 | what counts as put out is exactly the heads of the destination skid in the enabled cycles in which the destination is ready |
| FabricRuns.AfterReset | src/blocks.c:685-890 | whatever the network held, what follows a cycle of reset is a run from the empty network |
| FabricRuns.OutputIsAddressed | src/blocks.c:685-890 | everything a destination puts out was sent to it by the source its word names |
| FabricProgress.NeedsLower | src/blocks.c:394-420 | waiting is acyclic: the place a head needs has a lower rank than its own |
| FabricProgress.SomethingMoves | src/blocks.c:702-890 | deadlock freedom: with enable high, destinations ready and a packet anywhere, some packet advances |
| FabricProgress.RemainingStep | src/blocks.c:685-890 | without injection the remaining moves of a source fall by exactly the moves made |
| FabricProgress.Drains | src/blocks.c:685-890 | with no new injection everything sent has come out, in order, after as many cycles as there were remaining moves |
| FabricProgress.InFlightBound | src/blocks.c:685-890 | n sources with routes of at most `top` places have at most n(top+1)(top+2) remaining moves |
| FabricLiveness.PopsWithin | src/blocks.c:702-767 | no starvation: under any continuing traffic a waiting head leaves within a bound given by its place |
| FabricLiveness.PatienceClosed | src/blocks.c:702-767 | the waiting bound for a place of rank k is 3*2^k - 2 cycles |
| FabricLatency.LeavesInTime | src/blocks.c:685-890 | everything sent by cycle t has left place j of its route a fixed number of cycles later |
| FabricLatency.DeliveredInTime | src/blocks.c:685-890 | everything sent by cycle t is out, first and in order, a fixed number of cycles later, whatever others send |
| FabricDelivery.PlannedFabricRuns | src/blocks.c:557-890 | a generated fabric has a run of any length from reset under every series of inputs |
| FabricDelivery.ConnectionDelivers | src/blocks.c:557-901 | in every run of the generated fabric what each destination receives under a connection's planned word is a prefix of what its source handed over, and catches up in bounded time |
| Limbs.NormalIsCanonical | src/integer.c:32-44 | limb lists without leading zeros are equal when their values are |
| Limbs.MagnitudeCompare | src/integer.c:196-204 | the sign of the difference of the values |
| Limbs.MagnitudeAdd | src/integer.c:226-245 | the carry loop adds the values and keeps normality |
| Limbs.MagnitudeSubtract | src/integer.c:247-264 | the borrow loop subtracts the values and normalises |
| Limbs.AddScaled | src/integer.c:266-298 | one inner pass adds digit * right at its limb in place and leaves the limbs above alone |
| Limbs.MagnitudeMultiply | src/integer.c:266-298 | schoolbook multiplication multiplies the values and normalises; no 64-bit accumulator overflows |
| LimbGrow.MultiplySmall | src/integer.c:91-112 | in-place multiplication by one limb, appending the last carry |
| LimbGrow.AddSmall | src/integer.c:114-135 | in-place addition of one limb, appending the last carry |
| LimbGrow.ParseDecimal | src/integer.c:137-169 | accepts exactly spellings of digits and underscores with at least one digit, and gives their value |
| LimbGrow.ShiftLeft | src/integer.c:452-488 | spreading bits over two limbs multiplies by 2^amount |
| LimbShift.ShiftRight | src/integer.c:577-618 | the in-place shift divides by 2^amount, rounded down or up as asked, and normalises within the buffer |
| PowerWidth.IntervalMultiply | src/integer.c:620-657 | the product interval encloses the product with summed error plus one; failure only beyond 2^64 - 1 bits |
| PowerWidth.PowerInterval | src/integer.c:680-706 | squaring and multiplying on intervals encloses base^exponent with error at most twice the exponent |
| PowerWidth.WidthEnclosed | src/integer.c:707-731 | the width lies between the widths of the ends, which agree once the precision covers the power |
| PowerWidth.PowerOfTwoWidth | src/integer.c:662-737 | for a power of two the product of exponent and logarithm, plus one, is the width |
| PowerWidth.PowerWidthU64 | src/integer.c:662-737 | a returned width is the exact bit length of base^exponent; none is returned only beyond 2^63 bits |
| Integers.IntegerModel.Intern | src/integer.c:46-89 | known integers are found, new ones appended; the arena stays canonical and older ids keep their values |
| Integers.IdsAreIntegers | src/integer.c:46-89 | two ids are equal exactly when their integers are |
| Integers.IntegerModel.InternDecimal | src/integer.c:137-169 | fails exactly on malformed spellings, otherwise the id denotes the decimal value |
| Integers.IntegerModel.Negate | src/integer.c:178-194 | the id of the negated integer |
| Integers.IntegerModel.Compare | src/integer.c:206-224 | the sign of the difference of the integers |
| Integers.IntegerModel.Add | src/integer.c:300-345 | the id of the sum, over all sign cases |
| Integers.IntegerModel.Subtract | src/integer.c:347-353 | the id of the difference |
| Integers.IntegerModel.MultiplyBounded | src/integer.c:355-388 | fails exactly when the product needs more bits than allowed, otherwise the id of the product |
| Integers.UnsignedWidthMinimal | src/integer.c:404-413 | the unsigned width is the smallest that holds the integer |
| Integers.SignedWidthMinimal | src/integer.c:429-443 | the two's complement width is the smallest that holds the integer |
| Integers.IntegerModel.SignedWidthOf | src/integer.c:429-443 | computes that width, including the case of a negated power of two |
| Integers.IntegerModel.UnsignedWidthOf | src/integer.c:404-413 | computes that width, and 0 for negative integers |
| Integers.IsPowerOfTwo | src/integer.c:415-427 | decides from the limbs whether exactly one bit is set |
| Integers.IntegerModel.ShiftedLeft | src/integer.c:452-488 | fails exactly when the shifted integer needs more bits than allowed, otherwise value * 2^amount |
| Integers.IntegerModel.ToSize | src/integer.c:507-526 | the value exactly when it is non-negative and below 2^64 |
| Integers.IntegerModel.Power | src/integer.c:739-791 | for a non-negative exponent and positive bound fails exactly when the power needs more bits than allowed, otherwise the id of the power |
| Widths.EndpointsExact | src/data_type.c:1354-1403 | the endpoints bound all results over the concrete range and are both attained |
| Widths.FamilyWidthMinimal | src/data_type.c:1444-1462 | the family width is the smallest of its family that holds both ends; none only for negative ends in the unsigned family |
| Widths.ClosedFormExact | src/data_type.c:1239-1322 | every answer of the branch table is the exact endpoint width and family; overflow means the width leaves 64 bits |
| NumericTypes.RangeTypeExact | src/data_type.c:1578-1624 | {x op c} gets the smallest type that holds every result, signed only if some result is negative |
| NumericTypes.TrivialHolds | src/data_type.c:1597-1602 | the shortcuts for neutral and absorbing constants hold every result |
| NumericTypes.SymbolicFamilyNeverFails | src/data_type.c:1513-1576 | the family fixed for a symbolic width is right for every width, so evaluation fails only when the width leaves 64 bits |
| PowerTypes.PowerEndsExact | src/data_type.c:1405-1442 | the power endpoints bound every power over the base range |
| PowerTypes.PowerEndsAttained | src/data_type.c:1405-1442 | both power endpoints are powers of bases in the range |
| PowerTypes.MaximumPowerKeepsWidth | src/data_type.c:1500-1506 | (2^W-1)^e needs exactly W*e bits when bitlen(e) < W |
| PowerTypes.ClosedPowerWidth | src/data_type.c:1466-1511 | a returned width is exact; none is returned only for negative exponents and powers beyond 2^63 bits |
| PowerTypes.PowerFits | src/data_type.c:1525-1544 | every power of every base value fits the exact width |
| PowerTypes.PowerWidthSmallest | src/data_type.c:1525-1544 | in one bit less some power does not fit |
| OperatorTypes.CommonTypeHolds | src/data_type.c:1141-1180 | the common type holds every value of both operands |
| OperatorTypes.NeverOverflows | src/data_type.c:1733-1921 | the mathematical result of add, subtract, multiply and the shifts lies in the result type, for all operand values |
| OperatorTypes.ResolvePower | src/data_type.c:1626-1665 | every power by an exact exponent lies in the result type, no narrower width holds them all, and it is signed exactly if some power is negative; none only for negative exponents or when no width up to 2^63 holds the powers |
| OperatorTypes.ConcretePowerExactly | src/data_type.c:1844-1854 | the type of a power by a concrete exponent holds all powers except for int[1] by uint[1] |
| OperatorWidths.BinaryTight | src/data_type.c:1733-1921 | sums, differences and products of concrete operands always have a type, signed exactly for differences and signed operands; in one bit less some result does not fit, but for the spare cases, where all do |
| OperatorWidths.ShiftTight | src/data_type.c:1733-1921 | a left shift has a type exactly for an unsigned amount or an exact one within 64 bits, and needs every bit of it |
| OperatorWidths.RightShiftTight | src/data_type.c:1733-1921 | a right shift has the type of its left operand, with a bit to spare exactly for a positive exact amount |
| OperatorWidths.CommonTypeSmallest | src/data_type.c:1141-1180 | the common type is signed exactly if an operand can be negative, and in one bit less some operand value does not fit |
| Pipeline.FalseGuardFreezes | src/pipeline.c:993-1016 | a false guard keeps all registers and closes every handshake |
| Pipeline.LoadsIffHandshake | src/pipeline.c:981-1016 | a stage loads exactly when its token is there and its ready wire is high: no token is taken and dropped |
| Pipeline.SlotReadyIffGap | src/pipeline.c:993-1016 | a stage can take a packet exactly when the guard holds and the stages from it to the next gap move together |
| Pipeline.NoHandshakeWaits | src/pipeline.c:981-1016 | an ingress ready does not look at its own valid, nor the output valid at its own ready |
| Pipeline.OfferStands | src/pipeline.c:993-1074 | a packet offered and not taken is offered again, unchanged, when the guard next holds |
| Pipeline.AtMostOneEach | src/pipeline.c:1058-1074 | no stage is ahead of an earlier one and each stage holds at most one item |
| Pipeline.FaithfulStep | src/pipeline.c:985-1074 | a clock edge keeps: every stage holds, and the output has delivered, the items of the accepted tokens in order |
| Pipeline.StreamFunction | src/pipeline.c:985-1074 | between resets the k-th output is the stage bodies applied to the k-th tokens that the ingresses hand over by valid and ready, nothing lost, duplicated or reordered, at most N inside |
| Pipeline.ResetStartsAfresh | src/pipeline.c:1058-1074 | a reset empties every stage, and the stream function holds again for what follows |
| Pipeline.FlowsThrough | src/pipeline.c:999-1016 | flowing cycles move every item one stage each |
| TransferRoutes.EmitInValid | src/assignments.c:894-917 | the emitted valid equation holds exactly when some writing assignment offers its token |
| TransferRoutes.EmitPacket | src/assignments.c:919-961 | the emitted multiplexer selects the value of the first assignment whose guard holds |
| TransferRoutes.EmitOutReady | src/assignments.c:964-1003 | the emitted ready equation holds exactly when some group takes the token; no driver exactly for unmentioned sources |
| TransferRoutes.EmitInDrivers | src/assignments.c:880-962 | every assigned storage input gets exactly one driver pair, and no other does; the nets driven and read are declared |
| TransferRoutes.EmitOutDrivers | src/assignments.c:964-1003 | every consumed source that a group mentions gets exactly one ready driver, and no other does; the nets driven and read are declared |
| TransferRoutes.ReadyDrivenTwice | src/declarations.c:446-472 | a ready net has a second driver exactly when a group reads a `port` inside the module or an output that is no `port` |
| TransferRoutes.PortToBufDrivenTwice | src/declarations.c:446-472 | an inner `port` passed on to a `buf` is such a case |
| AtomicFire.DestinationFires | src/assignments.c:876-962 | a token enters a destination exactly when a group that writes it fires |
| AtomicFire.SourceFires | src/assignments.c:964-1003 | a token leaves a source exactly when a group that reads it fires |
| AtomicFire.AllOrNone | src/assignments.c:780-810 | all buffered endpoints of a guarded group fire together or none does |
| AtomicFire.PayloadIsDelivered | src/assignments.c:919-961 | a firing group delivers to each destination the value it assigns there |
| AtomicFire.StepBalances | src/assignments.c:876-1003 | a queue's old tokens and the delivered one are its taken token and its new tokens; capacity is never exceeded |
| AtomicFire.TokensAreConserved | src/assignments.c:876-1003 | over every run what groups wrote into a queue is, in order, what groups read from it and what it still holds |
| StorageQueues.RingIsQueue | rtl/pigen_primitives.sv:66-244 | the ring registers of fifo and skid are a first-in first-out queue; clearing empties them; discarding drops a fifo's head and all of a skid |
| StorageQueues.RegistersAreQueue | rtl/pigen_primitives.sv:10-244 | the valid, ready and packet wires driven by the registers are those of the queue they hold, and a clock edge steps that queue |
| StorageQueues.ControlIsQueue | rtl/pigen_primitives.sv:10-244 | reset and clear empty every primitive whatever the handshakes do; so does discarding, except that a fifo loses its head only |
| StorageQueues.FreshIsEmpty | rtl/pigen_primitives.sv:10-244 | the registers start as an empty queue of one, two or DEPTH packets |
| StorageQueues.RegistersConserve | rtl/pigen_primitives.sv:10-244 | over every run of the registers the tokens written are, in order, the tokens read followed by those still held |
| Predicates.MeaningIsCanonical | src/predicate.c:34-78 | canonical conjunctions are equal exactly when they hold for the same valuations |
| Predicates.ConjoinMeans | src/predicate.c:94-126 | adding a condition is conjunction, including opposite conditions and impossible predicates |
| Predicates.OrderDoesNotMatter | src/predicate.c:94-126 | conditions added in any order, with any repetitions, give the same predicate |
| Predicates.Conflict | src/predicate.c:161-176 | the linear merge finds opposite atoms exactly when the conjunctions are jointly unsatisfiable |
| Predicates.PredicateModel.Intern | src/predicate.c:34-78 | finds or appends the predicate; all stored predicates keep their meaning |
| Predicates.PredicateModel.AndCondition | src/predicate.c:94-126 | the id of the conjunction; fails exactly for unknown predicates and non-integral conditions |
| Predicates.PredicateModel.MutuallyExclusive | src/predicate.c:148-177 | true exactly when no valuation satisfies both known predicates |
| Predicates.PredicateModel.IdsAreMeanings | src/predicate.c:34-78 | two ids are equal exactly when their meanings are |
| FlagTables.MergedHas | src/resolve.c:416-433 | merging adds exactly the given flags to the given key, keeping all others |
| FlagTables.Merge | src/expression_use.c:14-35 | the in-place loop that finds the key or appends it does this merge |
| ExpressionUses.UsesAreExact | src/expression_use.c:85-170 | a recorded use is live under a valuation exactly when the starting guard holds and evaluation touches the symbol |
| ExpressionUses.EvaluationIsLocal | src/expression_use.c:85-170 | worlds that agree on the touched symbols evaluate the expression equally |
| ExpressionUses.UsesSuffice | src/expression_use.c:85-170 | worlds that agree on the live recorded uses evaluate the expression equally |
| Reading.ReadsAreExact | src/expression_use.c:85-170 | a use recorded as operand or index is live under a valuation exactly when the starting guard holds and evaluation reads the symbol's value, which bounds and widths of ranges do not |
| Reading.UsesAreDescribed | src/expression_use.c:37-83 | every use has a guard that can hold, its symbol's own signal, and the whole access to the symbol as its projection |
| Reading.ReadInIffLive | src/expression_use.c:37-83 | a signal is recorded as read exactly when some symbol that names it is read under some valuation |
| UseAnalyzer.SummaryIsExact | src/expression_use.c:14-35 | the summary of a signal is exactly the contexts of its recorded uses |
| UseAnalyzer.Analyzer.Visit | src/expression_use.c:85-170 | appends exactly the uses of the expression under the guard, and fails exactly for unknown ids, conditions and symbols |
| UseAnalyzer.Analyzer.Analyze | src/expression_use.c:220-239 | on success uses and summary gain exactly those of the expression; on failure the uses are rolled back and the summary keeps its entries, with the contexts merged into them before the failure |
| Targets.TargetIsExact | src/expression_use.c:172-218 | the uses of a target record exactly the symbols it writes, under its guard, and are live exactly for these and the symbols that evaluating its indices touches |
| Reading.TargetReadsExactly | src/expression_use.c:172-218 | a use recorded in a target as index is live exactly when the guard holds and finding the target reads the symbol's value |
| UseAnalyzer.Analyzer.VisitLvalue | src/expression_use.c:172-218 | appends exactly the uses of the projection, and fails exactly where nothing can be assigned to or an index cannot be analysed |
| UseAnalyzer.Analyzer.AnalyzeLvalue | src/expression_use.c:241-273 | does so for every part of the target in order; an impossible guard records nothing and succeeds |
| Ownership.EnabledAreExecuted | src/resolve.c:591-668 | the enabled transfers of a statement are, in order, the assignments that executing it reaches |
| Ownership.GuardsImply | src/resolve.c:591-668 | everything resolved under a guard holds only where the guard does |
| Ownership.OppositeBranchesExclude | src/resolve.c:591-639 | transfers in opposite branches of one `if` exclude each other at any nesting |
| Ownership.LiveReadsConsume | src/resolve.c:457-530 | a transfer reads, and consumes if that is what reading does, exactly the signals whose value it reads under some valuation: in a condition of its guard, in its value or in an index of its target |
| Ownership.WritesProduce | src/resolve.c:457-530 | a transfer writes, and produces if that is what writing does, exactly the signals its target writes, and none under an impossible guard |
| Ownership.ValidateOwnership | src/resolve.c:759-808 | accepts exactly the designs whose conflicting transfers all have exclusive guards |
| Ownership.AtMostOneOwner | src/resolve.c:759-808 | in an accepted design at most one enabled transfer consumes and at most one produces each owned signal, in every cycle |
| Ownership.SafeIffUnshared | src/resolve.c:759-808 | transfers are accepted exactly when in no cycle two enabled ones consume, or produce, the same signal whose laws require one owner |
| Writers.EnabledMatch | src/resolve.c:591-668 | the enabled transfers of a statement write and produce, one by one, exactly what the executed assignments write, and read and consume at least what these read |
| Writers.OneWriterPerCycle | src/resolve.c:759-843 | in an accepted design no two assignments executed in a cycle write the same owned signal that writing produces, whatever the conditions turn out to be |
| Writers.OneReaderPerCycle | src/resolve.c:759-843 | nor do two of them read the same owned signal that reading consumes, in a condition on the way, a value or an index |
| Ownership.Resolver.AnalyzeTransfer | src/resolve.c:457-530 | the roles of a transfer, failing exactly when an analysis fails or a signal is both consumed and produced |
| Ownership.Resolver.ResolveStatement | src/resolve.c:641-668 | appends exactly the transfers of the statement under its guard |
| Ownership.Resolver.ResolveDesign | src/resolve.c:810-843 | accepts exactly when all processes resolve and the resulting transfers are safe |
| ParseSound.PrecedenceSound | src/expression.c:489-546 | what the climbing loop accepts is well shaped, spells the consumed tokens and fits the minimum precedence |
| ParseComplete.PrecedenceComplete | src/expression.c:489-546 | parsing the tokens of a well-shaped tree reaches that tree as left operand |
| ParseComplete.ParsesExactly | src/expression.c:142-582 | the parser returns a tree exactly for the spellings of well-shaped trees, and returns the tree that was spelt |
| Grammar.ChainReads | src/expression.c:160-195 | in a o1 b o2 c the tighter class of an operator table written separately groups first; within a class the left, but for `**` the right |
| Grammar.PrefixReads | src/expression.c:464-487 | a unary operator applies before any binary one |
| Grammar.GroupReads | src/expression.c:323-382 | parentheses override both |
| Grammar.ConditionalReads | src/expression.c:489-546 | a conditional binds loosest and nests to the right |
| Grammar.BracesAndCalls | src/expression.c:200-301 | braces, replications and calls read as such |
| Parser.ExpressionParser.ParsePrecedence | src/expression.c:489-546 | the loop advances the position and appends nodes exactly as the parsing function says |
| Parser.ExpressionParser.ParseConcatenation | src/expression.c:236-301 | likewise for concatenations and replications, whose first expression decides between them |
| Parser.ExpressionParser.CollectSequence | src/expression.c:200-234 | likewise for comma-separated arguments up to a closer; a trailing comma is refused |
| Parser.ExpressionParser.ParseExpression | src/expression.c:548-582 | the node of the whole token list, or failure with the arena rolled back |
| Decorations.TokensTellTrees | src/expression.c:303-382 | trees that differ only in groups and literals are told apart by their tokens |
| Lexing.LexSource | src/lexer.c:51-130 | the loop over the characters produces the words, numbers and longest operators in order |
| Lexing.LexDecimal | src/lexer.c:90-95 | the decimal spelling of a number is read back as that number |
| Grammar.WordsAre | src/lexer.c:51-95 | identifiers are exactly the runs of letters, digits, `_` and `$` that do not start with a digit |
| Grammar.SpacesSeparate | src/lexer.c:51-70 | exactly blank, tab, line feed, vertical tab, form feed and carriage return are skipped |
| Grammar.LongestSymbol | src/lexer.c:31-49 | of a list of all operator spellings the longest that fits is taken |
| PrintedText.OperatorAlone | src/lexer.c:31-49 | an operator of a run without spaces is read as itself when it does not fuse with the next one |
| PrintedText.OperatorFused | src/lexer.c:31-49 | when it fuses, two characters are read as another symbol |
| PrintedText.TextReads | src/sv_emit.c:300-500 | the characters printed for a tree are read as its tokens if no operators fuse, and otherwise differ first at an operator |
| ReadBack.NeverReadBack | src/expression.c:489-546 | tokens that differ first at an operator never parse to a tree with the printed operators and names |
| Printing.LiteralSurvives | src/sv_emit.c:306-321 | a literal is printed as its own value exactly when it is non-negative and below 2^63 |
| Printing.ShapedIffIntact | src/sv_emit.c:300-500 | the printed tree is one the grammar produces, with the right meaning, exactly when no unary operator stands over a binary or conditional operand and every literal survives |
| Printing.UnfusedIffUnfusing | src/sv_emit.c:342-372 | in such a tree operators fuse in the text exactly where a unary operator fuses with the one directly below it |
| Printing.RoundTrip | src/sv_emit.c:300-500 | lexing and parsing the printed characters and erasing groups gives the expression back exactly when it is printable |
| Grammar.OperandsPrinted | src/sv_emit.c:374-428 | an operand with an operator of its own is printed in parentheses exactly unless its operator is of a tighter class of a table of levels written separately |
| Grammar.ConditionalsPrinted | src/sv_emit.c:429-500 | conditional operands are always printed in parentheses, a binary condition only with a logical operator, a binary branch never |
| Printing.NegatedSumIsLost | src/sv_emit.c:342-372 | the negation of a sum reads back as the sum with its first term negated |
| Printing.FusedIsLost | src/sv_emit.c:342-372 | the complement of a reduction AND is printed as, and reads back as, a reduction NAND |
| Printing.Buffer.AppendInteger | src/sv_emit.c:113-131 | a failed buffer stays as it is; otherwise the sign and decimal spelling are appended |
| Printing.Buffer.DigitsOf | src/sv_emit.c:113-131 | the digit loop fills its 24 characters from the last digit back with the shortest decimal spelling |
| Printing.Buffer.Render | src/sv_emit.c:300-627 | appends exactly the characters of the decorated tree, or fails where there is none |
| Printing.RenderExpression | src/sv_emit.c:655-683 | the characters of the expression, or nothing if it fails to render |
| Conditionals.AddedIsFound | src/preprocess.c:271-291 | a definition makes exactly its name known and is the one found; an earlier one of the name becomes inactive and all others stay |
| Conditionals.DeactivatedForgets | src/preprocess.c:855-876 | undefining forgets exactly the name: its definition becomes inactive and all others stay |
| Conditionals.StructureIsKept | src/preprocess.c:687-751 | well-nested directives are accepted and exactly what their structure selects is kept, each segment with the table at that point, in which no name has two active definitions |
| Conditionals.AcceptedIffNested | src/preprocess.c:687-751 | the directives accepted are exactly the flattened structures |
| Expansion.ScannedExactly | src/preprocess.c:420-475 | arguments are divided exactly by the commas outside all brackets and end at the first matching parenthesis; both errors are exact |
| Expansion.ExpansionIsSubstitution | src/preprocess.c:368-532 | unless recursion is reported, expansion is recursive substitution, whatever the nesting |
| Substitution.TokenSubstituted | src/preprocess.c:341-400 | argument k takes the place of parameter k; any other token of the replacement stays itself |
| Substitution.SubstitutedJoin | src/preprocess.c:368-418 | substitution goes token by token, in order |
| Substitution.CallIsRead | src/preprocess.c:420-532 | an invocation takes the latest active definition of its name, and its arguments as the commas divide them; every error is exact |
| Substitution.PassedOver | src/preprocess.c:477-532 | text without a backtick passes unchanged |
| Substitution.LoneTick | src/preprocess.c:477-532 | a backtick that no identifier follows stands for itself |
| Substitution.InvocationExpands | src/preprocess.c:368-532 | an invocation of a two-parameter macro expands to its text with x for the first and y for the second parameter |
| Recursion.ReadCallReplaced | src/preprocess.c:368-475 | in a replacement text whose calls are plain, closed arguments change neither a call nor its error |
| Recursion.OutlineReplaced | src/preprocess.c:368-418 | a replacement invokes the same macros in the same order whatever closed arguments it is given |
| Recursion.RecursionIsEndless | src/preprocess.c:368-418 | with closed arguments and plain calls recursion is reported exactly when substitution never ends; when it ends, at whatever depth, the expansion is its result |
| Recursion.ParameterlessIsQuiet | src/preprocess.c:368-418 | macros without parameters meet these conditions in every text |
| Recursion.NestedArgumentIsRefused | src/preprocess.c:368-418 | an invocation within its own argument is refused although substitution ends |
| Recursion.PassedNameIsRefused | src/preprocess.c:368-418 | a macro invoked by the name passed to it is refused although substitution ends |
| Recursion.OpenBracketIsRefused | src/preprocess.c:420-475 | an argument with an open bracket hides a later comma, so that a refused recursion would have ended in an error |
| Recursion.PassedListIsRefused | src/preprocess.c:368-418 | a parameter after the name of a macro can supply its argument list: a refused recursion would have ended in an error |
| Recursion.EmptyArgumentIsRefused | src/preprocess.c:420-475 | a parameter in the argument list of a macro without parameters can leave it empty: a refused recursion would have ended in an error |
| Preprocessing.SourceMeans | src/preprocess.c:1029-1138 | the output of a source is the expansion of what its conditional structure selects, each segment by the definitions before it; otherwise there is none |
| Preprocessing.Preprocessor.HandleConditional | src/preprocess.c:672-751 | updates the frame stack as the step function says; a refused directive changes nothing |
| Preprocessing.Preprocessor.HandleSegment | src/preprocess.c:1097-1133 | succeeds exactly when the segment expands by the current table, and appends its expansion |
| Preprocessing.Preprocessor.Preprocess | src/preprocess.c:1029-1169 | succeeds exactly for the sources with an output and produces it; each token stands where it is written or, if it comes from an invocation, at the name of the outermost one |
| Provenance.SpellingSpan | src/preprocess.c:1187-1201 | the walk reaches the spelling source origin before its counter runs out |
| Provenance.ExpansionSpan | src/preprocess.c:1203-1217 | the walk reaches the outermost invocation's source origin before its counter runs out |
| Provenance.Expander.ParseArguments | src/preprocess.c:420-475 | the loop with bracket counters computes the argument ranges or the right error |
| Provenance.Expander.Instantiate | src/preprocess.c:368-418 | the replacement has the substituted texts, and every token has a record of its own that names its spelling, its invocation and the parameter it was supplied for |
| Substitution.InstanceIsRecord | src/preprocess.c:341-400 | the records say which argument was supplied for which parameter, or which token of the replacement was copied |
| Provenance.Expander.ExpandMacro | src/preprocess.c:368-418 | expands the replacement while the macro is on the stack and leaves the stack as it was; all it appends stands at the invocation |
| Provenance.Expander.ExpandTokens | src/preprocess.c:477-532 | appends exactly the expansion of the tokens, each token spelt by its origin and standing at itself or at the name of its outermost invocation, and always ends |

## Left out

- Direct fabric links (src/blocks.c:891-895): two skids in series, whose queue property is FabricFifo.ClockedIsQueue.
- Cycles in which reset is high inside a run: the stream theorems speak of stretches between resets, since inputs accepted during a reset are dropped; FabricRuns.AfterReset and Pipeline.ResetStartsAfresh say that each stretch starts afresh.
- Allocation failure, capacity growth and exhaustion of 32-bit ids: sequences grow freely.
- The order that fabric endpoints are sorted into: FabricPlan.PlanFabric holds for every way of sorting them.
- Fabric parsing and `validate_fabric`: their facts (distinct source handles, unshared direct destinations) are preconditions of the plan.
- Names of macros, conditions and signals are numbers, payloads and packets of pipelines and queues are integers, and the emitted hardware text is modelled as the equations it spells; SVG output and diagnostics are not modelled.
- The constant-expression store behind symbolic widths: a width is a natural number, and NumericTypes.SymbolicFamilyNeverFails quantifies over its value.
- The bit tricks `x & (x - 1)` and the hand-written bit counts are modelled by their meaning on naturals.
- Division, modulo, comparison, bitwise and reduction operators in operator typing: their result widths are copied from an operand or constant.
- The textual guard comparison (src/assignments.c:647-703): exclusivity of guards is a hypothesis, stated on their values in the cycle.
- Manually written ports, ingress storage, clear and force actions and undriven inputs in transfer routes (src/assignments.c:1005-1055, 1266-1363).
- The force inputs of the storage primitives (rtl/pigen_primitives.sv): StorageQueues models running, reset, clear and discard.
- The arena of assignment targets: a target is a tree whose leaves are expressions of the arena.
- Clock domains of processes and the declaration part of src/resolve.c: only statements, guards, transfers and ownership are resolved.
- The shared children array of syntax nodes: parser nodes hold their children; the rollback covers it with the nodes.
- Member accesses, selects, ranges, casts, conversions and tick-prefixed literals in the parser and the printer.
- Comments and string literals in the lexer: the printer emits none, and the model reads the rest of such a text as one unusable token.
- Include files, line continuation, the parsing of macro definitions and directives' own text in preprocessing: a source is a sequence of segments and directives, whose source origins are in the arena from the start.
- Route cycle detection (src/route.c) and the lowering of fire atoms (src/rtl_lower.c).
