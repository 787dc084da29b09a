# Proofs about the imago virtual machine

An imago is a mobile Prolog program: a block of tagged words that holds its code, its names, a stack of term cells and,
growing down from the ceiling, a trail. These files model the algorithms that work in place on such blocks, and three
parts of the system around them, and prove what they are for.

* **Term store.** `Terms` gives cells (variable, pair, structure, constant, functor, float) and the term a cell denotes
  in a heap. On it rest
  the copying collector (`CollectorInvariant`, `ScanLoop`, `TrailRoots`, `CollectorMeaning`, `Collector`,
  `CollectorExample`),
  the copier between two imagos with its name tables and its size computation (`NameTable`, `CopyMeaning`, `CopySteps`,
  `CopyTerm`, `ArgSize`),
  the unification of messages with the room it takes (`Substitution`, `UnifySteps`, `WorkRoom`, `MsgUnify`, `Messages`,
  `SecondMatch`) and the exchange of messages between two imagos that rests on it (`MatchMessenger`, `Overflow`),
  choice points, trail and generation lines of the engine (`ChoiceState`, `ChoicePoints`, `DeadBarrier`), the trail as the
  remembered set that the collector relies on (`RememberedSet`, `Generations`, `TrailCount`, `TrailOnce`) and leaves behind
  (`CollectedTrail`),
  and the cloning of a block (`CloneBlock`).
* **Code.** `Code`, `LoadCode` and `MoveCode`: loading byte code and moving it to another address. `Labels`, `Primes`
  and `HashCode`: the assembler's one-pass labels, its prime search and its hash tables, with the engine's probing loop.
  `Assembly`, `Translation` and `ProgramText`: the assembler's loop over the lines of a program, and where each line and
  each label is once the program has been assembled, loaded and cloned. `MovedTables`: the engine's search in a hash
  table that has been moved.
* **Frames.** `Frames`, `FrameItems`, `FramePool`: lists of back-filled byte blocks as byte sequences, the items written
  to them, and the window on the number of frames.
* **Transfer.** `Rendezvous`, `AdaLayer`, `AdaSystem`: the ADA rendez-vous between servers as a state machine over its
  steps, the handlers of one server, and the system of all servers, whose runs are runs of the state machine.
  `Identities`: which identities the servers give to new PDUs in a run, and when one comes back.

How the proofs are laid out: what the C code does in place is a method over an array or an object, with the source's
loops and branches. Its contract ties the memory before and after to a ghost value with an invariant of its own (a type
such as `LiveScan`, `LiveCopy`, `LiveUnif`, `Live`), and the theorems are lemmas about these values. A term is read from
a heap to a depth (`Decode`); `Denotes` says that some depth suffices, so it holds of acyclic terms only.

Addresses count words. The collector, the copier and the engine take `mem[0]` as the bottom of the stack (for the engine
it is the word below it); the collector's copy block lies at addresses `cb`, `cb + 1`, … above all of `mem`.

## Where the code and its comments disagree

* `assembler/assembler.cc:364-365` says the table size is the smallest prime greater than n. It is the smallest prime not
  below a start value that is 8 or 9 above n. `Primes.GetPrime` says when the two coincide, `Primes.NotSmallest` gives
  n = 0, where they do not.
* `builtins/bp_impl.c:1470-1472` says the unification on the messenger's side must succeed. It must, whatever the
  receiver expects, exactly when no variable occurs twice in the messenger's message and none of its symbols has a namesake
  before it in the messenger's table of names: `SecondMatch.SecondSucceedsExactly`. `SecondMatch.SecondMayFail` and
  `SecondMatch.TwiceNamedMayFail` are messages for which it need not; `MatchMessenger.Match` says what that means for the
  two imagos.
* `match_messenger` writes the sender's name into the receiver's variable after the messages have been matched
  (`builtins/bp_impl.c:1478-1482`), although matching may have bound it. `MatchMessenger.BindSender` says that this is right
  for a variable that is still unbound and overwrites it otherwise; in `MatchMessenger.SenderOverwritten` accept(X, X)
  succeeds with the message 7, and X is the sender.
* RETRY and TRUST undo bindings, but neither the continuations that calls have stored since the choice point nor the cells
  that put and set instructions have stored into. The contracts of `ChoicePoints.Engine.Retry` and `Trust` say exactly which
  cells are restored (`RestoredExactly`); the arguments always are. `ChoicePoints.ContinuationLost` and
  `ChoicePoints.StoreLost` run programs in which a cell is not.
* The cut barrier `b0` is set by LASTCALL, CHAINCALL and by backtracking only (`engine/engine.c:286`, `299`,
  `include/engine.h:112-126`), while DEEPCUT goes back to a choice point without it (`engine/engine.c:434-437`). In
  `a :- b, !, c` the clause may cut a choice point that `b0` still names when c is called, and a NECKCUT in c makes that
  the choice point again. `ChoicePoints.Engine.NeckCut` is sound if and only if no DEEPCUT has gone below `b0` since it was
  set (or there is nothing to cut); `ChoicePoints.Engine.Retry` and `ChoiceState.RetriedCell` say what a RETRY restores in
  either case; in `DeadBarrier.AlternativeRevived` it tries an alternative that has been cut, with a variable bound that was
  unbound at the TRY.
* GETFLOAT trails a variable as if floats were constants (`engine/engine.c:1016-1022`): below the choice point only, although
  the float lies above the generation line. `RememberedSet.FloatRemembersExactly` says when the trail is still a remembered
  set for the collector, and that it is when the variable is younger than the generation. In `Generations.FloatMissed`,
  a run of `a :- b, !, c(X)` with the fact `c(1.5)`, it is not.
* The collector takes the cells on the trail to be bound and on it once. Bindings, generation lines, backtracking and
  filtering keep that; a store does if and only if it does not unbind a trailed cell, as PUTVAR, PUTRVAL and SETVAR may, and a
  trail entry does if and only if its cell is bound and not on the trail yet, which SETFLOAT does not look at: `TrailOnce`.
  `TrailOnce.TrailedTwice` is a run with a cell on the trail twice.
* `frame_copy` stops at an empty frame, which writing nothing leaves behind. It copies all the bytes it could exactly when
  there is none before them: `Frames.FrameList.Copy`, `Frames.UpToEmptyPrefix`. `Frames.CopyLoses` writes nothing, appends a
  byte, and has nothing copied.
* The transfer protocol loses a PDU when its acknowledgement comes to nothing
  (`transport/imago_layer_ADArendezvous.c:407-412` has a TO DO): at most once, and exactly once if and only if the
  acknowledgement is neither lost nor arrives when no request has arrived since the last refusal
  (`Rendezvous.ExactlyOnce`). `Rendezvous.AcknowledgementLost` is a run with a lost packet after which nothing of the
  PDU is left anywhere; `Rendezvous.AcknowledgementWasted` is one in which no packet is lost.
* The protocol takes the identities of PDUs to be unique. A server takes the time, in 16 bits, as its generation when its
  number of 32 bits is zero again (`transport/imago_layer_ADArendezvous.c:128-136`). `Identities.UnrepeatedExactly` says
  when a run repeats none: each generation taken so is one that the server has not had before, or the run ends before the
  numbers come to one that was given out in it. `Identities.FewAtMostOnce` says that 2^32 PDUs of a server are always safe;
  in `Identities.ClockComesBack` one more is not, and two PDUs are handed up under one identity.
* The timer of the accepting side is to repeat the offer (`transport/imago_layer_ADArendezvous.c:147-152`). As written it
  cannot: a backup of a received PDU keeps the type REQUEST, which line 163 tests before line 180 tests for ACCEPT. The model
  repeats the offer.
* `copy_arg` leaves a margin of seven cells between a copied message and the trail (`creator/creator.c:856` and `865`), and
  `msg_unify` lets its work stack and its trail entries grow towards each other there without a check
  (`builtins/bp_impl.c:1529-1535`, `1575-1576` and `1615-1616`). `WorkRoom.Peak` is what a message can take;
  `MsgUnify.MsgUnify` does not run into the trail if that fits, and for the receiver's term that takes most only then.
  The margin is enough for peaks up to seven and no others (`Overflow.MarginSufficesExactly`): lists of up to five constants,
  structures of up to four. `Overflow.Overflows` matches f(X1, ..., Xn) with f(1, ..., n), for every n from 5 on, and the
  work stack meets the trail. The model stops there; the code goes on with overwritten cells.
* `arg_size` puts an explicit stack above the stack top without a check (`creator/creator.c:799-830`).
  `ArgSize.ArgSize` says how far it grows, `ArgSize.ListHeight` that a list takes a cell for each element: the trail is left
  alone if and only if that much is free below it.
* HASHING is to find the clauses of a constant or a functor (`engine/engine.c:1416-1428`). It compares a tag of two bits with
  CON_TAG, which is 7, so that a constant is an error, and searches for the index of a functor without a tag, where the
  assembler has stored tagged words (`assembler/assembler.cc:208-213`, `378-381`). The table itself is right
  (`HashCode.PutTable`, `HashCode.Probe`), but no symbol is ever found in it: `HashCode.Missed`.
* A label that a hash table uses before it is met draws a warning only (`assembler/assembler.cc:377-386`). All labels of a
  table are looked up while the code ends before the table's first word, so that the request stands at the word that the
  size goes to, and the label's location overwrites the size when it is met: `Translation.SizeOverwritten`.
* `hash_table.cc:67-69` takes a hash of exactly 2^31 for negative and negates it; `Labels.Hash` is an index in that case
  as well, which the C expression need not be.
* `memory/mmanager.c:215-220` tests for constants before it tests for float headers, which have the tag of a constant, so
  that a float header in the scanned area is not passed over. The collected area is taken to be free of floats, and the
  branches for them (`memory/mmanager.c:217-219` and `260-264`) are not in the model.

## Model

| member | source | states |
|---|---|---|
| Terms.DenotesUnique | opcode/opcode.h:132-154 | a cell denotes at most one term, whatever depth it is read to |
| Terms.VariablesInHeap | opcode/opcode.h:190-194 | the variables of a term are cells of the heap it is read from |
| Terms.RenameUndone | memory/mmanager.c:204-206 | a renaming that can be led back changes nothing of a term but the names of its variables |
| Collector.Icb.DoCollection | memory/mmanager.c:90-303 | after a collection every argument and every cell below the line denotes the term it did, up to one injective renaming of the variables that moved; the copies are contiguous and refer to nothing above them; arguments are mirrored on top; under the new generation line the trail keeps, down to af, exactly the cells that were on it there, lie below prevp and do not lie above the old line; gl and st are the new top |
| Collector.Collect | memory/mmanager.c:159-297 | the same on the registers the collection works with, including the new stack and trail tops |
| Collector.CopyArguments | memory/mmanager.c:161-166 | the arguments become the first cells of the copy block |
| TrailRoots.CopyRoots | memory/mmanager.c:168-184 | the trail is examined from its top to af, every entry once; outer roots are copied and overwritten by the address of their copy; exactly the previous generation's stay, packed at the bottom |
| TrailRoots.ExamineEntry | memory/mmanager.c:172-183 | one round of the trail loop keeps the count of entries examined, kept and left |
| TrailRoots.RecountKept | memory/mmanager.c:176-180 | keeping an entry loses none: however often a cell is on the trail, it is examined or still to be examined as often |
| TrailRoots.RootToCome | memory/mmanager.c:172-183 | the copy block has room for a root that is still to be examined, whatever the order of examination |
| TrailRoots.NotSeen | memory/mmanager.c:172-183 | a root that is on the trail once has not been copied when it is examined, so no root is overwritten twice |
| Collector.SeenAreEntered | memory/mmanager.c:172-183 | what has been examined at the end is, as a multiset, what the trail held |
| Collector.LineDropped | memory/mmanager.c:173-293 | the old generation line always leaves the trail, so the new one fits |
| ScanLoop.ScanCopies | memory/mmanager.c:188-273 | the scan ends although scanned lists are copied again, within the unfolded sizes of what was to be scanned, and every copy is final then |
| ScanLoop.Shunt | memory/mmanager.c:195-211 | shunting ends at the first cell that is no bound variable of the area, or at a forwarded one |
| ScanLoop.ScanPair | memory/mmanager.c:228-248 | a pair is shared if its tail is still to be scanned, else copied whole, with its tail forwarded |
| ScanLoop.ScanStruct | memory/mmanager.c:250-271 | a structure is copied once, with its functor forwarded, and shared afterwards |
| ScanLoop.ChasedRef | memory/mmanager.c:197-211 | a variable reached by shunting is a cell of the collected area or below the line |
| ScanLoop.TailMarked | memory/mmanager.c:244-247 | setting the tail forward keeps the invariant: a mark above scanp is a tail's, with its head in front of it |
| CollectorInvariant.HomeKeepsInv | memory/mmanager.c:204-207 | making a copy the home of an unbound variable keeps the scan invariant |
| CollectorInvariant.ExtendKeepsInv | memory/mmanager.c:244-247 | appending a block of cells to the copies keeps the scan invariant |
| CollectorMeaning.CopyMeans | memory/mmanager.c:188-273 | a copy denotes, after the move, what the cell it was copied from denoted before |
| CollectorMeaning.OldMeans | memory/mmanager.c:181-182 | whatever refers below the line denotes the same term before and after, through the copies of the roots |
| CollectorMeaning.NoDeadSpace | memory/mmanager.c:192-273 | no copy refers above the copies, and blocks are referred to as wholes |
| Collector.RenamingInjective | memory/mmanager.c:204-206 | unbound variables keep apart: the renaming is injective, into the moved copies |
| Collector.Preserved | memory/mmanager.c:159-288 | terms below the line and arguments keep their meaning |
| Collector.MoveBack | memory/mmanager.c:275-288 | the copies replace the area from the line on, their first cells appear once more on top, and nothing else changes |
| Collector.MoveCopies | memory/mmanager.c:275-279 | the copies replace the area from the line on, and nothing else changes |
| Collector.MirrorArguments | memory/mmanager.c:282-288 | the first cells from the line on appear once more at the top |
| CollectorExample.BlockIsReady | memory/mmanager.c:90-127 | the requirements of a collection can be met: a block with an old root bound into the area |
| NameTable.SearchIndex | creator/creator.c:734-797 | the index found is where the string starts, the first place if there are several; a string not in the table is appended |
| NameTable.Compare | creator/creator.c:773-778 | the comparison of two strings in place is their equality |
| NameTable.LookedUpKeeps | creator/creator.c:784-796 | every index handed out before names the string it did |
| NameTable.LookedUpCanonical | creator/creator.c:734-797 | the index found has no namesake before it |
| NameTable.CanonicalKept | creator/creator.c:784-796 | and never gets one |
| CopyTerm.Imago.CopyArg | creator/creator.c:832-933 | the copy, read with the child's names, has the shape of the source, read with the parent's, and its symbols have no namesakes before them; its variables are new cells and occur once; it takes exactly the term's unfolded size, and is given up exactly when that comes within seven cells of the trail |
| CopyTerm.Imago.ScanAll | creator/creator.c:864-926 | the breadth-first scan ends and places every cell of the unfolded term |
| CopyTerm.Imago.ScanCell | creator/creator.c:869-925 | one cell: variable, number, float passed over, symbol, pair or structure |
| CopyTerm.Deref | creator/creator.c:869-869 | references are followed to a cell that is no bound variable and denotes the same term |
| CopyMeaning.CopyDenotes | creator/creator.c:864-932 | a finished scan denotes, at each copied cell, a copy of the term it stands for |
| CopyMeaning.CopiesAreLinear | creator/creator.c:870-873 | no variable occurs twice in a copy, and there are as many as occurrences in the source |
| CopyMeaning.ShapeTells | creator/creator.c:869-925 | the shape that copy and source share leaves out nothing but which variables there are, and which of several symbols with one name: terms of one shape with the same variables and found symbols are equal |
| CopyMeaning.SameShapeSameSize | creator/creator.c:864-932 | a copy has the size of its source |
| ArgSize.ArgSize | creator/creator.c:799-830 | the depth-first computation with an explicit stack ends and gives the term's size, with two for each constant symbol; the highest cell its stack uses is exactly the term's height above the stack top, and no cell but those up to there is written |
| ArgSize.ListHeight | creator/creator.c:815-819 | for a list of n atomic elements that is n + 1 |
| ArgSize.HeightBelowSize | creator/creator.c:799-830 | the stack never takes more cells than the term's copy |
| ArgSize.SizeBoundsCopy | creator/creator.c:812-826 | the size computed is that of the copy plus the number of constants, so it never falls short |
| ArgSize.SizedBlock | creator/creator.c:962-1004 | in a block sized that way the copy always fits |
| ArgSize.SysLoad | creator/creator.c:333-345 | a worker's argument is sized, the block laid out, and the argument copied; the copy never fails; of the parent's cells, exactly those up to the term's height above its stack top may be overwritten |
| Substitution.BindDenotes | builtins/bp_impl.c:1529-1530 | binding a variable cell to a cell makes every cell denote its term with the substitution applied |
| UnifySteps.Bind | builtins/bp_impl.c:1529-1535 | a binding keeps the invariant of the work list: jobs stay linear and apart, so no cycle arises without an occurs check |
| UnifySteps.SplitPair | builtins/bp_impl.c:1574-1579 | two pairs give two jobs with the same unifiers |
| UnifySteps.SplitStruct | builtins/bp_impl.c:1596-1621 | two structures with one functor give one job for each argument, with the same unifiers |
| UnifySteps.NoUnifier | builtins/bp_impl.c:1607-1626 | a clash at any job means that the two messages have no unifier |
| UnifySteps.AgreeOnNothing | builtins/bp_impl.c:1562-1564 | when no job is left the two terms are equal |
| MsgUnify.MsgUnify | builtins/bp_impl.c:1489-1655 | it ends without an occurs check; the work stack does not run into the trail if the message's peak fits below it, and for a receiver's term that takes most only then; otherwise it succeeds exactly when the two terms have a unifier, and then both sides have become one term; in any case every live cell denotes its term with the bindings applied, the bindings are most general, and what changed below the choice point is trailed |
| MsgUnify.Unify | builtins/bp_impl.c:1510-1638 | the same for the loop on its own registers |
| MsgUnify.Round | builtins/bp_impl.c:1520-1638 | one round of the loop: another one with less left to do, success, a clash, or no room left |
| MsgUnify.Deref | builtins/bp_impl.c:1523-1527 | references are followed to a cell that denotes the same term |
| MsgUnify.BindCell | builtins/bp_impl.c:1529-1535 | a binding of a cell not above the stack top is pushed on the trail if and only if it must be: a constant below the choice point, anything else not above the generation line; there is no room for the entry exactly when the trail has come down to the work stack |
| MsgUnify.Push | builtins/bp_impl.c:1575-1617 | a pair goes on the work stack, unless the trail is less than two cells away, which only happens if the message's peak does not fit |
| WorkRoom.ArgsPeak | builtins/bp_impl.c:1612-1621 | pushing the pairs of all arguments but the first takes no more than the structures did |
| WorkRoom.PairPeak | builtins/bp_impl.c:1574-1579 | nor does pushing the tails of two lists |
| WorkRoom.MouldBound | builtins/bp_impl.c:1529-1535 | unifying with a mould binds a variable at each leaf of the message, below the choice point, so each costs a trail entry |
| WorkRoom.MouldExists | builtins/bp_impl.c:1489-1655 | every message has a receiver's term that takes most |
| WorkRoom.ShapePeak | creator/creator.c:864-932 | a copy takes the room of its original |
| Overflow.MarginSufficesExactly | creator/creator.c:856-868 | whenever copy_arg accepts a message, unifying with it has room, if and only if its peak is at most seven |
| Overflow.FlatMessages | creator/creator.c:856-868 | so it has for a list of n constants exactly up to n = 5, and for a structure of constants exactly up to four |
| Overflow.Overflows | builtins/bp_impl.c:1457-1466 | for every n from 5 on, a run of the match in which both copies fit and the work stack of the first unification meets the trail |
| MsgUnify.UnifyFloats | builtins/bp_impl.c:1581-1595 | floats unify exactly when both words agree |
| MsgUnify.SuccessUnifies | builtins/bp_impl.c:1640-1655 | the bindings of a success are a unifier, so success and failure exclude each other |
| Messages.CopyIn | builtins/bp_impl.c:1458-1463 | the copy has the message's shape, is linear, and leaves the imago's cells alone, so that the unification can start |
| Messages.CopySeparate | creator/creator.c:870-873 | a fresh copy shares no variable with what lies below it |
| MatchMessenger.Match | builtins/bp_impl.c:1423-1474 | all four cases: two variables stay as they are; a variable becomes a copy of the other message; otherwise both are copied and unified on both sides. It asks for an expansion exactly when a copy does not fit, runs into the trail only if the message's peak does not fit, and always then if the receiver's term takes most; else it finds no match exactly when the receiver's message and the copy have no unifier, and otherwise has made them one term, with every other cell's term instantiated and the trail complete; it does the same for the messenger whenever that side unifies, which it does if the message is linear, its symbols are found, and its own peak fits; neither side disturbs the other |
| MatchMessenger.Cross | builtins/bp_impl.c:1457-1474 | the case of two terms: both copies are made before either is unified |
| MatchMessenger.OneWay | builtins/bp_impl.c:1435-1456 | the case of one variable |
| MatchMessenger.BindCopy | builtins/bp_impl.c:1440-1443 | the variable denotes the copy afterwards, every other cell what it did with the variable replaced, and it is trailed up to the generation line |
| MatchMessenger.UnifyBoth | builtins/bp_impl.c:1465-1473 | the messenger's side is unified only after the receiver's, and does not disturb it |
| MatchMessenger.BindSender | builtins/bp_impl.c:1478-1482 | the variable becomes the sender's name; an unbound one is replaced in all terms, and one that has been bound keeps its term if and only if that is the name |
| MatchMessenger.SenderOverwritten | builtins/bp_impl.c:1476-1483 | a run after which the receiver's variable, made 7 by the match, is the sender's name |
| SecondMatch.LinearSucceeds | builtins/bp_impl.c:1468-1473 | if no variable occurs twice in the messenger's message and its symbols are the first of their names, the second unification succeeds whenever the first has, over the two tables of names and whatever copying adds to them |
| SecondMatch.SharedFails | builtins/bp_impl.c:1470-1472 | otherwise there is a message for which the first succeeds and the second fails |
| SecondMatch.SecondSucceedsExactly | builtins/bp_impl.c:1470-1472 | the second unification must succeed, whatever the receiver's message and table, if and only if no variable occurs twice and no symbol has a namesake before it |
| SecondMatch.SecondMayFail | builtins/bp_impl.c:1470-1472 | f(X, X) is a message for which it need not |
| SecondMatch.TwiceNamedMayFail | builtins/bp_impl.c:1470-1472 | so is the second of two symbols with one name |
| SecondMatch.LinearMatches | builtins/bp_impl.c:1489-1655 | a term without repeated variables matches everything of its form |
| ChoicePoints.Engine.constructor | creator/creator.c:274-278 | a new imago: empty stack, one generation line, the invariant holds |
| ChoicePoints.Engine.Bind | engine/engine.c:818-828 | the variable is on the trail afterwards if and only if it has to be: constants when it is below bb, anything else when it is not above gl; all choice points stay restorable |
| ChoicePoints.Engine.SetCell | engine/engine.c:709-785 | a store into any cell of the environment, those below the choice point included, keeps the invariant of all choice points, which record it |
| ChoicePoints.Engine.PutVar | engine/engine.c:564-568 | the cell becomes an unbound variable without a trail entry, and all frames record that |
| ChoicePoints.Engine.PutRval | engine/engine.c:600-605 | the old contents are pushed before the cell is reset |
| ChoicePoints.Engine.SetFloat | engine/engine.c:739-746 | a float header and the two words on top of the stack, referred to by a cell that goes on the trail if it is not above the generation line |
| ChoicePoints.Engine.GetFloat | engine/engine.c:1016-1022 | a variable bound to a float on top of the stack, trailed below the choice point only; all choice points stay restorable |
| ChoicePoints.Engine.Try | include/engine.h:154-170 | the frame holds, from its top down, the caller, its continuation, the trail top, the choice point, the barrier, the alternative and the generation line, as they were; a generation line goes on the trail and the arguments are mirrored above the frame; what the registers and the stack were is remembered with the frame (`saved`) |
| ChoicePoints.Engine.Retry | engine/engine.c:381-398 | for the newest frame that has not been cut: the cells below the frame are as at its TRY, except exactly those stored into since whose contents the trail does not give back; the arguments above the frame are those of the TRY; registers as saved, the barrier included; the generation line is the newest entry of the trail. For a frame that has been cut: every cell is as unwinding the trail leaves it |
| ChoicePoints.Engine.Trust | engine/engine.c:400-413 | the same with the arguments on top, and the frame is gone: stack, trail, choice point and generation line as before its TRY |
| ChoicePoints.Engine.RetryNewest | engine/engine.c:381-398 | whatever has been run since the TRY of the frame, it gives back the caller, the barrier, and whether a cut had gone below that, as they were at that TRY: of the remembered registers only TRY adds any, and TRUST and the cuts take away those of the frames that they give up |
| ChoicePoints.Engine.TrustNewest | engine/engine.c:400-413 | it gives back the choice point, the generation line, the trail top and the stack top as well |
| ChoiceState.RetriesGiveBack | engine/engine.c:381-398 | every cell of the stack of that TRY that has not been stored into since holds what it held then |
| ChoiceState.TrustsGiveBack | engine/engine.c:400-413 | so it is after a trust |
| ChoicePoints.TryAndTrust | include/engine.h:154-170 | a TRY and the TRUST of its frame leave the engine as it was |
| ChoicePoints.Engine.NeckCut | engine/engine.c:415-427 | the choice points above b0 are given up and the trail keeps exactly the entries not above the newest frame's generation line; the remaining choice points stay restorable if and only if there was nothing to cut or no DEEPCUT has gone below b0 since it was set |
| ChoicePoints.Engine.DeepCut | engine/engine.c:434-437 | the choice point is what the cell holds; the engine's invariant holds afterwards if and only if that is one that has not been cut, and then older ones stay restorable; it records whether it has gone below b0 |
| ChoicePoints.Engine.DeepLabel | engine/engine.c:429-432 | the barrier is kept in the environment, wherever that lies |
| ChoicePoints.Engine.Detrail | include/engine.h:131-135 | unwinding the trail restores all cells below the newest frame |
| ChoicePoints.FilterTrail | include/engine.h:173-176 | the in-place filter keeps exactly the entries not above the generation line |
| ChoicePoints.Engine.Alloa | engine/engine.c:184-194 | an environment, with a new generation if the caller lies above the generation line and much does |
| ChoicePoints.Engine.Call | engine/engine.c:267-279 | the continuation goes into the caller's environment, and all frames record that |
| ChoiceState.RetriedCell | engine/engine.c:381-398 | of any frame whose fields stand in memory, cut or not, RETRY restores a cell below it exactly if unwinding gives back what it held, or it is the caller's continuation |
| ChoiceState.PointCut | engine/engine.c:434-437 | a cut keeps as choice points exactly those not above the one it goes back to, so b0 stays one exactly if it is not above that |
| DeadBarrier.AlternativeRevived | engine/engine.c:415-437 | a run of `a :- b, !, c` in which a NECKCUT in c revives the choice point of b that the clause has cut, and the RETRY there leaves bound what was unbound at its TRY |
| ChoiceState.BindTrailed | include/engine.h:127-129 | a trailed binding keeps every choice point restorable |
| ChoiceState.BindCell | include/engine.h:127-129 | so does an untrailed one above the choice point, for all nested frames |
| ChoiceState.PopTrail | include/engine.h:131-135 | taking an entry off the trail keeps every frame restorable, even those below |
| ChoiceState.FilterCut | engine/engine.c:417-425 | filtering for the newest frame loses nothing that an older frame needs |
| ChoiceState.TrailEmptied | engine/engine.c:384-384 | an unwound trail means a restored stack |
| ChoiceState.ArgumentsRetried | engine/engine.c:384-397 | resuming a frame restores exactly the cells not stored into, the frame's caller's slot, and those that unwinding gives back what they held; its arguments are among them |
| ChoicePoints.ContinuationLost | engine/engine.c:267-279 | a run after whose RETRY a continuation is not what it was at the TRY |
| ChoicePoints.StoreLost | engine/engine.c:709-731 | a run after whose RETRY a cell of the caller's environment, set for the next goal, is not what it was at the TRY |
| RememberedSet.NothingMissed | memory/mmanager.c:168-184 | if the trail is a remembered set, a live cell up to a generation line is on the trail above the line's entry or refers to nothing above the line |
| RememberedSet.BindRemembers | include/engine.h:127-129 | a binding, trailed as the engine does it, keeps the trail a remembered set for all generation lines, older ones included |
| RememberedSet.StoreRemembers | engine/engine.c:703-785 | so does a store into an environment that lies on the same side of all lines as what it refers to |
| RememberedSet.TryRemembers | include/engine.h:154-170 | so does a new choice frame with its generation line |
| RememberedSet.RetryRemembers | engine/engine.c:381-398 | so does a retry, for the cells below the frame: the entries it takes off are of no use to older lines |
| RememberedSet.TrustRemembers | engine/engine.c:400-413 | so does a trust |
| RememberedSet.NeckCutRemembers | engine/engine.c:415-427 | so does a cut: the filter removes the lines of the generations given up, and no entry that a remaining line needs |
| RememberedSet.FloatStoreRemembers | engine/engine.c:739-746 | SETFLOAT keeps it: the cell is on the trail |
| RememberedSet.FloatRemembersExactly | engine/engine.c:1016-1022 | GETFLOAT keeps it if and only if the variable is below the choice point or on the trail already for every line it is not above |
| Generations.Recorder.constructor | creator/creator.c:274-278 | a new imago's trail is a remembered set |
| Generations.Recorder.Bind | engine/engine.c:818-828 | the engine's bind keeps the trail a remembered set |
| Generations.Recorder.SetCell | engine/engine.c:709-785 | so does a store |
| Generations.Recorder.Call | engine/engine.c:267-279 | so does a call |
| Generations.Recorder.SetFloat | engine/engine.c:739-746 | so does SETFLOAT |
| Generations.Recorder.GetFloat | engine/engine.c:1016-1022 | GETFLOAT does exactly under the condition above |
| Generations.Recorder.Alloa | engine/engine.c:184-194 | so does an allocation, with its new generation |
| Generations.Recorder.Try | include/engine.h:154-170 | so does TRY, whatever the barrier is, with the mirrored arguments |
| Generations.Recorder.Retry | engine/engine.c:381-398 | so does RETRY; what lay above the choice frame is dead |
| Generations.Recorder.Trust | engine/engine.c:400-413 | so does TRUST |
| Generations.Recorder.NeckCut | engine/engine.c:415-427 | so does NECKCUT, if and only if there is nothing to cut or no DEEPCUT has gone below b0 |
| Generations.Recorder.DeepCut | engine/engine.c:434-437 | so does DEEPCUT, if and only if the barrier kept is a choice point that has not been cut |
| Generations.FloatMissed | engine/engine.c:1016-1022 | a run of `a :- b, !, c(X)` with `c(1.5)` after which the trail is no remembered set |
| Generations.RootsSuffice | memory/mmanager.c:168-184 | what the collector takes for granted of old cells holds in every such run: a cell below the line that is no trail entry refers to nothing collected |
| CollectedTrail.OlderLines | memory/mmanager.c:168-184 | if the trail was a remembered set for an older generation line, it is one after the collection if and only if every root not above that line is below `prevp`, or is on the trail below `af` as well |
| CollectedTrail.NewLine | memory/mmanager.c:291-293 | it is one for the new generation line, since no live cell refers above that |
| CollectedTrail.OlderPoints | memory/mmanager.c:168-184 | an older choice point that could be resumed before a collection can be afterwards if and only if every root that it needs is below `prevp`, or is on the trail below `af` as well |
| CollectedTrail.LivePoints | engine/engine.c:381-398 | every choice point of the engine that has not been cut can be resumed in that sense |
| TrailOnce.BindOnce | include/engine.h:127-129 | if every cell on the trail is there once and bound, so it is after a trailed binding |
| TrailOnce.StoreOnce | engine/engine.c:564-785 | so it is after a store if and only if that does not unbind a cell on the trail |
| TrailOnce.PushOnce | engine/engine.c:739-746 | so it is after an entry has been pushed if and only if that is a generation line, or a bound cell not on the trail yet |
| TrailOnce.PopOnce | include/engine.h:131-135 | so it is when an entry has been unwound |
| TrailOnce.FilterOnce | include/engine.h:173-176 | so it is after the in-place filter |
| TrailOnce.TrailedTwice | engine/engine.c:703-828 | a run after which a cell is on the trail twice: it is bound, reset by SETVAR, and bound again |
| Code.MovedLayout | include/system.h:353-485 | moved code has its instructions and its labels where they were, hash tables of every length included, so both walkers agree on every boundary |
| Code.MovedTwice | creator/creator.c:1328-1340 | code loaded at one base and moved by a distance is the code loaded at the other base |
| Code.MovedBack | creator/creator.c:1328-1340 | moving back restores the code |
| Code.SameLayout | creator/creator.c:1134-1262 | labels have no influence on where instructions begin |
| LoadCode.Loader.Load | creator/creator.c:1128-1266 | loading succeeds exactly when no operation code is of an unknown type; then every label is moved by the base and nothing else is changed; `Assembly.AssembledLabels` says which words these are |
| LoadCode.Loader.ReadOperands | creator/creator.c:1136-1262 | the operands of each instruction type are read, and exactly the labels relocated; which these are is what the assembler reads (`Assembly.LabelsRead`, `Assembly.KindSpelled`) |
| LoadCode.Loader.ReadTable | creator/creator.c:1248-1259 | a hash table relocates the variable branch and the label of each pair |
| MoveCode.Walker.Move | creator/creator.c:1329-1340 | walking the old code gives the moved code, with exactly those labels moved |
| MoveCode.Walker.AdjustCode | include/system.h:353-485 | one instruction of each type: cdirect for its words and cadjust for its labels |
| MoveCode.Walker.Hash | creator/creator.c:89-96 | a hash table with as many pairs as its count says |
| CloneBlock.Clone.MoveStack | creator/creator.c:1355-1376 | every cell of the stack is moved, and the words of floats are not touched, whatever tag their bits show |
| CloneBlock.Clone.MoveTrail | creator/creator.c:1378-1390 | variables and generation lines on the trail are moved and keep their tags |
| CloneBlock.Clone.MoveCells | creator/creator.c:1348-1390 | stack and trail together: the new stack is the old one moved |
| CloneBlock.SameMeaning | creator/creator.c:1348-1376 | every cell reads in the clone exactly as in the original, up to the addresses of its variables; what denotes nothing denotes nothing |
| CloneBlock.UndoneMoves | creator/creator.c:1378-1390 | backtracking in the clone leads to the clone of where it leads in the original |
| CloneBlock.UndoneCell | creator/creator.c:1378-1390 | what backtracking leads to: the cells on the trail are unbound, and the others are as they were |
| CloneBlock.HeapOf | creator/creator.c:1348-1376 | what is compared are the cells of the two stacks, each at its address, and the variables keep their places |
| Labels.LabelHashTable.Lookup | assembler/hash_table.cc:170-203 | a label met already has its location; otherwise the operand goes on record |
| Labels.LabelHashTable.Insert | assembler/hash_table.cc:205-262 | exactly the operands waiting for the label are filled in; a second definition is an error |
| Labels.LabelHashTable.Check | assembler/hash_table.cc:264-279 | it tells whether a request is left |
| Labels.Hash | assembler/hash_table.cc:65-70 | the hash is an index of the table |
| Labels.Assembler.EmitLabel | assembler/assembler.cc:244-268 | the code stays that of two passes over what has been read |
| Labels.Assembler.DefineLabel | assembler/assembler.cc:84-86 | so it does when a label is met, whatever was waiting for it |
| Labels.Assemble | assembler/assembler.cc:244-688 | one pass succeeds exactly when every label is defined once and every label used is defined, and then gives the code of two passes, for all orders of uses and definitions and all collisions: every word is in its place, and every use of a label is the place of its definition |
| Labels.ItemsPlaced | assembler/assembler.cc:244-268 | each word is behind those of the items before it, and an operand that is a label holds the number of words before the label, with the header |
| Labels.WordOf | assembler/assembler.cc:263-268 | there are no other words in the code |
| Labels.Assembler.EmitLocation | assembler/assembler.cc:391-415 | a location looked up before is put down as an operand, and the code stays that of two passes |
| Assembly.NumbersRead | assembler/assembler.cc:481-640 | the operands that are read for an instruction, for each type without labels |
| Assembly.LabelsRead | assembler/assembler.cc:488-654 | and for each type with labels, which come last |
| Assembly.KindSpelled | creator/creator.c:1136-1246 | what loading and moving take for the labels of a type are the operands that the assembler reads as labels |
| Assembly.AssembledLabels | assembler/assembler.cc:454-660 | in assembled code the words that loading and moving take for labels are, besides the entry in the header, exactly those that the assembler has read as labels |
| Assembly.AssembledMoved | creator/creator.c:1128-1266 | assembled code that is moved to a base has every operand in its place, and every label is an address |
| Assembly.EntryAt | assembler/assembler.cc:283-297 | the entry of the imago lies behind the last header of its procedure |
| ProgramText.LinesLoaded | assembler/assembler.cc:454-660 | line by line: the operation code, each operand and each slot of a hash table is where the lengths of the lines before put it, and each label is the address of its line |
| ProgramText.CompleteIs | assembler/assembler.cc:684-688 | no label is asked for in vain or met twice exactly when every label of a line is defined in one line |
| Translation.OperandCounts | assembler/assembler.cc:475-654 | the switch on the type: numbers, floats and labels in the order of the letters |
| Translation.PutOperands | assembler/assembler.cc:475-654 | the operands of an instruction are put down one by one, whatever its type |
| Translation.PutInstruction | assembler/assembler.cc:460-654 | the operation code and its operands; the header of the imago's procedure fills in the entry |
| Translation.PutTable | assembler/assembler.cc:354-423 | a hash table whose labels have all been met |
| Translation.TranslateLine | assembler/assembler.cc:460-660 | a line is put down behind those before it, unless it defines a label again |
| Translation.Translate | assembler/assembler.cc:443-664 | so are all lines, exactly if no label is defined twice |
| Translation.SizeOverwritten | assembler/assembler.cc:377-386 | a hash table with a label met later has that label's location in the place of its size |
| Translation.AssembleProgram | assembler/assembler.cc:443-688 | a program is assembled exactly if each of its labels is defined in one line and it has an entry; then every line is where it should be |
| Translation.LoadAndClone | creator/creator.c:1128-1340 | the assembled program, loaded at any base and then cloned to any other place: in both blocks every line is where it should be, and each label, the entry included, is the address of its line in that block |
| Labels.AllMet | assembler/hash_table.cc:264-279 | no request is left exactly when every label used has been met |
| Primes.GetPrime | assembler/assembler.cc:299-310 | it ends, with the least prime not below its start value, which is above n; it is the smallest prime above n exactly when none lies below the start value |
| Primes.PrimeAbove | assembler/assembler.cc:302-308 | there is a prime above every number, so the search ends |
| Primes.OddDivisor | assembler/assembler.cc:302-308 | although the search goes on at 5 after each bump, every odd composite above 9 has a divisor it meets |
| Primes.NotSmallest | assembler/assembler.cc:362-365 | for an empty table it is not the smallest prime above n |
| HashCode.PutHashCode | assembler/assembler.cc:322-351 | inserting a pair keeps all others found, and of two pairs with one key the first stays |
| HashCode.PutTable | assembler/assembler.cc:391-422 | the table laid out holds all pairs, its prime size exceeds their number |
| HashCode.Probe | engine/engine.c:1451-1457 | probing ends, at the key's first pair or at an empty slot |
| HashCode.Hashing | engine/engine.c:1432-1459 | a variable leads to the variable branch, a structure to the location of the first pair whose key is its functor's index, or to the variable branch; anything else, constants included, is an error |
| HashCode.Missed | engine/engine.c:1434-1459 | over a table of tagged keys, as the assembler lays it out, no symbol is found: as a constant it is an error, as a functor it leads to the variable branch, or to another symbol whose stored word is its index |
| HashCode.FirstIs | assembler/assembler.cc:333-343 | the pair found for a key is the one that has none with this key before it |
| MovedTables.TableMoved | creator/creator.c:1248-1259 | in code that has been loaded or moved, a hash table has the same pairs, with their locations moved |
| MovedTables.ProbeMoved | engine/engine.c:1451-1457 | so the engine's search there leads to the location that has moved with the code |
| Frames.FrameList.WriteString | transport/frame.c:372-398 | writing prepends the bytes, for all lengths and frame boundaries |
| Frames.FrameList.AppendString | transport/frame.c:282-300 | appending puts them behind |
| Frames.FrameList.ReadAux | transport/frame.c:453-484 | reading takes a prefix away, as long as asked for or as there is, or up to the first zero, which the result does not count |
| Frames.FrameList.Erase | transport/frame.c:190-213 | erasing drops a prefix and says how much |
| Frames.FrameList.Size | transport/frame.c:235-254 | the size is the number of bytes |
| Frames.FrameList.PeekString | transport/frame.c:350-368 | peeking gives a prefix and changes nothing; asked for more than there is, it runs off the list, unless the list is empty |
| Frames.FrameList.Copy | transport/frame.c:301-315 | the bytes up to the first empty frame, at most as many as asked for, are appended to the other list |
| Frames.UpToEmptyPrefix | transport/frame.c:305-313 | these are a prefix, and all the bytes exactly when only empty frames follow the first empty one |
| Frames.CopyLoses | transport/frame.c:301-315 | a list made by its own operations that holds a byte, of which none is copied |
| Frames.FrameList.Move | transport/frame.c:317-348 | moving splits the bytes and transfers the front, whole frames and the rest alike |
| FrameItems.Write | transport/frame.c:427-448 | an item goes in front in its encoding: a text with a zero behind it, an integer as its four bytes and a short as its two, the highest first |
| FrameItems.Read | transport/frame.c:485-517 | an item is read back, or the read fails, as the bytes in front say |
| FrameItems.ParseEncode | transport/frame.c:427-517 | parsing undoes encoding, whatever follows |
| FrameItems.NetworkOrder | transport/frame.c:431-442 | an integer is put down with the byte of the highest weight first |
| FrameItems.RoundTrip | transport/frame.c:427-517 | a series of writes is undone by the reads in the reverse order, and the list is as before |
| FramePool.Pool.New | transport/frame.c:59-109 | the window invariant is kept: lower <= in use <= in use + pooled <= upper = lower + two half windows |
| FramePool.Pool.Free | transport/frame.c:110-155 | so it is when a frame comes back; when the window slides down, all frames above its new upper end are in the pool and are released |
| Rendezvous.AtMostOnce | transport/imago_layer_ADArendezvous.c:355-441 | in every run that repeats no identity a PDU is handed up at most once, never both handed up and returned, at the server it was sent to and as it was sent; returned only with its retries used up |
| Rendezvous.ExactlyOnce | transport/imago_layer_ADArendezvous.c:402-412 | in such a run, once nothing of an issued PDU is left at its source and no acknowledgement is under way, it has been handed up or returned if and only if its acknowledgement has neither been lost nor arrived when no request for it had arrived since the last refusal |
| Rendezvous.RunLive | transport/imago_layer_ADArendezvous.c:144-544 | every run that repeats no identity keeps the invariant: the right to deliver a PDU is at one place |
| Rendezvous.StepLive | transport/imago_layer_ADArendezvous.c:144-544 | every step that gives out no identity again does |
| Rendezvous.EffectOnce | transport/imago_layer_ADArendezvous.c:369-419 | a handler neither multiplies nor loses the right |
| Rendezvous.AcknowledgementLost | transport/imago_layer_ADArendezvous.c:368-432 | a run in which the acknowledgement is lost, the repeated offer is refused, and nothing of the PDU is left anywhere |
| Rendezvous.AcknowledgementWasted | transport/imago_layer_ADArendezvous.c:402-412 | a run without a lost packet with the same end: a late refusal removes the offer before the acknowledgement arrives |
| Identities.IdsFollow | transport/imago_layer_ADArendezvous.c:116-142 | in every run the identities that a server gives out follow one another from its first one to the next: the numbers count up, and the generation stays unless the number is zero |
| Identities.IssuedAre | transport/imago_layer_ADArendezvous.c:301-305 | the identities on record for a server are those on its requests |
| Identities.FirstGeneration | transport/imago_layer_ADArendezvous.c:128-142 | before its numbers wrap, the identities that a server has issued are exactly those of its generation from its first number up to its present one |
| Identities.LaterGeneration | transport/imago_layer_ADArendezvous.c:128-142 | after that, it has issued those of its present generation from zero up to its present number |
| Identities.FreshExactly | transport/imago_layer_ADArendezvous.c:128-142 | the next identity is new if and only if the present generation is not that of an identity given out a multiple of 2^32 identities ago |
| Identities.UnrepeatedExactly | transport/imago_layer_ADArendezvous.c:128-142 | a run repeats no identity if and only if each generation that a server takes when its number is zero is new to it, or the numbers do not come to one that it has given out in that generation before |
| Identities.FewUnrepeated | transport/imago_layer_ADArendezvous.c:128-142 | no run in which each server sends at most 2^32 new PDUs repeats one |
| Identities.ClockComesBack | transport/imago_layer_ADArendezvous.c:135-136 | a run that does: one PDU more, with the same time on the clock, after which two PDUs have been handed up under one identity |
| Identities.FewAtMostOnce | transport/imago_layer_ADArendezvous.c:128-142 | in every run in which each server sends at most 2^32 new PDUs, a PDU is handed up or returned at most once |
| Identities.LostUnrepeated | transport/imago_layer_ADArendezvous.c:402-432 | the two runs that lose a PDU repeat none |
| AdaLayer.Layer.SendDown | transport/imago_layer_ADArendezvous.c:295-326 | the down handler is the protocol's sending step; a new PDU goes out with the present generation and number, and the number goes on |
| AdaLayer.Layer.NewId | transport/imago_layer_ADArendezvous.c:116-142 | the identity is the present generation and number; the number goes on by one, modulo 2^32, and the generation becomes the time when it is zero |
| AdaLayer.Layer.TimeoutSent | transport/imago_layer_ADArendezvous.c:157-179 | the source's timer: the backup goes; the PDU is back in the queue, marked for sending again, or returned after three tries |
| AdaLayer.Layer.TimeoutOffer | transport/imago_layer_ADArendezvous.c:180-193 | the target's timer: the offer is repeated |
| AdaLayer.Layer.TransportUp | transport/imago_layer_ADArendezvous.c:492-543 | a request is backed up and an ACCEPT sent, or it is dropped during a shutdown |
| AdaLayer.Layer.ControlUp | transport/imago_layer_ADArendezvous.c:368-440 | an ACCEPT of the present generation with a backup is answered by ACK and the backup goes, any other by NACK; an ACK hands up the offer if there is one, and ACK and NACK remove it |
| AdaLayer.Layer.Receive | transport/imago_layer_ADArendezvous.c:359-543 | an arriving packet has the effect the protocol gives it |
| AdaSystem.System.Send | transport/imago_layer_ADArendezvous.c:295-326 | a server's sending, with what it passes on, is one step of the protocol |
| AdaSystem.System.SourceTimer | transport/imago_layer_ADArendezvous.c:157-179 | so is a timer of the source |
| AdaSystem.System.TargetTimer | transport/imago_layer_ADArendezvous.c:180-193 | so is a timer of the target |
| AdaSystem.System.Arrive | transport/imago_layer_ADArendezvous.c:359-543 | so is the arrival of a packet, an acknowledgement that finds no offer included |
| AdaSystem.System.TakeAll | transport/imago_layer_ADArendezvous.c:144-544 | a run of the servers is a run of the protocol |
| AdaSystem.System.TransferAll | transport/imago_layer_ADArendezvous.c:144-544 | so the servers hand up or return each PDU at most once, as it was sent, if the generations that they take are new |

## Left out

- Collector.Icb.DoCollection: the collected area holds no floats (their bypass is never taken), structure cells lead to functors directly, outer roots are bound and on the trail once (`TrailOnce` says what keeps that), terms are acyclic. `prevp` is a parameter (its computation at memory/mmanager.c:152-157 starts from the value of a cell, not from its address); `CollectedTrail.OlderLines` and `CollectedTrail.OlderPoints` say what depends on it. The copy block is large enough: it has room for the unfolded sizes of all roots, because lists may be copied again, and no smaller bound holds in general. Locking of the block is left out.
- ScanLoop.ScanCopies: the copy block lies above all addresses of the imago, as one fixed order of the two blocks.
- NameTable.SearchIndex: the table has room; `name_table_expansion` is not part of this model.
- CopyTerm.Imago.CopyArg: the two tables have the same string at the index of nil, which is copied unchanged; `Room` states what the check against the trail leaves to the caller: a structure of eight or more arguments is checked only after it has been written. The source lies outside the cells that the whole copy would take, even if copying is given up before.
- ArgSize.ArgSize: a float is referred to directly by its structure cell, since the size computation looks one cell ahead for it while the copier follows chains.
- ArgSize.SysLoad: parent and child share one address space in which the child's block lies above the parent's stack top; reading the file is left out. That the cells above the parent's stack top hold its trail is not part of the contract, which bounds what is written there.
- MsgUnify.MsgUnify: when the work stack and the trail meet, the model ends with the outcome `Overrun` before the first cell is overwritten; what the code does with overwritten cells is left out. `filter_trail` and `clear_trail` at builtins/bp_impl.c:1646 and 1652 compare the trail top with its old value, which is never below it, and do nothing; so bindings of a failed unification stay, which is what the contract says.
- MatchMessenger.Match: both blocks lie apart in one memory. If the messenger's side fails, nothing is promised of its cells. The comparison of the sender's name before the match (builtins/bp_impl.c:1396-1420) is left out.
- SecondMatch.SecondSucceedsExactly: symbols are single characters or indices at which a string of the table starts.
- ChoicePoints.Engine.Bind: the variable is found by dereferencing; the comparison and matching parts of the get instructions are left out.
- ChoicePoints.Engine.Try: memory expansion and the switch to a collection (engine/engine.c:337-376) are left out; the stack has room.
- ChoicePoints.Engine.SetCell: environments do not overlap choice frames or the arguments saved below them (`Clear`), as code that the compiler emits has it; the cell may lie anywhere else on the stack.
- ChoicePoints.Engine.NeckCut: CHAINCALL, which sets b0 as LASTCALL does (engine/engine.c:295-299), is left out. After a cut back to a dead choice point no invariant is promised; the contracts then say what each instruction does to memory.
- ChoicePoints.Engine.Retry: a frame is resumed with at most the number of arguments it was made with, or the arguments are not promised.
- Generations.Recorder.SetCell: what is stored lies on the same side of every generation line as the environment (`OneSided`): stores are not trailed, and an older environment that is made to refer to a younger cell would be missed. A collection is not a step of these runs: what it does to the trail and to choice points is stated for itself in `CollectedTrail`.
- ChoicePoints.Engine.Alloa: the check for expansion and the search for a generation to collect (engine/engine.c:169-183 and 195-213).
- LoadCode.Loader.Load: the operands in the file fill the code block exactly, as the assembler writes it; words are not bounded to 32 bits. Reading of names and of the procedure table is left out.
- MoveCode.Walker.Move: cdirect repeated k times is one method; registers of the new block, which only have the distance added, are left out, and so is the procedure table (creator/creator.c:1319-1327).
- CloneBlock.Clone.MoveCells: control words of frames are untagged pointers like variables.
- Labels.Assemble: file input, opcodes and line numbers; the code array and the label pool have room.
- Translation.AssembleProgram: the operands in the text are of the kinds that the instructions read; the labels of a hash table have been met before it (`Translation.SizeOverwritten` is what happens otherwise). A table's slots are given as `HashCode.PutTable` lays them out. The procedure table of the file is left out.
- HashCode.Hashing: words are unsigned, with 23 bits below the arity. In `PutTable` keys are positive words.
- Frames.FrameList.WriteString: allocation succeeds; the undo of a failed one is left out. A frame belongs to one list and is a value of it.
- FramePool.Pool.New: frames are counted, not linked; allocation succeeds.
- Rendezvous.AtMostOnce: packets may be lost, delayed and reordered but not duplicated; handlers are atomic, which excludes the race described at transport/imago_layer_ADArendezvous.c:380-385; that no identity comes back is a condition on the run (`Unrepeated`), and `Identities` says exactly when it holds; the accepting side's timer repeats the offer, as the comment at 147-152 says and the code does not. Liveness and restart from disk are left out.
- AdaLayer.Layer.TransportUp: the error path of the local lower layers (461-490) is left out.
- Engine UNIFY and the remaining instructions: data movement, and a binding to a cell that has not been dereferenced (engine/engine.c:886-888).
- Memory expansion, term comparison, the compiler front end, thread dispatch, sockets, security and the log.
