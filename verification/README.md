# Verified models of cpp_training

Dafny models of the algorithms and small concurrent components of the C++ repository, one module
per component, with proofs of what each is for. `dafny verify dfyconfig.toml` checks everything.

| module | models | main results |
|---|---|---|
| `TicketQueue` | the multi-producer, multi-consumer ring of `exercises/concurrent.cpp` as interleaved atomic steps | every pop returns the value of the push with its ticket; slots are never shared; no deadlock; refinement of a bounded FIFO queue; when a call can finish without help |
| `TryForms` | its `try_push` and `try_pop`, steps of the same state machine | when they return; when a refusal is right |
| `LockedQueue` | the monitor of `core/locked_queue.hpp` with its mutex, two condition variables and spurious wakeups | no lost wakeup; no deadlock; calls settle in a bounded number of moves; FIFO within Bound |
| `Cards` | both card-dealing simulations of `exercises/cards.cpp` | the strided round equals the queue-and-stack round; both programs end, with the least number of rounds that restores the deck |
| `Dijkstra` | `exercises/dijkstra.cpp` with its parent walk | the returned path is a real path and no walk is shorter; distances are exact |
| `Chains` | `exercises/chains.cpp` with its stack and child counters | the search ends with a chain no other chain exceeds |
| `Permutations`, `Combinations` | three forms of next-permutation, and the enumeration of k-subsets built on it | immediate lexicographic successor; every subset once, C(n, k) in all |
| `GapControl` | the packet number translator of `exercises/gapcontrol.cpp` | the rings hold exactly the last 4096 numbers over any number of 16-bit wraps; distances; when the two maps are inverse |
| `Allocator` | `LargeBlockAllocator` of `exercises/memory.cpp` | free and live blocks tile the region; null exactly when no block is large enough; defragmenting restores one block |
| `Trie` | `exercises/compounds.cpp` | `is_compound` is exact and ends; `contains` and `join` agree with the set of inserted words |
| `RemoveNth` | `exercises/remove-nth.cpp` | a run of queries is answered as a plain list would answer it |
| `NalUnits` | `nal_parse_units` of `exercises/y4m.cpp` | splitting and joining are inverse, with the exact condition on the payloads |
| `BitStream` | the bit reader and field parsers of `exercises/bitstream.cpp` | reads are all-or-nothing and compose; Exp-Golomb round trip |
| `Basics` | lists without repetition, reversal, lexicographic order, powers of two, for the modules above | |

## How the models are built

The two concurrent components are state machines. A run is any sequence of enabled moves of any
number of threads from an initial state; `Reachable` names the states some run reaches, and the
results are stated for every reachable state. The other components are imperative: methods with
loops over arrays, or over sequences that stand for the source's vectors and stacks, and classes for
the source's objects. A class keeps its invariant in `Valid()`, so what its methods promise holds in
every run of calls. Ghost state records what a run has done: the log of events of `GapControl`, the
live blocks of the allocator, the path behind every distance of `Dijkstra`.

A `do … while` loop is written as its first turn followed by a `while` loop. Loops nested in a
function of the source are sometimes methods of their own, so that each has a contract. Several
proofs begin with `hide`, which only keeps definitions out of the solver's sight.

## Results about the code that differ from what one might expect

* The two maps of `GapControl` are inverse only while a packet is in both rings. `ReuseRun` makes three
  calls after which both directions contain the numbers of packet 5 -> 4, while outgoing 4 leads to
  incoming 6. `BackFromOutgoing` and `BackFromIncoming` say exactly when the way back leads to the
  same entry. In one corner it does so by accident: an injection that reuses the outgoing number
  leaves the same entry as a packet with incoming number 0.
* A `translate` of the number consumed last consumes nothing and returns the next outgoing number. That is
  the one recorded for its argument if and only if that number was translated and 65535 injections, or 65536
  more any number of times, have brought the counter around since (`GapControl.GapControl.Translate`,
  `RepeatedNumber`). `RepeatRun` is a run with both outcomes.
* The splitter gives joined payloads back under a weaker condition than the byte stream format asks
  for: a payload may end in 00 unless the short start code follows it (`NalUnits.SplitJoin`).
* `exercises/concurrent.cpp:29` says that `try_push` and `try_pop` return wait free. They test and then
  call the blocking forms. `TryPushWaits` is a run whose `try_push` waits on a full queue. A call that
  has its ticket finishes without help exactly when the ticket is the next and there is room, or an item
  (`AloneIff`). A `try_push` or `try_pop` that nobody disturbs finishes exactly when the queue is full, or
  empty, or no earlier ticket is waiting (`TryPushAlone`, `TryPopAlone`).
* A `try_push` can be refused although the queue was never full during the call (`PushRefusedWithRoom`), and a
  `try_pop` although it was never empty (`PopRefusedWithItems`). C++ leaves open which of the two loads of
  `size()` comes first. With `head_` first a refused `try_push` is always right, with `tail_` first a refused
  `try_pop`; in the other order exactly when the counter loaded first has not moved since (`RefusalIff`).
* `seek` from a position past the end, where `read_bit` can lead (`SeekRun`), moves on past the end, and is
  within it again only after going once around 2^32 (`BitStream.BitStream.Seek`).

## Model

| member | source | states |
|---|---|---|
| TicketQueue.StepKeepsInv | exercises/concurrent.cpp:49-115 | every atomic step of every thread keeps the invariant: counters, slots, one holder per unserved ticket, and what each thread has loaded |
| TicketQueue.PopsFollowPushes | exercises/concurrent.cpp:49-115 | in every run the pop with ticket k returns the argument of the push or try_push call that took ticket k, and the popped values are, in order, the arguments of the first of these calls |
| TicketQueue.StepOffers | exercises/concurrent.cpp:60-84 | a step that takes a push ticket holds it with the argument of its thread's call, be it push or try_push |
| TicketQueue.CallIsHonest | exercises/concurrent.cpp:49-130 | in every run, a push or try_push that is over has taken one ticket and published its argument under it, or was refused without one; a pop or try_pop that is over returns with the one ticket it took, or was refused without one |
| TicketQueue.SlotsAreExclusive | exercises/concurrent.cpp:60-113 | tail <= head <= tail + N; at most one producer and one consumer are past their wait loops, and they use different slots |
| TicketQueue.SizeAssertionsHold | exercises/concurrent.cpp:69-128 | no thread fails a size assertion, and the size that a second load is about to complete is at most N, whichever load comes first |
| TicketQueue.RefinesFifo | exercises/concurrent.cpp:49-115 | in every run each step is an append of the call's argument to a queue with room, the removal of the front that is returned, or no change of a FIFO queue of at most N values, the arguments with unserved tickets |
| TicketQueue.PushCompletes | exercises/concurrent.cpp:60-74 | in every interleaving, the holder of the next push ticket, when there is room, has published or keeps its turn and has made at most ten moves; so its eleventh move at the latest publishes |
| TicketQueue.PopCompletes | exercises/concurrent.cpp:99-113 | in every interleaving, the holder of the next pop ticket, when there is an item, has finished or keeps its turn and has made at most ten moves |
| TicketQueue.AloneIff | exercises/concurrent.cpp:60-125 | a thread inside a call can come to its end without a move of another thread if and only if it holds the next ticket and there is room, or an item; for a try form before its ticket, if and only if its test will refuse or no other ticket is unserved and there is room, or an item |
| TryForms.TryPushAlone | exercises/concurrent.cpp:76-84 | a try_push that runs alone comes to its end if and only if the queue is full or no push waits; its test refuses exactly when the queue is full, whichever load comes first |
| TryForms.TryPopAlone | exercises/concurrent.cpp:117-125 | a try_pop that runs alone comes to its end if and only if the queue is empty or no pop waits; its test refuses exactly when the queue is empty |
| TryForms.TryPushWaits | exercises/concurrent.cpp:76-84 | a run in which a thread that only calls try_push passes the test and then waits on a full queue, and cannot come to its end alone |
| TicketQueue.NoDeadlock | exercises/concurrent.cpp:64-104 | with a producer waiting on a queue that is not full, the next ticket's holder exists and can complete; dually for consumers; with both inside, one side always can |
| TryForms.RefusalIff | exercises/concurrent.cpp:76-84 | in every interleaving: with head_ loaded first a try_push is refused if and only if the queue is full now and head_ has not moved, with tail_ first a try_pop if and only if it is empty now and tail_ has not moved; in the other order a refusal is right if and only if the counter loaded first has not moved |
| TryForms.PopRefusedWithItems | exercises/concurrent.cpp:117-130 | a run in which try_pop is refused although the queue holds one or two values during the whole call |
| TryForms.PushRefusedWithRoom | exercises/concurrent.cpp:76-129 | a run in which try_push is refused although the queue of two slots holds at most one value during the whole call |
| LockedQueue.StepKeepsWakeups | core/locked_queue.hpp:26-72 | every step keeps: blocked threads of a side mean no more items, or free slots, than awake threads and pending notifications of that side |
| LockedQueue.StepKeepsInv | core/locked_queue.hpp:26-89 | every step keeps mutual exclusion, the bound, the order of items and the wakeup accounting |
| LockedQueue.NoLostWakeup | core/locked_queue.hpp:26-72 | while the mutex is free and a consumer is blocked, there are no more items than signalled consumers; dually for producers and free slots |
| LockedQueue.NoDeadlock | core/locked_queue.hpp:26-72 | if no thread in a call can move, all of them are consumers of an empty queue, or all are producers of a full one |
| LockedQueue.QuietRunsEnd | core/locked_queue.hpp:26-89 | without new calls and spurious wakeups a run has at most seven moves for each thread |
| LockedQueue.CallsSettle | core/locked_queue.hpp:26-89 | such a run can go on until every call has returned or is blocked with good reason: consumers on an empty queue, or producers on a full one |
| LockedQueue.StaysFifo | core/locked_queue.hpp:26-86 | items are stored at the back of a queue with room and taken from its front; results reach their caller; a try call is refused exactly when full or empty |
| LockedQueue.CallIsHonest | core/locked_queue.hpp:26-86 | in every run, a call that returns Stored is a push or try_push whose moves appended its item and did nothing else; one that returns Taken(x) is a pop or try_pop whose moves removed x from the front and did nothing else; a refused one is a try form that did nothing |
| Cards.RoundIsPasses | exercises/cards.cpp:66-95 | a round by positions: the even positions, reversed, are the bottom of the next deck, and above them lie, by the same rule, the odd ones, beginning with the table exactly when the number of cards is even |
| Cards.RoundDealsEvens | exercises/cards.cpp:68-95 | the card at position 2k lies at position n - 1 - k of the next deck |
| Cards.RoundOfFour | exercises/cards.cpp:68-95 | a round of 0, 1, 2, 3 leaves 3, 1, 2, 0 |
| Cards.RoundIsFixed | exercises/cards.cpp:66-98 | a round rearranges every deck of the same size by the same positions |
| Cards.RoundKeepsCards | exercises/cards.cpp:66-98 | a round keeps the cards |
| Cards.BackAfterFactorial | exercises/cards.cpp:98 | N! rounds restore the deck, so both loops end |
| Cards.OrderIsUnique | exercises/cards.cpp:66-168 | the least positive number of rounds is unique and at most N!, so both programs agree |
| Cards.OrderRestoresAnyDeck | exercises/cards.cpp:66-100 | that many rounds restore any deck, not only the sequential one |
| Cards.ReferenceRound | exercises/cards.cpp:68-95 | the queue and the stack compute the round, which is the one described by positions |
| Cards.ReferenceImpl | exercises/cards.cpp:57-101 | returns the least positive number of rounds that restores the deck |
| Cards.PassStep | exercises/cards.cpp:142-149 | one turn of the inner loop: what is dealt and what is skipped follow the queue-and-stack deal |
| Cards.StridedPass | exercises/cards.cpp:136-153 | one pass deals as the queue would; next + 1 stays the number of undealt cards, so no write leaves the table |
| Cards.StridedRound | exercises/cards.cpp:121-156 | one strided round writes the deck one queue-and-stack round leaves, which is the one described by positions |
| Cards.IsSequential | exercises/cards.cpp:162-164 | the comparison loop decides whether the deck is in order |
| Cards.OptimizedImpl | exercises/cards.cpp:104-169 | returns the least positive number of rounds that restores the deck |
| Dijkstra.WalkInMatrix | exercises/dijkstra.cpp:36-39 | a walk steps along entries of the matrix that are not negative |
| Dijkstra.ZeroIsEdge | exercises/dijkstra.cpp:36-39 | a zero entry is an edge that costs nothing |
| Dijkstra.SumFits | exercises/dijkstra.cpp:37-43 | the sum compared is the weight of a path through distinct vertices, so it stays below INT_MAX |
| Dijkstra.RelaxStep | exercises/dijkstra.cpp:41-45 | an improved distance is again the weight of a path that follows the parents |
| Dijkstra.Relax | exercises/dijkstra.cpp:34-47 | after the loop the edges out of the visited vertices are accounted for |
| Dijkstra.Nearest | exercises/dijkstra.cpp:49-52 | selects a nearest unvisited vertex, or a visited one when no other has been reached |
| Dijkstra.DistancesRight | exercises/dijkstra.cpp:30-53 | at the end the distances below INT_MAX are those of the reachable vertices, and exact |
| Dijkstra.Search | exercises/dijkstra.cpp:20-53 | the main loop ends; distance[v] is the weight of a shortest walk for every vertex reached, which are exactly the reachable ones |
| Dijkstra.ParentStep | exercises/dijkstra.cpp:56-57 | each step of the parent walk takes one vertex off the path |
| Dijkstra.FindShortestPath | exercises/dijkstra.cpp:15-63 | returns a path from a to b through distinct vertices that no walk undercuts |
| Chains.LinkedByLetters | exercises/chains.cpp:8-15 | words are linked if and only if each starts with the letter the one before ends with |
| Chains.FillBuckets | exercises/chains.cpp:24-29 | bucket f holds the words that start with letter f |
| Chains.Expand | exercises/chains.cpp:46-51 | stacks exactly the words that may follow, and counts them as children |
| Chains.PopExhaustive | exercises/chains.cpp:38-51 | popping a word and stacking its followers loses no chain that is longer than the best |
| Chains.PopState | exercises/chains.cpp:38-51 | one turn keeps path, stack and counters in step, and the work left shrinks |
| Chains.UnwindState | exercises/chains.cpp:53-58 | unwinding keeps path, stack and counters in step, and loses no chain |
| Chains.WorkShrinks | exercises/chains.cpp:38-59 | a word on the stack outweighs all followers that may replace it |
| Chains.SearchFrom | exercises/chains.cpp:33-59 | the search from one word ends, with an answer at least as long as every chain from that word |
| Chains.Solve | exercises/chains.cpp:23-69 | the answer is a list of distinct words of the list, each starting with the last letter of the one before, that no other such list exceeds in length; the result has each of its words at its place, followed by a comma and a blank, and nothing else |
| Permutations.FallingIsLast | exercises/leetcode/31-next-permutation.cpp:18-23 | no rearrangement of a falling sequence comes after it |
| Permutations.RisingIsFirst | exercises/leetcode/31-next-permutation.cpp:22-23 | no rearrangement of a rising sequence comes before it |
| Permutations.NothingBetween | exercises/leetcode/31-next-permutation.cpp:18-23 | no rearrangement lies strictly between the part from the pivot on and what replaces it |
| Permutations.PivotGivesNext | exercises/leetcode/31-next-permutation.cpp:18-23 | pivot, swap and reversal give the immediate successor, duplicates included |
| Permutations.HasLaterIff | exercises/permute_lexigraphical.cpp:23-45 | exactly the falling arrangements have no successor |
| Permutations.NextIsUnique | exercises/leetcode/31-next-permutation.cpp:25-73 | the next arrangement is unique, so all three forms agree |
| Permutations.Finish | exercises/permute_lexigraphical.cpp:38-39 | the swap and the reversal in place |
| Permutations.FindPair | exercises/permute_lexigraphical.cpp:16-24 | the first in-order pair from the back; what follows it falls |
| Permutations.FindSwap | exercises/permute_lexigraphical.cpp:30-36 | the first element from the back larger than the pivot |
| Permutations.PermuteLexigraphical | exercises/permute_lexigraphical.cpp:10-48 | the range becomes its next arrangement; the flag is false exactly when it was the last one, which wraps to the sorted one; nothing else changes |
| Permutations.NextPermutation1 | exercises/leetcode/31-next-permutation.cpp:49-73 | the vector becomes its next arrangement |
| Permutations.AdjacentFind | exercises/leetcode/31-next-permutation.cpp:30-31 | the search for the pivot with reverse iterators |
| Permutations.FindLarger | exercises/leetcode/31-next-permutation.cpp:34-35 | the search for the swap with reverse iterators |
| Permutations.NextPermutation | exercises/leetcode/31-next-permutation.cpp:25-47 | the vector becomes its next arrangement |
| Combinations.InitialMask | exercises/leetcode/77-combinations.cpp:29-31 | the first mask: k entries set, in rising order |
| Combinations.Select | exercises/leetcode/77-combinations.cpp:34-40 | the values a mask selects |
| Combinations.SelectedIsCombination | exercises/leetcode/77-combinations.cpp:36-39 | a mask with k entries set selects k values of 1..n in increasing order |
| Combinations.SelectedInjective | exercises/leetcode/77-combinations.cpp:36-39 | different masks select different subsets |
| Combinations.MasksSize | exercises/leetcode/77-combinations.cpp:29-42 | there are C(n, k) masks with k entries set |
| Combinations.VisitNext | exercises/leetcode/77-combinations.cpp:41-42 | the step to the immediate successor leaves no mask out |
| Combinations.VisitedCount | exercises/leetcode/77-combinations.cpp:33-42 | no mask is met twice, and at the end all have been met |
| Combinations.AllListed | exercises/leetcode/77-combinations.cpp:33-44 | all masks met means all subsets listed, each once |
| Combinations.Combine | exercises/leetcode/77-combinations.cpp:23-45 | ends; lists exactly the k-element subsets of 1..n, each once and in increasing order, C(n, k) in all; of two rows the later has the least value in which they differ |
| GapControl.ShowsNext | exercises/gapcontrol.cpp:25-27 | writing the next number's entry to its slot keeps the ring showing the newest entry of every slot |
| GapControl.ContainsIffInWindow | exercises/gapcontrol.cpp:70-79 | the slot test says whether the number is among the last min(4096, n) of its direction, however often the counter has wrapped |
| GapControl.WindowShows | exercises/gapcontrol.cpp:81-88 | the slot of a number in the window shows its entry |
| GapControl.GapControl.constructor | exercises/gapcontrol.cpp:18-19 | starts with empty rings at the given numbers |
| GapControl.GapControl.Inject | exercises/gapcontrol.cpp:21-32 | hands out the next `count` outgoing numbers and returns the last of them, or 0 |
| GapControl.GapControl.TranslateRun | exercises/gapcontrol.cpp:39-48 | the loop of translate: consecutive numbers are consumed and given consecutive outgoing numbers |
| GapControl.GapControl.Translate | exercises/gapcontrol.cpp:34-52 | consumes up to its argument; it returns the number recorded for its own argument if and only if it consumes anything or the outgoing counter has come around to that number; when it consumes nothing it returns the next outgoing number |
| GapControl.RepeatedNumber | exercises/gapcontrol.cpp:34-52 | the next outgoing number is the one recorded for the number consumed last if and only if that was translated and the injections since, with it, are a multiple of 65536; when it was discarded, or nothing was consumed, the number shown is 0 |
| GapControl.RepeatRun | exercises/gapcontrol.cpp:34-52 | translate(5) three times on a new translator: the second call does not return the number recorded, the third, after 65535 injections, does |
| GapControl.GapControl.DiscardRun | exercises/gapcontrol.cpp:59-65 | the loop of discard |
| GapControl.GapControl.Discard | exercises/gapcontrol.cpp:54-68 | numbers skipped before the argument are translated if and only if the previous call was a translate; the rest are discarded |
| GapControl.GapControl.Contains | exercises/gapcontrol.cpp:70-79 | in every run: true exactly for the last min(4096, n) numbers of the direction |
| GapControl.GapControl.Lookup | exercises/gapcontrol.cpp:81-88 | in every run: the entry recorded for a number of the window |
| GapControl.MixedRun | exercises/gapcontrol.cpp:21-88 | translate(5), discard(8), inject(1), discard(10) on a new translator: what lookup then says of a number skipped before the first discard, of a discarded one, of one skipped before the second, and of the injected one |
| GapControl.Distances | exercises/gapcontrol.cpp:34-68 | outgoing distance = incoming distance - discards + injections between two translated packets |
| GapControl.InverseWhileHeld | exercises/gapcontrol.cpp:44-47 | while both rings hold a packet they show the same entry |
| GapControl.BackFromOutgoing | exercises/gapcontrol.cpp:70-88 | exactly when the outgoing ring shows the entry of a packet that the incoming ring holds |
| GapControl.BackFromIncoming | exercises/gapcontrol.cpp:70-88 | exactly when the incoming ring shows the entry of a packet that the outgoing ring holds |
| GapControl.NumberReused | exercises/gapcontrol.cpp:44-47 | once 65535 injections have brought the outgoing counter back, the outgoing ring shows another packet under the number of packet 5 -> 4, which the incoming ring still holds |
| GapControl.ReuseRun | exercises/gapcontrol.cpp:21-88 | the calls translate(5), inject(65535), translate(6) on a new translator, after which both directions contain the packet's numbers, and its outgoing number leads to another packet |
| Allocator.HeapTop | exercises/memory.cpp:453-456 | the front of the heap is a largest block |
| Allocator.MakeHeap | exercises/memory.cpp:424 | a rearrangement in heap order |
| Allocator.PopHeap | exercises/memory.cpp:472 | moves the top to the end and keeps the others in heap order |
| Allocator.Sort | exercises/memory.cpp:405 | a rearrangement in address order |
| Allocator.MergeStep | exercises/memory.cpp:415-416 | taking in the neighbour keeps the bytes covered |
| Allocator.MergeClose | exercises/memory.cpp:412-417 | a finished block touches no later one |
| Allocator.Coalesce | exercises/memory.cpp:408-417 | the two loops keep the bytes covered and leave no two non-empty blocks adjacent |
| Allocator.OneBlock | exercises/memory.cpp:399-425 | with nothing live, blocks that are not adjacent are one block, the region |
| Allocator.LargeBlockAllocator.constructor | exercises/memory.cpp:351-362 | one free block, the region |
| Allocator.LargeBlockAllocator.PushFree | exercises/memory.cpp:458-466 | adds a block to the heap and its size to free_bytes_ |
| Allocator.LargeBlockAllocator.PopFree | exercises/memory.cpp:468-476 | removes the top of the heap and its size from free_bytes_ |
| Allocator.LargeBlockAllocator.Allocate | exercises/memory.cpp:372-392 | null exactly when no single free block is large enough; else the front of a largest block; free and live blocks keep tiling the region and free_bytes_ the sum of free sizes |
| Allocator.LargeBlockAllocator.Deallocate | exercises/memory.cpp:394-397 | a live block becomes free; the tiling and the sum are kept |
| Allocator.LargeBlockAllocator.Defragment | exercises/memory.cpp:399-425 | keeps the free bytes and leaves no two adjacent free blocks |
| Allocator.FreeAll | exercises/memory.cpp:399-425 | once everything is given back, defragment leaves one block |
| Trie.GrownShaped | exercises/compounds.cpp:28-30 | growing 26 children changes no word and keeps every node where its path says |
| Trie.NothingBelow | exercises/compounds.cpp:42-44 | below a node without children there is no other node |
| Trie.Trie.Insert | exercises/compounds.cpp:25-37 | adds the word, unless it is empty, and nothing else |
| Trie.Trie.Contains | exercises/compounds.cpp:39-49 | true exactly for inserted words |
| Trie.SplitsUnroll | exercises/compounds.cpp:51-74 | a word splits if and only if it is a word, or a word in front leaves a rest that splits |
| Trie.RoundKeepsOpen | exercises/compounds.cpp:57-70 | what a round stacks stands for what it popped |
| Trie.Trie.Round | exercises/compounds.cpp:57-70 | one round keeps the question open and the sum of 2^length over the stack shrinks |
| Trie.Trie.IsCompound | exercises/compounds.cpp:51-74 | ends; true exactly when the word is a concatenation of two or more inserted words |
| Trie.Trie.Join | exercises/compounds.cpp:91-108 | the inserted words with the prefix, in lexicographic order |
| Trie.Trie.JoinAll | exercises/compounds.cpp:110-112 | every inserted word once, in lexicographic order |
| RemoveNth.Node.Leaf | exercises/remove-nth.cpp:45-55 | a leaf holds one live value |
| RemoveNth.Node.Inner | exercises/remove-nth.cpp:56-70 | an inner node's weights are the live values below its children |
| RemoveNth.InitNodeRecursive | exercises/remove-nth.cpp:39-71 | the tree holds the next values in order, and the rest is left over |
| RemoveNth.BuildTree | exercises/remove-nth.cpp:73-82 | the tree holds the list |
| RemoveNth.FindNthRecursive | exercises/remove-nth.cpp:118-141 | returns and removes the value numbered nth, keeping every weight equal to the live values below |
| RemoveNth.FindInLeft | exercises/remove-nth.cpp:128-132 | the step to the left child removes the value there and leaves the right child as it is |
| RemoveNth.FindInRight | exercises/remove-nth.cpp:134-138 | the step to the right child, dually |
| RemoveNth.FindNth | exercises/remove-nth.cpp:143-146 | returns the nth live value and removes it from the list |
| RemoveNth.Run | exercises/remove-nth.cpp:118-146 | any run of in-range queries is answered as the plain list answers it |
| RemoveNth.AnswersConserve | exercises/remove-nth.cpp:1-2 | answers and remaining values together are the list |
| NalUnits.FindZero | exercises/y4m.cpp:279 | skipping to the next zero byte skips no start code |
| NalUnits.ParseUnits | exercises/y4m.cpp:273-305 | the loop that patches the size of the last unit returns the units between start codes |
| NalUnits.ParseIsSplit | exercises/y4m.cpp:273-305 | the units and the gaps between them are the pieces of the byte stream |
| NalUnits.JoinSplit | exercises/y4m.cpp:273-305 | splitting a byte stream and joining it with the same start codes reproduces it |
| NalUnits.UnitsHaveNoCode | exercises/y4m.cpp:281-284 | no unit contains 00 00 01 |
| NalUnits.UnitsReproduce | exercises/y4m.cpp:273-305 | re-emitting the returned units reproduces any buffer from its first start code on; neither the units nor what comes before contain 00 00 01 |
| NalUnits.PayloadEnds | exercises/y4m.cpp:281-284 | exactly when a payload ends, for the splitter, where it ends |
| NalUnits.SplitJoin | exercises/y4m.cpp:273-305 | joining with any mix of start codes and splitting gives the payloads back exactly when each is separable from what follows |
| NalUnits.PayloadsComeBack | exercises/y4m.cpp:273-305 | the same for the units the splitter returns; payloads without 00 00 01 that do not end in 00 are always separable |
| BitStream.ShiftedIs | exercises/bitstream.cpp:34-35 | the two shifts of a byte cut out the bits wanted |
| BitStream.AppendIs | exercises/bitstream.cpp:37-38 | shifting the output and or-ing the bits appends them, modulo the output's width |
| BitStream.AppendBits | exercises/bitstream.cpp:28-42 | one turn of the loop appends the next bits of one byte |
| BitStream.BitStream.Read | exercises/bitstream.cpp:23-46 | all or nothing: the next n bits, most significant first, are appended, or nothing happens |
| BitStream.BitStream.ReadBit | exercises/bitstream.cpp:48-51 | the bit at the position, then one further |
| BitStream.BitStream.Seek | exercises/bitstream.cpp:53-57 | advances by as many bits as asked, or to the end; from past the end it moves on, and ends within the end if and only if it started there or went once around 2^32 |
| BitStream.SeekRun | exercises/bitstream.cpp:48-57 | a run that takes an empty reader past its end, where seek moves on |
| BitStream.ReadsCompose | exercises/bitstream.cpp:23-46 | of two readers, read(a) then read(b) on one leaves the output and position that read(a + b) leaves on the other, when so many bits are left; otherwise the second does nothing, and they differ exactly when one of the first two reads fits |
| BitStream.ReadHasRoom | exercises/bitstream.cpp:37-38 | with room in the output nothing is lost |
| BitStream.TryParseFixedWidth | exercises/bitstream.cpp:115-124 | the field holds the number the next bits spell, all of it up to 64 bits, or is invalid and the position stays |
| BitStream.TryParseVariableExpGolomb | exercises/bitstream.cpp:126-140 | value, width, position and validity of an Exp-Golomb field, in both outcomes |
| BitStream.ByteValue | exercises/bitstream.cpp:27-41 | the eight bits of a byte, most significant first, spell the byte |
| BitStream.FirstCodes | exercises/bitstream.cpp:126-140 | the codes of 0 to 3 are 1, 010, 011 and 00100 |
| BitStream.CodeRoundTrip | exercises/bitstream.cpp:126-140 | bits at any offset decode to v if and only if they spell the Exp-Golomb code of v |
| BitStream.DecodeCode | exercises/bitstream.cpp:126-140 | parsing the code of v returns v and advances by exactly its length |

## Left out

- Programs around the algorithms: `main` functions, printing, files, thread creation and timing.
- TicketQueue: the explicit fences and weaker memory orders (the atomics are sequentially consistent), the wrap of the 64-bit counters after 2^63 operations, fairness of the scheduler (a thread may never move), and element types other than int.
- LockedQueue: empty() and size(), which only read under the mutex, and element types other than int.
- Cards: the size of the variable-length arrays on the stack and the overflow of int for decks or round counts near 2^31.
- Dijkstra.FindShortestPath: which of several shortest paths is returned; for an unreachable b the source reads an entry of the parent array that was never written, so b has to be reachable.
- Chains.Solve: which of several longest chains is the answer; a word that is empty or not in lower-case letters is undefined in the source and not a Word here; the random word list is not modelled.
- Permutations: permute_reverse_lexigraphical, whose search can read past the end.
- Combinations.Combine: k > n, for which the source writes past the mask.
- GapControl: the scripted packet sequences of the source's own test driver.
- Allocator.MakeHeap: the arrangement a particular library's make_heap, push_heap and pop_heap leave; callers see a rearrangement in heap order only. Alignment is ignored by the source, and the parent allocator and the memory itself are not modelled. In defragment the end test comes before the read it guards.
- Allocator.LargeBlockAllocator.Allocate: a request of zero bytes, which would hand out a block that stays free, or pop from an empty list.
- Allocator: StaticAllocation, SmallBlockAllocator and the object factory.
- Trie: nodes are indices into one array instead of addresses, each grown array of children being 26 consecutive indices; letters other than a to z, for which the source throws, are not modelled.
- RemoveNth.InitNodeRecursive: an empty list, for which the source recurses without end; lists of one value, for which find_nth reads weights that were never set.
- NalUnits: the container format around the units and the encoder.
- BitStream.TryParseVariableExpGolomb: buffers without a one bit, which the source reads past, and more than 30 leading zeros, which overflow its 32-bit shift.
- BitStream: the map of named fields and its dispatch.
- Template, coroutine, property and signal wrappers, networking, encryption, graphics and the one-loop puzzles of the repository: foreign calls, language mechanics, or only easy members.
