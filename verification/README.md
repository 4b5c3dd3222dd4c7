# skutils in Dafny

A model of the containers, the coroutine runtime, the schedulers and the scanners of the skutils
library, with proofs of what they promise.  `dafny verify dfyconfig.toml` checks everything.

| file | what it models |
|---|---|
| `SkipLevels.dfy`, `SkipList.dfy` | the skip list: nodes on the heap, the search, the splice and unsplice loops, against a finite map |
| `Graph.dfy`, `UnionFind.dfy`, `UnionFindMap.dfy` | the adjacency matrix, union-find with path compression over an array, and over a map |
| `TaskMachine.dfy` | coroutine frames linked by continuation handles, against nested evaluation; `sync_await` |
| `WhenAll.dfy` | the `remaining`/`continuation` countdown of `when_all`, over all interleavings |
| `Heap.dfy`, `TopK.dfy` | the array heap with a user comparator, heap sort, the top-k and top-bottom-k queues |
| `EventBus.dfy`, `ThreadPool.dfy`, `EventLoop.dfy` | the schedulers, over all interleavings |
| `TreeText.dfy`, `ListOps.dfy` | the tree and list printers, list building and reversal in place |
| `Split.dfy`, `SplitAny.dfy`, `ArgParser.dfy` | string splitting, and the argument scanner |
| `TypeHash.dfy` | the 64-bit FNV-1a hash (draft-eastlake-fnv, section 2) |
| `Wrappers.dfy`, `Orders.dfy`, `Sequences.dfy`, `Threads.dfy` | shared datatypes, orders, sequences, sums over rows of threads |

Code that updates objects in place is modelled by classes whose methods are tied to functions of the
old state; what the library promises is then proved about those functions.  Code that runs on several
threads is modelled by a state, a datatype of steps, and `Do`; `CanRun` and `Exec` say what a run is,
and every result about runs holds for every sequence of steps in which each step is enabled in turn.
A section under a mutex, a spin lock or an atomic access is one step.

The coroutine machine follows ISO/IEC 14882:2020: await_ready, await_suspend and await_resume as in
section 7.6.2, initial and final suspension as in section 9.5.4.  A program says what a coroutine does at
each point of its text: compute and branch, have a side effect, return, throw, or await a task and go on
at a point that depends on its outcome.  Recursion and loops may depend on data in any way; what is
assumed is that every run ends, as an ordinal rank of the points that falls with every step.

Where the code does not do what one would expect of it, the project keeps the code and proves exactly
when it does:

- `get_random_level` can yield 21, one past the 20 levels (`SkipList.RandomLevelFits`); `Insert`
  requires that it has not.
- `adjustDown` and `adjustUp` use the comparator in opposite directions; what pops hand out of a heap
  built by pushes is in order exactly as `Heap.PushedDrainsInOrderExactlyWhen` says.
- a `when_all` can sleep for ever (`WhenAll.AwaitIsSureToPassExactlyWhen` from the state before
  the await, `WhenAll.SleepsForeverExactlyWhenLost` from the end of a run, `WhenAll.AWakeUpCanBeLost`),
  although `include/skutils/coroutine/task.h:313` says it completes when all tasks have.
- `sync_await` of a task that throws never returns (`TaskMachine.SyncAwait`), although
  `include/skutils/coroutine/sync_await.h:20` says it blocks until the task finishes.
- `EventBus::Stop` can hang in the join of the timer thread, which tests `stop_` before it takes the lock
  it sleeps on; whether it can is decided by the state `Stop` is called in
  (`EventBus.StopIsSureToReturnExactlyWhen`, `EventBus.StopCanHang`).
- `EventLoop::run` does not return when the queue is empty, as
  `include/skutils/coroutine/event_loop.h:26` and `:45` say, but when it was stopped; a `stop` before
  `run` is lost (`EventLoop.ReturnsExactlyWhenStopped`, `EventLoop.StopBeforeRunIsLost`).
- `treeToString` identifies trees of 32-bit values in which no value occurs again below itself exactly for
  the separators that satisfy `TreeText.Separates`: those with a character that is no digit, and those of
  nine or more digits that do not overlap themselves so that an int could take up some of them
  (`TreeText.InjectiveExactlyWhen`).  For such a separator, `TreeText.TextIsUniqueExactlyWhen` says of every
  tree whether another one has its text.
- `parse` and `get_value_with_default` throw when a list option was registered with a value that is no list;
  the contracts of `ArgParser` say exactly when.

## Model

| member | source | states |
|---|---|---|
| SkipLevels.NextAfterSplice | include/skutils/containers/skiplist.h:106-113 | after a node is spliced in behind the last node of each of its levels, the pointer of every node on every level is again the one its level prescribes |
| SkipLevels.NextAfterUnsplice | include/skutils/containers/skiplist.h:133-137 | the same after a node is taken out |
| SkipLevels.NextAfterInsert | include/skutils/containers/skiplist.h:106-113 | which pointers an inserted node cuts and which keep their target |
| SkipLevels.NextAfterRemove | include/skutils/containers/skiplist.h:133-137 | a pointer to a removed node leads where that node led; all others keep their target |
| SkipLevels.NextOfInserted | include/skutils/containers/skiplist.h:106-113 | the new node takes over the pointers of its predecessors |
| SkipLevels.OnlyTheLastCrosses | include/skutils/containers/skiplist.h:94-101 | only the last node in front of a place has a pointer that crosses it on a given level |
| SkipLevels.WalkVisitsTheTallNodes | include/skutils/containers/skiplist.h:69-81 | following one level goes strictly forwards, ends, and meets exactly the nodes linked on that level: a node of level L is on levels 0 to L-1 and no others |
| SkipLevels.HigherLevelIsSubchain | include/skutils/containers/skiplist.h:69-81 | level i+1 is the sub-chain of level i made of the taller nodes, in the same order |
| SkipLevels.NextThroughShorter | include/skutils/containers/skiplist.h:69-81 | a level jumps over exactly the nodes that are too short for it |
| SkipList.GetRandomLevel | include/skutils/containers/skiplist.h:59-66 | if one of the first 20 draws is not low, the level is the place of the first such draw; otherwise it is 21 |
| SkipList.RandomLevelFits | include/skutils/containers/skiplist.h:52-66 | the level fits the 20 levels if and only if one of the first 20 draws is not low; otherwise it is 21, which the commented-out version would have clamped |
| SkipList.SpliceKeepsLinks | include/skutils/containers/skiplist.h:106-113 | the splice loop leaves every level of every node linked as prescribed |
| SkipList.UnspliceKeepsLinks | include/skutils/containers/skiplist.h:133-137 | so does the unsplice loop |
| SkipList.SplicedPointerIsLinked | include/skutils/containers/skiplist.h:106-113 | pointer by pointer, what the splice loop writes is the next node of that level |
| SkipList.UnsplicedPointerIsLinked | include/skutils/containers/skiplist.h:133-137 | pointer by pointer, what the unsplice loop writes is the next node of that level |
| SkipList.LevelIsAChain | include/skutils/containers/skiplist.h:69-81 | in a valid list the pointers of a level, followed from any of its nodes, lead node by node along that level and end in nullptr |
| SkipList.InsertKeepsShape | include/skutils/containers/skiplist.h:92-114 | insertion keeps keys strictly sorted, nodes distinct and the head on all levels |
| SkipList.RemoveKeepsShape | include/skutils/containers/skiplist.h:116-141 | so does removal |
| SkipList.InsertKeepsEntries | include/skutils/containers/skiplist.h:92-114 | the list with the new node carries the map with the new entry |
| SkipList.RemoveKeepsEntries | include/skutils/containers/skiplist.h:116-141 | the list without the node carries the map without its key, one entry fewer |
| SkipList.AssignKeepsEntries | include/skutils/containers/skiplist.h:83-90 | writing one value changes one entry of the map |
| SkipList.AbsentBehind | include/skutils/containers/skiplist.h:94-104 | a key is in the map if and only if it is the key right behind the last smaller one |
| SkipList.SkipList.constructor | include/skutils/containers/skiplist.h:30 | an empty list is valid and stands for the empty map |
| SkipList.SkipList.Advance | include/skutils/containers/skiplist.h:69-75 | one level of the search ends at the last node below the key that is linked there |
| SkipList.SkipList.Find | include/skutils/containers/skiplist.h:68-81 | the node with the key if the map has it, nullptr if not |
| SkipList.SkipList.Predecessors | include/skutils/containers/skiplist.h:92-101 | on each of the 20 levels, the last node below the key |
| SkipList.SkipList.Splice | include/skutils/containers/skiplist.h:106-113 | the loop redirects exactly the pointers of the predecessors and fills the new node |
| SkipList.SkipList.Unsplice | include/skutils/containers/skiplist.h:133-137 | the loop redirects exactly the pointers that led to the node |
| SkipList.SkipList.Link | include/skutils/containers/skiplist.h:104-114 | a fresh node behind its predecessors: the list stays valid and stands for the map with the entry |
| SkipList.SkipList.Unlink | include/skutils/containers/skiplist.h:127-141 | the node behind its predecessors: the list stays valid and stands for the map without the entry |
| SkipList.SkipList.Create | include/skutils/containers/skiplist.h:106-114 | a new node of the level drawn goes in behind its predecessors; no other node is made or lost |
| SkipList.SkipList.Insert | include/skutils/containers/skiplist.h:92-114 | inserts if and only if the key is absent; then the nodes are the old ones with one new node for the key put in, whose level is that of the draws: all before it are low and the one at it is not; the list stays valid and stands for the updated map |
| SkipList.SkipList.Erase | include/skutils/containers/skiplist.h:116-141 | erases if and only if the key is present; then exactly the node of the key is gone; the list stays valid and stands for the map without the key |
| SkipList.SkipList.Index | include/skutils/containers/skiplist.h:83-90 | the value behind a present key; nothing behind an absent one, where the source throws |
| SkipList.SkipList.Assign | include/skutils/containers/skiplist.h:83-90 | writing through the reference updates that entry and nothing else |
| SkipList.SkipList.Size | include/skutils/containers/skiplist.h:37 | the number of entries of the map |
| SkipList.SkipList.Apply | include/skutils/containers/skiplist.h:92-141 | each call of a history keeps the list valid, moves it as the map moves, and puts in a node of the level drawn, takes one out, or changes no node |
| SkipList.RunHistory | include/skutils/containers/skiplist.h:92-141 | after every history of inserts and erases the list is valid, holds what a finite map holds, and each of its nodes has the level drawn by the insert that made it |
| SkipList.LevelsStayDrawn | include/skutils/containers/skiplist.h:92-141 | a call leaves every other node its level: if all nodes have the level of the draws of their insert, they still have afterwards |
| Graph.MirroredIsSymmetric | include/skutils/containers/graph.h:36-45 | the constructor of an undirected graph makes a symmetric matrix of the entries below the diagonal |
| Graph.Graph.Empty | include/skutils/containers/graph.h:28 | an empty graph is valid |
| Graph.Graph.FromNodes | include/skutils/containers/graph.h:30-34 | all entries are the dummy weight |
| Graph.Graph.FromMatrix | include/skutils/containers/graph.h:36-45 | a directed graph keeps the matrix, an undirected one mirrors its lower triangle; either way the graph is valid, so symmetric when undirected |
| Graph.Graph.AddNode | include/skutils/containers/graph.h:51-59 | adds a row and a column of dummy weights, keeps all entries and the symmetry |
| Graph.Graph.AddEdge | include/skutils/containers/graph.h:61-73 | writes one entry, and its mirror image when undirected; an index out of range, also a negative first one, changes nothing |
| Graph.ConnectedTransitive | include/skutils/containers/unionfind_set.h:135-156 | being joined by a path of nonzero edges, whatever their direction, is transitive |
| Graph.ConnectedSymmetric | include/skutils/containers/unionfind_set.h:135-156 | and symmetric |
| Graph.LinkConnects | include/skutils/containers/unionfind_set.h:135-156 | and holds along an edge |
| Graph.ConnectedToItself | include/skutils/containers/unionfind_set.h:135-156 | and is reflexive |
| UnionFind.ClimbEndsAtRep | include/skutils/containers/unionfind_set.h:160-166 | the parent links of an element end, within its rank, at the root its class is named after |
| UnionFind.RepRanksLower | include/skutils/containers/unionfind_set.h:160-166 | an element that is not a root ranks above its root, so find terminates |
| UnionFind.PointAtRep | include/skutils/containers/unionfind_set.h:160-166 | path compression keeps every class and the set of roots |
| UnionFind.HangRootUnderRoot | include/skutils/containers/unionfind_set.h:168-176 | hanging one root under another merges exactly two classes and leaves one root fewer |
| UnionFind.MergeKeepsSound | include/skutils/containers/unionfind_set.h:147-153 | merging along an edge keeps classes inside components |
| UnionFind.PathStaysInClass | include/skutils/containers/unionfind_set.h:147-153 | if edges stay inside classes, paths do |
| UnionFind.ClassesAreComponents | include/skutils/containers/unionfind_set.h:135-156 | after the scan two nodes share a class if and only if a path of nonzero edges, direction ignored, joins them; below the diagonal is enough when the matrix is symmetric |
| UnionFind.RootsCountComponents | include/skutils/containers/unionfind_set.h:135-156 | there are as many roots as connected components |
| UnionFind.SameComponent | include/skutils/containers/unionfind_set.h:135-156 | two nodes have the same component if and only if they share a class |
| UnionFind.ComponentsOfRoots | include/skutils/containers/unionfind_set.h:135-156 | different roots stand for different components |
| UnionFind.UnionFindSet.constructor | include/skutils/containers/unionfind_set.h:129-133 | n singletons, counted n |
| UnionFind.UnionFindSet.FromGraph | include/skutils/containers/unionfind_set.h:135-156 | two nodes are in one class if and only if a path joins them, and cnt is the number of connected components |
| UnionFind.UnionFindSet.ScanRow | include/skutils/containers/unionfind_set.h:147-153 | one row of the scan joins the ends of all its edges and nothing that no path joins |
| UnionFind.UnionFindSet.Find | include/skutils/containers/unionfind_set.h:160-166 | returns the old root, leaves every element on the path it followed at that root and every other parent as it was or at its root, and changes no class |
| UnionFind.UnionFindSet.Connect | include/skutils/containers/unionfind_set.h:168-176 | merges exactly the classes of a and b and lowers cnt when they were two |
| UnionFind.UnionFindSet.Normalize | include/skutils/containers/unionfind_set.h:178-184 | afterwards every parent is the root of its class; no class changes |
| UnionFind.UnionFindSet.IsConnected | include/skutils/containers/unionfind_set.h:186 | true if and only if both are in one class; no class changes |
| UnionFindMap.RepIsRoot | include/skutils/containers/unionfind_set.h:64-73 | every class is named after a root in it |
| UnionFindMap.HangRootUnderRoot | include/skutils/containers/unionfind_set.h:75-82 | hanging one root under another merges exactly two classes and leaves one root fewer |
| UnionFindMap.AddRoot | include/skutils/containers/unionfind_set.h:45-50 | a new key is a class of its own |
| UnionFindMap.UnionFindSet.Add | include/skutils/containers/unionfind_set.h:45-50 | adds a singleton if and only if the key is new |
| UnionFindMap.UnionFindSet.Find | include/skutils/containers/unionfind_set.h:64-73 | the root of the key, or that the key does not exist; nothing changes |
| UnionFindMap.UnionFindSet.Connect | include/skutils/containers/unionfind_set.h:75-82 | merges exactly two classes; a missing key changes nothing |
| UnionFindMap.UnionFindSet.AddPair | include/skutils/containers/unionfind_set.h:52-62 | both keys are present afterwards and in one class |
| TaskMachine.EvalMeans | include/skutils/coroutine/task.h:51-67 | the recursive run from any point of a program has the outcome and the side effects of the plain meaning of nested calls, whatever numbers its frames carry |
| TaskMachine.OnceEach | include/skutils/coroutine/task.h:39-67 | every task awaited in a run is started once, finishes once, and its continuation is resumed once |
| TaskMachine.LogOnceEach | include/skutils/coroutine/task.h:39-67 | the same for the log of a machine, with the task that was resumed from outside |
| TaskMachine.PlugTakesTime | include/skutils/coroutine/task.h:120-128 | every suspended frame still takes a step, so the machine stops |
| TaskMachine.AwaitUnfolds | include/skutils/coroutine/task.h:120-125 | starting a child and remembering the caller leaves the run that is left unchanged |
| TaskMachine.ReturnUnfolds | include/skutils/coroutine/task.h:96-104 | returning or throwing leaves the run that is left unchanged |
| TaskMachine.LocalUnfolds | include/skutils/coroutine/task.h:39-45 | so does a statement that neither awaits nor returns |
| TaskMachine.ResumeUnfolds | include/skutils/coroutine/task.h:101-113 | so does resuming the caller with the outcome |
| TaskMachine.Frame.AwaitSuspend | include/skutils/coroutine/task.h:122-126 | stores the caller as continuation and transfers to the task |
| TaskMachine.Frame.FinalSuspend | include/skutils/coroutine/task.h:51-67 | transfers to the continuation, or nowhere when there is none |
| TaskMachine.Frame.Settle | include/skutils/coroutine/task.h:41-45 | at its end a body leaves the value it returns or the exception it throws in the promise |
| TaskMachine.Frame.Result | include/skutils/coroutine/task.h:101-113 | rethrows the exception if there is one, otherwise hands over the value |
| TaskMachine.Runtime.StartChild | include/skutils/coroutine/task.h:120-126 | one transition: the child becomes the running frame of the chain that still means the same run |
| TaskMachine.Runtime.AwaitResume | include/skutils/coroutine/task.h:127-128 | one transition: the caller goes on with the outcome of exactly the task it awaited |
| TaskMachine.Runtime.Finish | include/skutils/coroutine/task.h:51-67 | one transition: control goes to the frame that awaited this one |
| TaskMachine.Runtime.LocalStep | include/skutils/coroutine/task.h:39-45 | one transition inside a body |
| TaskMachine.Runtime.Transfer | include/skutils/coroutine/task.h:51-128 | every transition keeps the chain of continuations and uses up one step of the run it stands for |
| TaskMachine.Runtime.Resume | include/skutils/coroutine/task.h:51-128 | for every program that terminates, resuming a fresh task on the machine of frames and handles ends with the outcome, the event log and the frame count of the recursive run, and every frame in its log is started once, finishes once, and has its continuation resumed once |
| TaskMachine.WaiterSets | include/skutils/coroutine/sync_await.h:55-58 | the waiter sets the event, with the value, if and only if the task returns one |
| TaskMachine.SyncAwait | include/skutils/coroutine/sync_await.h:49-68 | gives back the value of the task if and only if the task does not throw; otherwise the event is never set and the wait never ends |
| WhenAll.CountingKept | include/skutils/coroutine/task.h:290-307 | in every step `remaining` stays the number of wrappers that have not subtracted yet, and the wrapper that saw 1 is unique |
| WhenAll.StoringKept | include/skutils/coroutine/task.h:290-307 | a wrapper stores its result or exception before it subtracts, in its own slot |
| WhenAll.StartingKept | include/skutils/coroutine/task.h:323-348 | the wrappers are started in order before the await |
| WhenAll.HandingKept | include/skutils/coroutine/task.h:235-277 | who has read what of `remaining` and `continuation`, and at most one resume on its way |
| WhenAll.EndingKept | include/skutils/coroutine/task.h:323-348 | the caller ends with every value in its slot, or with an exception that some task raised |
| WhenAll.SafeInEveryRun | include/skutils/coroutine/task.h:235-348 | in every interleaving: the counter is exact, one wrapper at most sees it fall from 1, the caller passes only when all have finished, and then sees slot i equal to the value of task i or rethrows an exception some task raised |
| WhenAll.RethrowsTheLast | include/skutils/coroutine/task.h:273-297 | in every run the exception stored, and the one rethrown, is that of the last wrapper that stored one; a caller that returned values has seen none |
| WhenAll.NoTasksNoSteps | include/skutils/coroutine/task.h:325-326 | of no tasks the caller gets an empty list at once: there is nothing to run |
| WhenAll.PassesOnce | include/skutils/coroutine/task.h:266-277 | the caller passes its await at most once |
| WhenAll.LooksOnce | include/skutils/coroutine/task.h:298-305 | at most one wrapper ever looks for the continuation |
| WhenAll.LooksExactlyOnce | include/skutils/coroutine/task.h:298-305 | in a run that is over exactly one wrapper has seen the counter fall from 1 and looked |
| WhenAll.OverMeans | include/skutils/coroutine/task.h:266-307 | a run that is over has ended all wrappers, and has the caller suspended if and only if the wake-up was lost |
| WhenAll.ReadsAreRecorded | include/skutils/coroutine/task.h:266-307 | the reads remembered in the state are those of the run |
| WhenAll.SleepsForeverExactlyWhenLost | include/skutils/coroutine/task.h:266-307 | a run that is over leaves the caller suspended if and only if await_ready saw a nonzero count and get_continuation was loaded before set_continuation; otherwise the caller has returned or rethrown |
| WhenAll.AWakeUpCanBeLost | include/skutils/coroutine/task.h:266-307 | a concrete run of one task that leaves the caller suspended |
| WhenAll.AwaitIsSureToPassExactlyWhen | include/skutils/coroutine/task.h:266-307 | seen from the state before await_ready: every run that is over has the caller returned or rethrown if and only if nothing remains then, as when all tasks have run synchronously |
| WhenAll.AwaitMaySleep | include/skutils/coroutine/task.h:266-307 | and otherwise some run leaves it asleep |
| WhenAll.RunSeesZero | include/skutils/coroutine/task.h:266-271 | once the count is zero before await_ready, no continuation of the run makes the caller suspend |
| WhenAll.StepUsesUp | include/skutils/coroutine/task.h:235-348 | every step uses up work |
| WhenAll.RunsAreBounded | include/skutils/coroutine/task.h:235-348 | no run is longer than the work there is at its start |
| Heap.DownStep | include/skutils/containers/heap.h:56-69 | one turn of the sift down moves the only possible violation to the chosen child |
| Heap.DownStop | include/skutils/containers/heap.h:56-69 | where the sift down stops there is no violation |
| Heap.UpStep | include/skutils/containers/heap.h:71-77 | one turn of the sift up moves the only possible violation to the parent, in the opposite order |
| Heap.TopIsLast | include/skutils/containers/heap.h:79-95 | in the order of build and pop nothing stored comes after the top |
| Heap.TopIsFirst | include/skutils/containers/heap.h:79-103 | in the order of push nothing stored comes before the top |
| Heap.BothOrdersOnlyOnTies | include/skutils/containers/heap.h:56-77 | a heap in the order of push also satisfies the order of build and pop if and only if all its elements are ties |
| Heap.SiftDownRepairs | include/skutils/containers/heap.h:56-69 | the sift down repairs one possible violation |
| Heap.SiftDownRearranges | include/skutils/containers/heap.h:56-69 | and permutes the live part |
| Heap.PopKeeps | include/skutils/containers/heap.h:87-95 | a pop takes out the top, keeps everything else, and keeps the order of build and pop |
| Heap.DrainedIsAll | include/skutils/containers/heap.h:87-95 | pops hand out every live element once |
| Heap.DrainedInOrder | include/skutils/containers/heap.h:87-114 | in the order of build and pop, no element handed out comes before a later one |
| Heap.PushedDrainsInOrderExactlyWhen | include/skutils/containers/heap.h:71-103 | a heap built by pushes hands its elements out first to last if and only if all but the top are ties, and last to first if and only if all are |
| Heap.DrainedReverseOnlyOnTies | include/skutils/containers/heap.h:71-103 | the harder half of that: otherwise a pop brings an element up before a smaller one |
| Heap.LastStaysOnTop | include/skutils/containers/heap.h:71-95 | when the pops hand out first to last, the last element ties with the top's children and stays where the pop puts it |
| Heap.PopAll | include/skutils/containers/heap.h:105-114 | the loop of sort hands out what the pops of this heap hand out |
| Heap.Heap.FromValues | include/skutils/containers/heap.h:24-31 | a heap in the order of build and pop with exactly the given elements |
| Heap.Heap.BuildHeap | include/skutils/containers/heap.h:49-54 | establishes the order over the whole live part and permutes it |
| Heap.Heap.AdjustDown | include/skutils/containers/heap.h:56-69 | the loop computes the sift down, which repairs one possible violation of the order of build and pop, permutes the live part and touches nothing else |
| Heap.Heap.AdjustUp | include/skutils/containers/heap.h:71-77 | the loop computes the sift up, by a permutation, and repairs one possible violation of the order of push |
| Heap.Heap.Top | include/skutils/containers/heap.h:79-85 | the first live element; no live element comes after it in the one order, before it in the other |
| Heap.Heap.Pop | include/skutils/containers/heap.h:87-95 | takes exactly the top out, leaves the array that the sift down makes, and keeps the order of build and pop |
| Heap.Heap.Push | include/skutils/containers/heap.h:97-103 | adds exactly the value, where the sift up takes it, and keeps the order of push |
| Heap.Sort | include/skutils/containers/heap.h:105-114 | a permutation of the input in which comp(out[i], out[j]) holds for no i < j |
| TopK.ReversedFlips | include/skutils/containers/topk_queue.h:15-23 | the reversed comparator is the flipped one, a strict weak order again, and reversing twice gives the first |
| Orders.TopExists | include/skutils/containers/topk_queue.h:31 | a nonempty priority queue has a top: an element that none comes after |
| TopK.Exchange | include/skutils/containers/topk_queue.h:58-64 | letting a better element in and the worst out keeps the best ones |
| TopK.Reject | include/skutils/containers/topk_queue.h:58-67 | a value that does not beat the worst element kept can be dropped |
| TopK.TopKQueue.Push | include/skutils/containers/topk_queue.h:58-68 | the queue holds the min(k, n) best of everything pushed: the value is added while there is room, takes the place of the worst one if it beats it, and is dropped if it does not |
| TopK.TopKQueue.Pop | include/skutils/containers/topk_queue.h:70-81 | empties the queue, best element first |
| TopK.BestIsTopK | include/skutils/containers/topk_queue.h:58-81 | what is handed out is a best-first list of the min(k, n) best |
| TopK.NotBetterAt | include/skutils/containers/topk_queue.h:58-81 | of two such lists neither has a better element at any place |
| TopK.TopKIsDetermined | include/skutils/containers/topk_queue.h:58-81 | the keys handed out depend only on the multiset pushed, position by position |
| TopK.BetterPermuted | include/skutils/containers/topk_queue.h:58-81 | how many elements beat one does not depend on the order |
| TopK.TopBottomKQueue.Apply | include/skutils/containers/topk_queue.h:114-117 | one locked half of a push feeds one of the two queues |
| TopK.PushSchedule | include/skutils/containers/topk_queue.h:114-117 | each queue receives exactly the values of its halves, whatever the interleaving |
| TopK.RunSchedule | include/skutils/containers/topk_queue.h:114-121 | after every interleaving of complete pushes the two sides hand out the top k and the bottom k of what was pushed |
| TopK.Drain | include/skutils/containers/topk_queue.h:119-121 | hands out the top k of everything pushed |
| TreeText.ReadDecimal | include/skutils/containers/lc.h:43-72 | decimal digits can be read back |
| TreeText.DecimalRead | include/skutils/containers/lc.h:43-72 | and are the only ones that read as that number |
| TreeText.ShowInjective | include/skutils/containers/lc.h:43-72 | different values print differently |
| TreeText.TraversalsAreRealizable | include/skutils/containers/lc.h:43-72 | the traversals of a tree can be cut, at every node, into traversals again |
| TreeText.RealizableHasTree | include/skutils/containers/lc.h:43-72 | and sequences that can are the traversals of a tree |
| TreeText.TraversalsDetermineTree | include/skutils/containers/lc.h:43-72 | a tree whose traversals can be cut in one way only at every node is the only one with these traversals |
| TreeText.AmbiguousTreeHasTwin | include/skutils/containers/lc.h:43-72 | every other tree shares its traversals with a different one |
| TreeText.NoneRepeatsIsUnambiguous | include/skutils/containers/lc.h:43-72 | a tree in which no value occurs again below itself is of the first kind |
| TreeText.DistinctNoneRepeats | include/skutils/containers/lc.h:43-72 | as is one of distinct values |
| TreeText.TextIsTerminated | include/skutils/containers/lc.h:43-72 | the streams hold the traversals with a separator behind every value |
| TreeText.TextOfTree | include/skutils/containers/lc.h:43-72 | the text is both traversals joined by the separator |
| TreeText.TextOfNil | include/skutils/containers/lc.h:43-72 | the text of the empty tree for every separator: taking off a separator that was not printed takes from the brackets |
| TreeText.ShowCancels | include/skutils/containers/lc.h:43-72 | a printed number in front of a separator can be told from what follows |
| TreeText.JoinedInjective | include/skutils/containers/lc.h:43-72 | a joined list of numbers determines the numbers, for a separator with a character that is no digit |
| TreeText.DifferentEnds | include/skutils/containers/lc.h:43-72 | for a separator of nine or more digits: joined lists of ints that end differently make the separator overlap itself, shifted by at most nine places, with last digits that can begin an int |
| TreeText.DigitsJoinedInjective | include/skutils/containers/lc.h:43-72 | so, without such an overlap, a joined list of ints determines the ints |
| TreeText.JoinedDetermines | include/skutils/containers/lc.h:43-72 | a joined list of ints determines the ints when the separator separates: it holds a character that is no digit, or is nine or more digits without such an overlap |
| TreeText.ShortConfuses | include/skutils/containers/lc.h:43-72 | up to eight digits fit into one int with a number on either side |
| TreeText.OverlapConfuses | include/skutils/containers/lc.h:43-72 | and such an overlap lets two other ints take up digits of the separator |
| TreeText.JoinedConfuses | include/skutils/containers/lc.h:43-72 | so for every separator that does not separate, two different lists of distinct ints have one joined text |
| TreeText.ZerosSeparate | include/skutils/containers/lc.h:43-72 | nine or more zeros separate |
| TreeText.TextDeterminesTraversals | include/skutils/containers/lc.h:43-72 | for a separator that separates, two texts are equal if and only if the traversals are, for all trees of ints |
| TreeText.NilText | include/skutils/containers/lc.h:43-72 | the text of the empty tree is no other tree's |
| TreeText.TextIdentifiesTree | include/skutils/containers/lc.h:43-72 | equal texts force equal trees when in one of them no value occurs again below itself, in particular when its values are distinct, for a separator that separates |
| TreeText.TextIsUniqueExactlyWhen | include/skutils/containers/lc.h:43-72 | for such a separator, a tree is the only one with its text if and only if at no node the traversals can be cut at another occurrence of its value into two realizable pairs |
| TreeText.SeparatorConfuses | include/skutils/containers/lc.h:43-72 | for any other separator two different trees of distinct ints have one text |
| TreeText.RepeatedValueConfuses | include/skutils/containers/lc.h:43-72 | an example of the other kind: a node with one child of the same value |
| TreeText.InjectiveExactlyWhen | include/skutils/containers/lc.h:43-72 | treeToString tells the trees of ints in which no value occurs again below itself from all others, and the nonempty trees of distinct ints from each other, if and only if the separator separates |
| ListOps.VectorToList | include/skutils/containers/lc.h:93-102 | a null-terminated list of fresh nodes with the values in order |
| ListOps.ReverseList | include/skutils/containers/lc.h:108-123 | the same nodes linked the other way round, null-terminated |
| ListOps.BackwardsTwice | include/skutils/containers/lc.h:108-123 | reversing twice gives the first order |
| ListOps.ListToString | include/skutils/containers/lc.h:74-83 | the values joined by the separator, in brackets |
| ListOps.ListTextIdentifiesValues | include/skutils/containers/lc.h:74-83 | equal texts force equal lists of ints, repetitions included, for a separator that separates |
| ListOps.ListTextInjectiveExactlyWhen | include/skutils/containers/lc.h:74-83 | listToString is injective on lists of ints if and only if the separator separates |
| ListOps.TextOfList | include/skutils/containers/lc.h:74-83 | the text of a nonempty list is its joined values in brackets, that of the empty list is two brackets or what a one-character separator leaves of them, and no other list has one that short |
| Split.SplitBy | include/skutils/string_utils.h:75-99 | the loop yields the pieces of the greedy scan |
| Split.ScanIsGreedy | include/skutils/string_utils.h:75-99 | the scan cuts at the leftmost delimiter each time and leaves no empty piece |
| Split.GreedyIsUnique | include/skutils/string_utils.h:75-99 | there is only one such way to take a string apart |
| Split.ScanRebuilds | include/skutils/string_utils.h:75-99 | pieces and delimiters in order are the string again |
| Split.PiecesHoldNoDelimiter | include/skutils/string_utils.h:75-117 | no piece is empty or contains the delimiter |
| Split.LengthsAddUp | include/skutils/string_utils.h:75-117 | lengths of the pieces and the delimiters found add up to the length of the string |
| Split.SplitChar | include/skutils/string_utils.h:101-108 | the result is, in order, exactly the longest nonempty stretches of the string that hold no delimiter |
| Split.PiecesAreFields | include/skutils/string_utils.h:75-108 | the same for any greedy cut at single characters: each piece lies between delimiters or ends of the string, and no such stretch is left out |
| Split.DelimsAreChars | include/skutils/string_utils.h:101-108 | what is cut out is the character asked for |
| Split.NoCharInPieces | include/skutils/string_utils.h:75-108 | the same for any greedy cut |
| Split.SplitString | include/skutils/string_utils.h:110-117 | the pieces of the scan for a string, none empty, none containing it |
| Split.DelimsAreTheString | include/skutils/string_utils.h:110-117 | what is cut out is the string asked for |
| Split.FindIsFirst | include/skutils/string_utils.h:64-73 | find gives the first match |
| Split.Count | include/skutils/string_utils.h:64-73 | count finds as many occurrences as split finds delimiters |
| Split.DelimsFrom | include/skutils/string_utils.h:64-99 | from every position, the searches of count and the scan of split meet the same delimiters |
| Split.PiecesAndCountAddUp | include/skutils/string_utils.h:64-117 | total piece length plus count times delimiter length is the length of the string |
| SplitAny.LessIsStrictWeak | include/skutils/string_utils.h:119-129 | the order the delimiters are sorted by is a strict weak one |
| SplitAny.FirstIsLongest | include/skutils/string_utils.h:119-129 | in the sorted list the first delimiter that matches is the longest that matches |
| SplitAny.SplitStrings | include/skutils/string_utils.h:119-129 | split by a list of strings cuts, at each place, the longest delimiter that starts there; no piece is empty or contains a delimiter |
| SplitAny.DelimsAreListed | include/skutils/string_utils.h:119-129 | what is cut out is one of the strings asked for |
| SplitAny.PiecesAreClean | include/skutils/string_utils.h:119-129 | the same for any greedy cut |
| SplitAny.SortedFindsLongest | include/skutils/string_utils.h:119-129 | so the loop over the sorted list finds what the unsorted list determines |
| SplitAny.DelimiterOrderIsIrrelevant | include/skutils/string_utils.h:119-129 | the order in which the delimiters are listed does not matter |
| SplitAny.SplitChars | include/skutils/string_utils.h:131-141 | the result is, in order, exactly the longest nonempty stretches of the string that hold none of the characters |
| SplitAny.PiecesHoldNoChar | include/skutils/string_utils.h:131-141 | the same for any greedy cut |
| ArgParser.ReadingLosesNothing | include/skutils/argparser.h:168-226 | the items read, written out again, are the tokens: each token has exactly one role |
| ArgParser.ItemsAreProper | include/skutils/argparser.h:168-226 | what each role means: values go to options that take one, runs hold no option names, what is left over comes last and begins with no option |
| ArgParser.ItemsMeanTheirTokens | include/skutils/argparser.h:179-221 | a value is its token for a string option and the number read from it for the others, a token is given back exactly when it is no number, a value is missing only at the end, and a run ends at the next option name or at the end |
| ArgParser.OptionsAreIndependent | include/skutils/argparser.h:173-226 | an option ends up as its own items make it |
| ArgParser.LastValueWins | include/skutils/argparser.h:186-209 | an option that takes one value keeps the last one it was given; missing and bad values leave it alone |
| ArgParser.ListCollectsAllRuns | include/skutils/argparser.h:210-222 | a list option that holds a list, or nothing, ends up with the tokens of all its runs, in order, behind what it held |
| ArgParser.RunsBelongToLists | include/skutils/argparser.h:173-226 | the items of a list option are its runs and no other option has one |
| ArgParser.OptionAfterParsing | include/skutils/argparser.h:168-226 | for every argument list and registry, what each option holds after parsing that does not throw |
| ArgParser.StringHoldsLastToken | include/skutils/argparser.h:186-204 | after parsing a string option holds the last token given to it, as it is |
| ArgParser.TokensAreCut | include/skutils/argparser.h:152-163 | no token is empty or holds an equals sign |
| ArgParser.TokensInOrder | include/skutils/argparser.h:152-159 | the tokens follow one another in the order of the arguments |
| ArgParser.StripsEach | include/skutils/argparser.h:162 | every token is stripped in its place |
| ArgParser.HelpIsRegistered | include/skutils/argparser.h:148-149 | the two help flags are added, unless the names are taken, and nothing else changes |
| ArgParser.StripTakesBlanks | include/skutils/string_utils.h:46-50 | strip takes blanks off both ends and nothing else |
| ArgParser.ArgParser.AddArg | include/skutils/argparser.h:84-91 | a name without a leading dash and a name already there change nothing |
| ArgParser.ArgParser.ParseArgument | include/skutils/argparser.h:187-199 | one option with its value: a bad number gives its token back, and the index still moves on |
| ArgParser.ArgParser.ParseList | include/skutils/argparser.h:210-222 | one list option with its run; throws if and only if the option holds a value that is no list |
| ArgParser.ArgParser.ParseOption | include/skutils/argparser.h:173-226 | every turn of the main loop consumes exactly one item, so the index grows, or throws |
| ArgParser.ArgParser.TakeFront | include/skutils/argparser.h:168-171 | the front arguments are the longest prefix without an option name |
| ArgParser.ArgParser.TakeBack | include/skutils/argparser.h:174-184 | the back arguments are all tokens from there on |
| ArgParser.ArgParser.ParseTokens | include/skutils/argparser.h:168-226 | front arguments, registry and back arguments after the scan, in terms of the items up to the first that makes it throw |
| ArgParser.ArgParser.Parse | include/skutils/argparser.h:147-227 | the same from argv; throws if and only if a token holds blanks only or an item makes the scan throw |
| ArgParser.ArgParser.GetValue | include/skutils/argparser.h:93-99 | the value of an option that has one |
| ArgParser.ArgParser.GetValueWithDefault | include/skutils/argparser.h:101-127 | list, front and back arguments of a list option, nothing when they are all empty; throws if and only if the option holds a value that is no list |
| EventBus.TaskQueue.Push | include/skutils/event_manager.h:155-163 | appends, unless the queue is stopped |
| EventBus.TaskQueue.Pop | include/skutils/event_manager.h:165-173 | hands out the front; tells the worker to exit only when stopped and empty |
| EventBus.TaskQueue.Stop | include/skutils/event_manager.h:175-181 | stops the queue and keeps what is in it |
| EventBus.StepKeepsInv | include/skutils/event_manager.h:55-125 | every step of every thread keeps the conservation of events, the queue order, the timeliness and the progress of Stop |
| EventBus.RunRecords | include/skutils/event_manager.h:55-182 | clock, number of events, deadlines and the closing of the queue are in every run what the steps have said |
| EventBus.LettingInIsRecorded | include/skutils/event_manager.h:55-109 | the events accepted are those handed to a queue that was open, in order |
| EventBus.FiringIsRecorded | include/skutils/event_manager.h:96-104 | the events fired are those the timer thread took when due, in order |
| EventBus.NoTimerNoDeadline | include/skutils/event_manager.h:91-92 | the timer thread sleeps without a deadline only while no timer is pending, or when it is about to wake |
| EventBus.NothingIsOverlooked | include/skutils/event_manager.h:55-109 | a run that can go no further although Stop was not called has done every event published, and all workers wait |
| EventBus.OneFate | include/skutils/event_manager.h:55-182 | in every run each event published is in exactly one place: pending, in hand, accepted once, or dropped once, and that by a stopped queue only |
| EventBus.StartedInOrderAndOnce | include/skutils/event_manager.h:77-85 | in every run the events started are a prefix of those the queue let in, each once, and are with one worker or done |
| EventBus.NeverEarly | include/skutils/event_manager.h:62-109 | in every run an event published with a delay that has reached the task queue, or is on its way, was published at least that delay before the time the clock shows |
| EventBus.FiresExactlyWhenDue | include/skutils/event_manager.h:96-107 | the timer thread takes an event if and only if the time it has read has reached the time of publishing plus the delay; that event is the earliest one pending; otherwise it goes to sleep until that time |
| EventBus.TimersFireInOrder | include/skutils/event_manager.h:87-109 | while nothing delayed is published, timers fire in the order of read time plus delay, and before all that are still pending |
| EventBus.ShutStep | include/skutils/event_manager.h:112-182 | once the task queue is stopped nothing is accepted and every step of the bus uses up work |
| EventBus.AfterStop | include/skutils/event_manager.h:112-182 | in every continuation: nothing more accepted, and no more steps of the bus than work left |
| EventBus.LateEventsNeverStart | include/skutils/event_manager.h:155-163 | what was not accepted before the queue was stopped never starts |
| EventBus.StopDrains | include/skutils/event_manager.h:77-125 | a run that is over after Stop was called has an empty queue and has run every accepted event to its end, in order |
| EventBus.StopIsSureToReturnExactlyWhen | include/skutils/event_manager.h:87-125 | seen from the state Stop is called in: it returns from every run that is over if and only if the timer thread is not between its test of stop_ and its lock or some delayed event is pending |
| EventBus.StopReturns | include/skutils/event_manager.h:87-125 | one half: in particular a delayed event pending at the call makes Stop return |
| EventBus.StopMayHang | include/skutils/event_manager.h:87-125 | the other half: from every other state some run hangs |
| EventBus.StopHangsExactlyWhenOverslept | include/skutils/event_manager.h:87-125 | seen from the end of a run: Stop has not returned if and only if the timer thread went to sleep without a deadline behind notify_all, and nothing delayed was published and no stray wake-up came since |
| EventBus.StopCanHang | include/skutils/event_manager.h:87-125 | a run in which Stop never returns |
| ThreadPool.WorkQueue.Push | include/skutils/threadpool.h:29-37 | appends |
| ThreadPool.WorkQueue.Pop | include/skutils/threadpool.h:39-47 | hands out the front, or nothing when empty |
| ThreadPool.WorkQueue.Empty | include/skutils/threadpool.h:24-27 | whether nothing is queued |
| ThreadPool.StepKeepsInv | include/skutils/threadpool.h:62-110 | every step of every thread keeps order, conservation and the exclusion of the lock |
| ThreadPool.SubmissionsAreRecorded | include/skutils/threadpool.h:62-110 | the tasks submitted and the flag are in every run what the steps have said |
| ThreadPool.WorkIsTaken | include/skutils/threadpool.h:72-84 | a worker that finds the queue nonempty takes its first task |
| ThreadPool.WokenTakesWhatIsThere | include/skutils/threadpool.h:72-84 | a worker that wakes takes the first task there is without another look at the flag, or goes back to its test with nothing |
| ThreadPool.TakenInOrderAndOnce | include/skutils/threadpool.h:18-110 | in every run the tasks taken are a prefix of the push order, each submitted task is queued, with one worker, or done once, and submitted = queued + in flight + done |
| ThreadPool.ShutdownAbandonsTheRest | include/skutils/threadpool.h:62-70 | when the workers are joined the tasks done are exactly the prefix taken, and exactly the rest of the queue is abandoned |
| ThreadPool.EmptyHandedAfterWaiting | include/skutils/threadpool.h:72-84 | only a worker that waited can find the queue empty |
| ThreadPool.AfterShutdown | include/skutils/threadpool.h:62-84 | once isRunning_ is false all workers together take no more tasks than there are workers past its test |
| ThreadPool.EachTakesOneMoreAtMost | include/skutils/threadpool.h:62-84 | and each worker takes one more at most, none if it was not past the test |
| EventLoop.StepKeepsInv | include/skutils/coroutine/event_loop.h:37-73 | every step keeps the order of tasks across queue, batch and swap |
| EventLoop.PostsAreRecorded | include/skutils/coroutine/event_loop.h:37-43 | the tasks posted are in every run those of the steps, in order |
| EventLoop.DrainedInOrder | include/skutils/coroutine/event_loop.h:37-64 | in every run, also with posts from running tasks: tasks popped, batch and queue are the tasks posted, in order, and those that can be called are called once each when it is their turn |
| EventLoop.CallsAreExact | include/skutils/coroutine/event_loop.h:58-63 | a task is called exactly when it can be and its turn has come, in order |
| EventLoop.StopEndsWithTheBatch | include/skutils/coroutine/event_loop.h:47-73 | after stop exactly the batch at hand is finished, and what was posted behind it stays in the queue |
| EventLoop.ReturnsExactlyWhenStopped | include/skutils/coroutine/event_loop.h:47-73 | a loop with nothing left to do has returned if and only if stop was called after run; otherwise it waits with everything popped |
| EventLoop.RunningMeansUnstopped | include/skutils/coroutine/event_loop.h:47-73 | running_ is set if and only if the latest call was run |
| EventLoop.StopBeforeRunIsLost | include/skutils/coroutine/event_loop.h:47-73 | a run in which stop is called before run and the loop waits for ever |
| EventLoop.LoopIsBounded | include/skutils/coroutine/event_loop.h:47-64 | between two calls of run the loop takes no more steps than the work at the start and eight for each post or stop |
| EventLoop.LastBatchIsBounded | include/skutils/coroutine/event_loop.h:47-73 | a stopped loop in its last batch returns within two steps for each task of the batch and two more, whatever is posted |
| TypeHash.XorTwice | include/skutils/typeinfo.h:13-20 | exclusive or is undone by doing it again |
| TypeHash.XorBits | include/skutils/typeinfo.h:13-20 | bit by bit, exclusive or is set where exactly one of the two is |
| TypeHash.MultiplyIsUndone | include/skutils/typeinfo.h:13-20 | multiplication by the odd prime has an inverse modulo 2^64 |
| TypeHash.TurnIsBijective | include/skutils/typeinfo.h:13-20 | for a fixed character a turn of the loop is a bijection of the 64-bit states |
| TypeHash.TurnTellsCharacters | include/skutils/typeinfo.h:13-20 | for a fixed state different characters give different states |
| TypeHash.Hash | include/skutils/typeinfo.h:13-20 | the loop computes the fold of the turns from the offset |
| TypeHash.HashOneMore | include/skutils/typeinfo.h:13-20 | the empty string has the offset; one more character is put in, sign-extended, before the multiplication by the prime |
| TypeHash.HashConcat | include/skutils/typeinfo.h:13-20 | hashing a concatenation is hashing on |
| TypeHash.SuffixKeepsCollisions | include/skutils/typeinfo.h:13-20 | a common suffix neither creates nor removes a collision |
| TypeHash.OneCharacterTells | include/skutils/typeinfo.h:13-20 | strings that differ in exactly one character have different TypeIDs |
| TypeHash.RewindUndoesHash | include/skutils/typeinfo.h:13-20 | the state before a string can be computed back |

## Left out

Weaker or narrower than the code:

- SkipList.SkipList.Insert: requires, when the key is absent, that one of the first 20 draws is not low, because the level is 21 otherwise and the source then indexes its `update` vector out of range; keys are `int` with `<`, not any ordered type.
- SkipList.RunHistory: histories of inserts and erases; the other calls have their own contracts and change no key.
- Heap.Heap.Top: of heaps in which pushes and pops are mixed only the elements are accounted for, because the two keep opposite orders.
- TopK.PriorityQueue.Settle: `std::priority_queue` is modelled by its contract, some element that none comes after; its own heap is not.
- TopK.TopKQueue.Push: capacity 0 and comparators that are no strict weak order are required away; assignment operators are left out.
- SplitAny.SplitStrings: `std::sort` is stood in for by the library's own heap sort; any sort by that order gives the same pieces.
- Split.SplitString: the empty delimiter is required away; the source would not advance on it.
- Split.Count: the empty substring is required away; the source would not advance on it.
- ArgParser.ArgParser.Parse: `stoi` and `stod` are parameters; log lines and `show_help` are left out, and so is the branch that skips unexpected arguments, which `COLLECT_UNEXPECTED_ARGS` switches off; the comparison of `argv[i]` with `"="` compares pointers and has no effect.
- Graph.Graph.AddEdge: a negative second index behind a valid first one is required away; the source writes out of range.
- Graph.Graph.FromMatrix: matrices that are not square are required away; the source keeps one as it is when the graph is directed.
- TaskMachine.Runtime.Resume: programs that do not terminate, tasks of other types than `int`, awaiting one task object twice, and awaitables other than tasks are not covered.
- TaskMachine.SyncAwait: one waiting thread; a task that suspends for an external event is not modelled, and that a throw blocks for ever is stated as `BlocksForever`.
- ThreadPool.TakenInOrderAndOnce: safety only; `submit` pushes without the pool's mutex, so a worker can miss a notification, and no liveness is claimed.
- EventBus.StopDrains: a worker in `Pop` goes on as soon as the predicate of its wait holds; which of them a `notify_one` wakes is not modelled.

Not modelled:

- weak memory orderings: all steps are sequentially consistent.
- the lifetime of coroutine frames, moves and destruction of tasks, and the detached thread after it has resumed its caller.
- the `when_all` of two tasks, which runs the protocol of `WhenAll` with two wrappers and typed slots.
- the subscriber map and the callbacks of the event bus, futures of the thread pool, and exceptions thrown by tasks on worker threads.
- the scheduler threads as methods: their loops are the steps of the state machines, so update in place is shown only for the queues they share.
- the generic union-find constructor from a graph: it scans as the one over indices does, which is modelled.
- `toString`, `toStringHelper`, `dump`, `Graph::toString` and `buildRandomGraph`: printing and random input.
- the regex based `replace`, `trim` and `expandUser`, `isspace`, `contains` and other one-line helpers.
- `random.h`, `spinlock.h`, `generator.h`, `noncopyable.h`, `config.h`: easy members.
- files, processes, sockets, io_uring, logging, printing and the single-header copy of the library.
