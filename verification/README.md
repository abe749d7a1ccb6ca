# Verification of the S-CORE base libraries

A Dafny model of the parts of the base libraries that are hardest to get right, and proofs about it.

* **Thread pool** (`PoolMachine`, `PoolSafety`, `PoolTheorems`, `PoolProgress`, `PoolStops`). `ThreadPool` with the
  interruptible condition variable inlined, as a machine in which every lock, unlock, block, wake-up, flag store and
  flag load is one step of one thread. Any number of workers and clients, any schedule, spurious wake-ups. The theorems
  speak about every state of every run.
* **Notification and queue** (`NotificationMachine` to `NotificationProgress`, `QueueMachine` to `QueueCalls`). The
  interruptible waits with and without a deadline, on stop tokens that any number of waiters may share,
  `NotificationBasic` on top of them, and the single-reader `SynchronizedQueue` as a machine that contains the
  notification machine.
* **Paths** (`PathText` to `PathObject`). The splitter, the four rewriting passes and the printer behind
  `LexicallyNormal`, append, parent, filename, stem and extension; first as functions with their laws, then as the
  `Path` object whose loops are proved to compute those functions. Where a path leads is defined independently, by
  walking its components from a base directory.
* **Intrusive list** (`IntrusiveList`, `OtherLists`). Elements with `next` and `prev` pointers around a sentinel; every
  modifier is proved to keep the ring, to do to the sequence of elements what its name says, and to leave every other
  list alone.
* **JSON** (`JsonValue` to `JsonTreeBuilder`, `JsonSerializer`, `JsonRoundTrip`, `JsonNumber`, `JsonFaults`,
  `JsonErrors`). The tree builder with its stack of raw pointers, on an explicit memory in which a growing list moves
  its elements, is shown to refine a builder without pointers. The typed serializer is a pair of functions over all
  nested types; decoding may also run into code that must not be reached, and exactly when it does is proved.
* **Floating point** (`FloatingPoint`). Binary formats with gradual underflow and rounding to nearest, ties to even, for
  the casts between the number types of JSON values.
* **Fake file system** (`FileTree`, `FilePaths`, `FakeFileSystem`). The entries as a graph in which anything could be
  linked anywhere; the operations keep directories a tree. Built on the path model.
* **Capability list** (`Capability`). The nested loop that removes duplicates in place, and the list to drop.

`Wrappers` and `Counting` hold what several of these share.

Choices worth knowing:

* Atomics are sequentially consistent. In the pool each worker has its own stop source, as there; in the notification
  machine a wait names its token, and a stop request starts the listed callbacks of the token one after another, in
  any order.
* In the machines the predicate a wait checks reads only data guarded by the caller's mutex.
* A disposer is modelled by the log of the elements it was called with; it can only be called with an unlinked element.
* Numbers held as `float` or `double` are the reals of the format, an infinity or a NaN; a cast to `float` rounds.
  Integers keep their width and signedness.
* A cast from `float` to `double` ends in code marked unreachable (lossless_cast.cpp:281-289), and a cast from NaN to an
  integer in a conversion without defined behaviour; both are outcomes of the model, next to success and refusal.
* `Path::ParentPath` is `None` where its backward scan would read before the text; `PathSplit.ParentOutOfRange` says
  exactly when.
* Reading back what `JsonSerializer` wrote does not give every value of every type back; `JsonRoundTrip.SafeIffRoundTrips`
  says for exactly which types it does.

## Model

| member | source | states |
|---|---|---|
| PoolTheorems.RunInv | score/concurrency/thread_pool.cpp:65-153 | every state of every run, with any number of workers, clients and spurious wake-ups, satisfies all the invariants of the pool |
| PoolTheorems.NoTaskBesideASleeper | score/concurrency/thread_pool.cpp:65-93 | while a worker sleeps or is committed to sleep there are at most as many queued tasks as workers that are awake in their wait and have not yet taken a task, plus one if an enqueuer is between push and notify |
| PoolTheorems.ExactlyOnce | score/concurrency/thread_pool.cpp:126-153 | every task handed over is in exactly one place (enqueuer, queue, worker, done), and tasks leave the queue in the order they entered |
| PoolTheorems.NeverStranded | score/concurrency/thread_pool.cpp:65-93 | once any worker has left its loop the queue is empty for good and accepts nothing more |
| PoolTheorems.JoinedMeansDone | score/concurrency/thread_pool.cpp:105-119 | with every worker joined, the tasks the queue accepted are exactly those the workers completed |
| PoolTheorems.StoppedSleeperIsWoken | score/concurrency/condition_variable.h:147-182 | a blocked worker whose token is stopped is about to be woken by the thread that stops it |
| PoolTheorems.NoSleepAfterShutdown | score/concurrency/thread_pool.cpp:105-119 | once some shutdown has returned no worker is blocked, then or ever after |
| PoolTheorems.StopReachesEveryTask | score/concurrency/thread_pool.cpp:83-153 | once some shutdown has returned, every task that runs on a worker or inside `Enqueue` has its stop source requested |
| PoolStops.NoStopWithoutShutdown | score/concurrency/thread_pool.cpp:105-153 | a task is asked to stop only if it was handed over, and not before a `Shutdown` was called and has stored its flag; before that no task runs inside `Enqueue` and no worker leaves |
| PoolStops.ActiveIsCurrent | score/concurrency/thread_pool.cpp:65-93 | a worker's entry in `active_` is the task it is at, and is cleared when that is completed |
| PoolStops.StopsJustifiedStep | score/concurrency/thread_pool.cpp:105-153 | each step keeps: whoever is asked to stop was handed over, and the flag is set |
| PoolSafety.MutexesStep | score/concurrency/condition_variable.h:163-182 | each of the two mutexes is held by exactly the thread whose program counter says so |
| PoolSafety.StopStableStep | score/concurrency/condition_variable.h:147-160 | a worker that found its stop flag unset under the pool's mutex still has it unset while it holds that mutex; a callback never has to run inline in the pool |
| PoolSafety.StopHandshakeStep | score/concurrency/condition_variable.h:133-182 | each step keeps: a waiter that sleeps with its token stopped has a `notify_all` outstanding |
| PoolSafety.NoLostWakeupStep | score/concurrency/condition_variable.h:124-179 | each step keeps the inequality between queued tasks and wake-ups under way, `notify_one` being free to pick any sleeper |
| PoolSafety.StopReachesStep | score/concurrency/thread_pool.cpp:105-153 | each step keeps: whatever task a worker holds or takes after the shutdown has swept it will have been asked to stop |
| PoolSafety.LeftEmptyStep | score/concurrency/thread_pool.cpp:65-93 | each step keeps: if a worker has left, the queue is empty |
| PoolSafety.OnePlaceStep | score/concurrency/thread_pool.cpp:126-153 | each step keeps: every task is in exactly one place |
| PoolSafety.InOrderStep | score/concurrency/thread_pool.cpp:76-144 | each step keeps first in, first out, and what left the queue is with a worker or done |
| PoolProgress.LockOrder | score/concurrency/condition_variable.h:53-72 | no thread is given the pool's mutex while it holds the internal one |
| PoolProgress.NoDeadlock | score/concurrency/thread_pool.cpp:65-153 | in every reachable state with unfinished business some thread can take a step |
| PoolProgress.AtRestMeansDone | score/concurrency/thread_pool.cpp:65-153 | when nothing is in progress the queue is empty, every task handed over ran exactly once, and after a shutdown every worker has exited |
| PoolProgress.InternalMeasureStep | score/concurrency/thread_pool.cpp:65-153 | every step the pool takes by itself lowers a natural-number measure |
| PoolProgress.BoundedRun | score/concurrency/thread_pool.cpp:65-153 | in every run the steps the pool takes by itself are bounded by a constant for each call and each spurious wake-up: no schedule keeps it busy for ever |
| PoolProgress.StuckMeansDone | score/concurrency/thread_pool.cpp:65-153 | where a run can go no further by itself, all tasks are done exactly once and, after a shutdown, all workers have exited |
| NotificationTheorems.RunInv | score/concurrency/notification.h:102-177 | every state of every run of waits, notifies, resets and stops, with any number of threads on any number of stop tokens, satisfies the invariants |
| NotificationTheorems.WaitContract | score/concurrency/condition_variable.h:147-182 | a wait returns with the caller's lock held and the value of the predicate in that state; false only if stop was requested or the deadline passed |
| NotificationTheorems.NoLostStopOrNotify | score/concurrency/condition_variable.h:321-341 | a thread that sleeps beside a set flag is about to be woken by a notifier still on the way; one that sleeps although its token was stopped has its callback running, before the wake-up, or still listed with a thread that runs the callbacks of that token |
| NotificationDeadlines.SleepsInTime | score/concurrency/condition_variable.h:232-288 | a timed wait that sleeps, or is about to, has read the clock since it began or was last woken, and found time left |
| NotificationDeadlines.DeadlineEndsTheWait | score/concurrency/condition_variable.h:232-288 | a wait whose last clock read was past its deadline never sleeps again: it is evaluating the predicate or returning |
| NotificationDeadlines.ResultIsFlag | score/concurrency/condition_variable.h:147-288 | what a wait hands to its caller is the flag at that moment |
| NotificationDeadlines.DeadlinesStep | score/concurrency/condition_variable.h:232-288 | each step keeps: timed waits go on only with time left at their last look, untimed ones never look |
| NotificationCallbacks.NoLateCallback | score/language/futurecpp/src/stop_token.cpp:88-129 | outside its wait a thread has no callback listed or being run |
| NotificationCallbacks.OneCallbackAtATime | score/language/futurecpp/src/stop_token.cpp:74-162 | no two threads run callbacks of one token, which is the precondition of `execute` |
| NotificationCallbacks.FlagIsStored | score/concurrency/notification.h:128-177 | where `notify` gives up the lock the flag is set, where `reset` does it is clear |
| NotificationProgress.InternalMeasureStep | score/concurrency/condition_variable.h:147-341 | every step of a call, and every callback started, lowers a natural-number measure |
| NotificationProgress.BoundedRun | score/concurrency/condition_variable.h:147-341 | in every run the steps inside calls are bounded by a constant for each call, each spurious wake-up or timeout and each change of the clock: no wait spins |
| NotificationProgress.StuckMeansJustified | score/concurrency/notification.h:102-177 | where a run can go no further by itself, every thread is idle, or asleep in a wait that was neither notified nor stopped |
| NotificationTheorems.LockOrder | score/concurrency/condition_variable.h:53-72 | no thread is given the caller's mutex while it holds the internal one |
| NotificationTheorems.NoDeadlock | score/concurrency/condition_variable.h:147-341 | some thread can go on in every reachable state that is not at rest |
| NotificationTheorems.SleepIsJustified | score/concurrency/notification.h:102-177 | at rest a thread sleeps only if it was not notified and no stop was requested on its token: one stop request reaches every waiter of the token |
| NotificationSafety.ResultsStep | score/concurrency/condition_variable.h:232-288 | each step keeps what a wait knows under the lock about the flag, the stop and the deadline |
| NotificationSafety.StopsRequestedStep | score/language/futurecpp/src/stop_token.cpp:131-162 | each step keeps: whoever runs the callbacks of a token has requested stop on it |
| NotificationSafety.CallbacksListedStep | score/language/futurecpp/src/stop_token.cpp:30-129 | each step keeps: between registering and deregistering, the callback of a waiter is listed or stop was requested on its token |
| NotificationSafety.StopperGoesOn | score/language/futurecpp/src/stop_token.cpp:142-162 | a thread that runs the callbacks of a token does not finish while one of them is listed |
| NotificationSafety.StopHandshakeStep | score/concurrency/condition_variable.h:147-182 | each step keeps: a sleeper whose token is stopped has its callback running or still to be run |
| NotificationSafety.NotifyHandshakeStep | score/concurrency/notification.h:128-177 | each step keeps: a sleeper beside a set flag has a notify outstanding |
| QueueSafety.StepInside | score/concurrency/synchronized_queue.h:98-190 | every step of the queue is one step of the notification machine or leaves it alone |
| QueueSafety.RunInv | score/concurrency/synchronized_queue.h:98-190 | every state of every run with one reader and any number of senders satisfies the invariants |
| QueueSafety.QueueIsFaithful | score/concurrency/synchronized_queue.h:98-190 | popped items followed by the queue are the accepted pushes in order, the size never exceeds the maximum, and the assertion in `Pop` never fires |
| QueueSafety.NothingOverlooked | score/concurrency/synchronized_queue.h:98-122 | a `Pop` that returns nothing overlooked no completed push, and its token was stopped or its deadline passed |
| QueueCalls.PushIsRefusedOnly | score/concurrency/synchronized_queue.h:148-190 | a `push` that returns false found the queue gone, or full |
| QueueCalls.PushStoresItsItem | score/concurrency/synchronized_queue.h:148-190 | a `push` that returns true has stored the item it was called with, behind all others |
| QueueCalls.PopReturnsItem | score/concurrency/synchronized_queue.h:98-122 | a `Pop` that returns has popped exactly one item since it was called; or none, and then its own token was stopped or its own deadline passed |
| QueueSafety.FlagMeansItemStep | score/concurrency/synchronized_queue.h:98-190 | each step keeps: a set flag means that an item is queued |
| QueueSafety.CountsStep | score/concurrency/synchronized_queue.h:148-190 | each step keeps the relation between pushes, signals and the flag |
| QueueProgress.NoDeadlock | score/concurrency/synchronized_queue.h:98-190 | in every state of every run that is not at rest some thread can go on: the queue's mutex, the notification's mutex and the internal one cannot block each other |
| QueueProgress.SleepBesideAnItem | score/concurrency/synchronized_queue.h:98-190 | a reader asleep in `Pop` beside a queued item has a sender on its way from the push to the wake-up |
| QueueProgress.RestIsJustified | score/concurrency/synchronized_queue.h:98-190 | where nothing can go on, a reader asleep in `Pop` has an empty queue and an unstopped token |
| PathText.NamesConcat | score/filesystem/path.cpp:584-640 | splitting distributes over a separator, for all texts |
| PathText.ResolveByNames | score/filesystem/path.cpp:584-640 | where a path leads depends only on whether it is absolute and on its names |
| PathNormal.NormalIsForm | score/filesystem/path.cpp:234-303 | the four passes and the printer compute the normal form that is described independently |
| PathMeaning.NormalKeepsMeaning | score/filesystem/path.cpp:234-303 | for every text and every base directory a path and its normal form lead to the same directory |
| PathMeaning.NormalShape | score/filesystem/path.cpp:234-303 | the normal form is the text itself (empty, one component, only separators) or a dot, or an optional root, dot-dots in relative paths only, plain names, and at most one final separator |
| PathMeaning.NormalIdempotent | score/filesystem/path.cpp:234-303 | normalizing twice is normalizing once |
| PathMeaning.ReadBack | score/filesystem/path.cpp:98-115 | splitting a printed list of parts gives back its root, its names and its final separator |
| PathMeaning.AbsoluteNormal | score/filesystem/path.cpp:234-303 | an absolute path normalizes to the text of the directory it denotes |
| PathSplit.AppendAssociative | score/filesystem/path.cpp:192-213 | append is associative on native strings and the empty path is its left identity |
| PathSplit.ResolveAppend | score/filesystem/path.cpp:566-571 | following `p / q` is following `q` from where `p` leads |
| PathSplit.SplitAndRejoin | score/filesystem/path.cpp:374-503 | `RemoveFilename` then `Filename` is the path; `Stem` then `Extension` is `Filename` |
| PathSplit.ReplaceExtensionExact | score/filesystem/path.cpp:471-490 | with a filename present, `ReplaceExtension` keeps the stem and sets the extension if and only if the new extension has no separator and, written with a leading dot, no other dot, and does not turn the name into dot-dot; the empty extension, if and only if the stem has none of its own |
| PathSplit.ParentOutOfRange | score/filesystem/path.cpp:344-370 | the backward scan leaves the text for exactly the paths made of two or more separators and one name |
| PathSplit.ParentAndFilename | score/filesystem/path.cpp:344-407 | parent and filename rejoin to the path if and only if it is only separators or its last separator stands alone |
| PathSplit.NormalRejoins | score/filesystem/path.cpp:344-407 | of every normalized path the scan stays inside the text, and parent and filename rejoin to it |
| PathSplit.RejoinCounterexample | score/filesystem/path.cpp:344-370 | two texts for which rejoining fails, one of them by leaving the text |
| PathObject.Path.Parse | score/filesystem/path.cpp:584-621 | the parser leaves exactly the parts of the text and its assertion holds |
| PathObject.Path.AddPathPartsToParts | score/filesystem/path.cpp:630-640 | the reading loop appends the non-empty pieces in order |
| PathObject.Path.AppendAssign | score/filesystem/path.cpp:192-213 | the text becomes the append of the two, also when a path is appended to itself |
| PathObject.Path.ReplaceExtensionWith | score/filesystem/path.cpp:471-490 | the text becomes the one with the extension replaced; a path given to itself is read after its extension is gone |
| PathObject.Path.RemoveFilenamePart | score/filesystem/path.cpp:494-503 | the text without its filename remains |
| PathObject.Path.Parent | score/filesystem/path.cpp:344-370 | the loop computes the parent, or reports the read before the text |
| PathObject.Path.LexicallyNormal | score/filesystem/path.cpp:234-291 | the object code computes the normal form of its text |
| PathObject.CopyWithoutDots | score/filesystem/path.cpp:234-291 | the copying loop keeps the parts that are not dots |
| PathObject.RemoveNamesFollowedByMoveUps | score/filesystem/path.cpp:68-94 | the scan that erases a pair and starts over ends with what a single sweep with a stack gives |
| PathObject.CancelErased | score/filesystem/path.cpp:68-94 | erasing a name and the dot-dot behind it anywhere does not change that result |
| PathObject.RemoveMoveUpsAfterRoot | score/filesystem/path.cpp:47-66 | the loop removes exactly the dot-dots right after the root |
| PathObject.CreateText | score/filesystem/path.cpp:98-115 | the printing loop prints the parts |
| IntrusiveList.Element.MoveFrom | score/containers/intrusive_list.h:71-81 | a move-constructed element takes its original's place between its neighbours, and the original is unlinked |
| IntrusiveList.InsertNodeBefore | score/containers/intrusive_list.h:642-648 | four pointer writes turn the ring into the ring with the node inserted |
| IntrusiveList.RemoveAndDisposeNode | score/containers/intrusive_list.h:651-659 | the ring closes over the node, which is unlinked before the disposer sees it |
| IntrusiveList.List.InsertBefore | score/containers/intrusive_list.h:462-468 | one element is inserted at the position, all others keep their order |
| IntrusiveList.List.PushFront | score/containers/intrusive_list.h:426-429 | the element is put in front |
| IntrusiveList.List.PushBack | score/containers/intrusive_list.h:431-434 | the element is put at the end |
| IntrusiveList.List.PopFront | score/containers/intrusive_list.h:441-447 | the first element leaves, unlinked and disposed of once |
| IntrusiveList.List.PopBack | score/containers/intrusive_list.h:454-460 | the last element leaves, unlinked and disposed of once |
| IntrusiveList.List.InsertRange | score/containers/intrusive_list.h:470-483 | the range stands between what was before and after the position; the result is its first element, or the position |
| IntrusiveList.List.Erase | score/containers/intrusive_list.h:489-498 | one element leaves, and the position after it is returned |
| IntrusiveList.List.EraseRange | score/containers/intrusive_list.h:505-517 | exactly the range leaves, each element unlinked and disposed of once in list order; the loop terminates although the ring changes under it |
| IntrusiveList.List.Clear | score/containers/intrusive_list.h:535-542 | the list is emptied from the front, each element unlinked and disposed of once in order |
| IntrusiveList.List.RemoveAndDisposeIf | score/containers/intrusive_list.h:581-598 | the elements that do not satisfy the predicate remain in order; the others are unlinked and disposed of once, in list order |
| IntrusiveList.FilterPartition | score/containers/intrusive_list.h:581-598 | what remains and what is disposed of are together the whole list, split by the predicate |
| IntrusiveList.List.DisposeAndAssign | score/containers/intrusive_list.h:322-332 | the list holds exactly the new elements, which may come from itself; the other old ones are unlinked |
| IntrusiveList.List.MoveAssign | score/containers/intrusive_list.h:289-312 | the ring of the other list is taken over, that list is empty, the old elements are unlinked; self-assignment changes nothing |
| IntrusiveList.List.MoveAssignBeside | score/containers/intrusive_list.h:289-312 | every third list is left as it is |
| IntrusiveList.List.Swap | score/containers/intrusive_list.h:519-528 | the two lists exchange their elements |
| IntrusiveList.List.MoveElement | score/containers/intrusive_list.h:71-81 | in a list, the new element stands where the old one stood |
| IntrusiveList.List.Size | score/containers/intrusive_list.h:391-394 | walking the ring counts the elements |
| IntrusiveList.ListsDisjoint | score/containers/intrusive_list.h:642-659 | lists with different sentinels share no element |
| OtherLists.PushFront | score/containers/intrusive_list.h:426-429 | putting an element in front leaves every other list as it is |
| OtherLists.PushBack | score/containers/intrusive_list.h:431-434 | so does putting one at the end |
| OtherLists.InsertBefore | score/containers/intrusive_list.h:462-468 | so does inserting one |
| OtherLists.InsertRange | score/containers/intrusive_list.h:470-483 | so does inserting a range |
| OtherLists.PopFront | score/containers/intrusive_list.h:441-447 | so does removing the first element |
| OtherLists.PopBack | score/containers/intrusive_list.h:454-460 | so does removing the last element |
| OtherLists.Erase | score/containers/intrusive_list.h:489-498 | so does erasing an element |
| OtherLists.EraseRange | score/containers/intrusive_list.h:505-517 | so does erasing a range |
| OtherLists.Clear | score/containers/intrusive_list.h:535-542 | so does clearing |
| OtherLists.RemoveAndDisposeIf | score/containers/intrusive_list.h:581-598 | so does removing by a predicate |
| OtherLists.DisposeAndAssign | score/containers/intrusive_list.h:322-332 | so does assigning new elements |
| OtherLists.MoveElement | score/containers/intrusive_list.h:71-81 | so does moving an element of one list |
| OtherLists.Swap | score/containers/intrusive_list.h:519-528 | swapping two lists leaves every third one as it is |
| JsonZipper.FeedDocument | score/json/json_parser.cpp:45-261 | the events of a document succeed if and only if every object in it has non-empty, distinct names, and then store the value it denotes |
| JsonZipper.WholeDocument | score/json/json_parser.cpp:146-159 | from the empty builder the result is that value |
| JsonBuilder.StepAgrees | score/json/json_parser.cpp:45-261 | each event does to the pointer-based tree what it does to the builder without pointers, and fails exactly when that fails, whether or not a list has to move |
| JsonBuilder.PointersStayLive | score/json/json_parser.cpp:204-241 | for every sequence of events no stacked pointer dangles; each points to the root or to the most recently stored element of the container below it |
| JsonBuilder.RelocateChain | score/json/json_parser.cpp:54-61 | growing the top list leaves every stacked pointer live |
| JsonBuilder.BuildsTheDocument | score/json/json_parser.cpp:45-261 | memory then holds exactly the value of the document, and otherwise the result is a parsing error |
| JsonBuilder.HoldsOne | score/json/json_parser.cpp:146-159 | what memory holds at an address is one value |
| JsonTreeBuilder.TreeBuilder.Store | score/json/json_parser.cpp:45-89 | the object code performs the store, in a list, in an object or at the root, with the errors for an empty and for a repeated name |
| JsonTreeBuilder.TreeBuilder.StartContainer | score/json/json_parser.cpp:214-232 | the object represents the builder without pointers with the container opened, or reports the error that one reports |
| JsonTreeBuilder.TreeBuilder.EndContainer | score/json/json_parser.cpp:234-241 | the object represents that builder with the container closed |
| JsonTreeBuilder.TreeBuilder.OnScalar | score/json/json_parser.cpp:161-212 | the object represents that builder with the value put in place, or reports the error that one reports |
| JsonTreeBuilder.TreeBuilder.On | score/json/json_parser.cpp:161-261 | each callback takes the object from representing one state of the builder without pointers to representing the next, and fails exactly when that fails |
| JsonTreeBuilder.TreeBuilder.GetData | score/json/json_parser.cpp:146-159 | fed the events of a document, the builder returns its value if the document is acceptable and an error if not |
| FloatingPoint.RoundKeepsIff | score/json/internal/model/lossless_cast.cpp:304-321 | rounding to a format gives a number back if and only if the format has it |
| FloatingPoint.RoundedIsRepresentable | score/json/internal/model/lossless_cast.cpp:304-321 | what rounding gives is a number of the format |
| FloatingPoint.RoundedIsNearest | score/json/internal/model/lossless_cast.cpp:304-321 | no number of the format is nearer than the rounded one |
| FloatingPoint.OverflowIff | score/json/internal/model/lossless_cast.cpp:292-321 | rounding overflows exactly from half a unit above the largest number of the format on |
| JsonNumber.CastKeepsAmountIff | score/json/internal/model/lossless_cast.cpp:325-400 | a cast that succeeds gives a value of the type asked for, and the same amount if and only if it does not read as `float` a `double` that is no float |
| JsonNumber.IntegerGivenIff | score/json/internal/model/lossless_cast.cpp:325-366 | an integer is given as an integer type exactly if all values of its own type are values of that one, or if it is stored without a sign, asked for with one and in range; otherwise it is refused |
| JsonNumber.FloatingGivenIff | score/json/internal/model/lossless_cast.cpp:134-164 | an integer is given as `double` exactly if its type has at most 32 bits, as `float` if at most 16, and otherwise refused |
| JsonNumber.WholeGivenIff | score/json/internal/model/lossless_cast.cpp:218-266 | a floating-point number is given as an integer exactly if it is one of the type and at most 2^53 from nought, or 2^24 if it is a float; otherwise it is refused |
| JsonNumber.BooleanIff | score/json/internal/model/lossless_cast.cpp:382-400 | a number is a boolean exactly if its amount is 1, for true, or 0, for false |
| JsonNumber.ParsedIntegersAsDouble | score/json/json_parser.cpp:183-191 | an integer of the document read as `double`: itself from -2^31 to 2^32 - 1, refused for the other 64-bit ones, rounded beyond |
| JsonNumber.ParsedIff | score/json/json_parser.cpp:183-191 | every number that an integer type or `double` has room for is stored |
| JsonNumber.NearestFloat | score/json/internal/model/lossless_cast.cpp:304-321 | a `double` read as `float` becomes a nearest float |
| JsonNumber.RefusedIff | score/json/internal/model/lossless_cast.cpp:304-321 | it is refused exactly if it overflows |
| JsonNumber.FaultIff | score/json/internal/model/lossless_cast.cpp:268-289 | a cast neither succeeds nor is refused exactly if a stored `float` is asked for as `double`, or a NaN as an integer |
| JsonNumber.RoundedExample | score/json/internal/model/lossless_cast.cpp:304-321 | the double 16777217 is read as the float 16777216 |
| JsonNumber.ParsedIntegersReadBack | score/json/json_parser.cpp:183-191 | an integer in the document, stored in the first type that fits, `double` last, can be read as an integer type if and only if it is in that type's range |
| JsonSerializer.DecodeVector | score/json/json_serializer.h:410-428 | the loop over the list entries computes the decoding function, with its error at the first entry that fails |
| JsonRoundTrip.SafeRoundTrips | score/json/json_serializer.h:123-146 | for a safe type decoding an encoded value returns it exactly |
| JsonRoundTrip.SafeIffRoundTrips | score/json/json_serializer.h:123-466 | all values of a type come back if and only if optionals occur only as struct fields that start out empty, around a payload that is neither optional nor `Any`, and no field is an `Any` |
| JsonRoundTrip.UnsafeWitness | score/json/json_serializer.h:432-466 | for every other type a value that does not come back |
| JsonRoundTrip.PaddingIsIgnored | score/json/json_serializer.h:187-228 | members that no field names change neither the decoded value nor the error, at any depth |
| JsonRoundTrip.DecodedHasType | score/json/json_serializer.h:279-466 | whatever the tree, decoding that gives a value gives one of the type; otherwise it ends in an error, or in a fault, which `JsonFaults.StopsIff` pins down |
| JsonErrors.ErrorIsOfFirst | score/json/json_serializer.h:187-228 | the error of a struct names the first field that fails, as not found if it is missing, else with the kind of its own error |
| JsonErrors.ErrorHasField | score/json/json_serializer.h:187-228 | every error of a struct is that of a field, all fields before which get a value |
| JsonErrors.SucceedsIff | score/json/json_serializer.h:187-228 | a struct is decoded exactly if each field gets a value |
| JsonErrors.FieldValues | score/json/json_serializer.h:187-228 | and then each has what its member decodes to, or, optional and missing, what it started out with |
| JsonErrors.KeyNotFoundIff | score/json/json_serializer.h:279-466 | an error says that a key was not found if and only if a chain of struct fields leads to a missing one; lists and optionals turn it into a wrong type |
| JsonFaults.DecodeEndsLike | score/json/json_serializer.h:279-466 | decoding ends as the first look that does not pass does, in the order in which it looks at the tree |
| JsonFaults.StopsIff | score/json/json_serializer.h:279-466 | decoding runs into a fault if and only if that first look asks for a `double` where a `float` is stored, or for an integer where a NaN is |
| JsonFaults.ParsedNeverStops | score/json/json_parser.cpp:183-191 | no tree whose numbers come from the parser does so, whatever the type |
| JsonFaults.StoppedExample | score/json/internal/model/lossless_cast.cpp:281-289 | the tree that encoding the float 1 gives, decoded as `double` |
| FileTree.FoundAtPlace | score/filesystem/standard_filesystem_fake.cpp:262-290 | each directory is found at its place |
| FileTree.DirectoriesAreATree | score/filesystem/standard_filesystem_fake.cpp:168-227 | two paths to the same directory are the same path: only regular files have several names |
| FileTree.LookupListed | score/filesystem/standard_filesystem_fake.cpp:179-227 | after a name is added every path leads where it led, except the new one |
| FileTree.LookupDelisted | score/filesystem/standard_filesystem_fake.cpp:192-200 | after a name is erased the paths through it lead nowhere, all others where they led |
| FileTree.PathsAreNames | score/filesystem/standard_filesystem_fake.cpp:580-583 | there are as many paths to an entry as places where it is listed |
| FilePaths.CanonicalNames | score/filesystem/standard_filesystem_fake.cpp:478-489 | the canonical path spells out where the path leads from the current directory |
| FilePaths.CanonicalParent | score/filesystem/standard_filesystem_fake.cpp:232-247 | parent and filename of a canonical path are its names but the last, and the last |
| FilePaths.CanonicalEnds | score/filesystem/standard_filesystem_fake.cpp:478-489 | the canonical path has a filename if and only if the path is not empty and ends in a name that is no dot or dot-dot; of every other path that is not empty the canonical path ends in a separator |
| FilePaths.EmptyComponent | score/filesystem/standard_filesystem_fake.cpp:322-342 | its last component is empty if and only if the path ends as that of a directory does and leads below the root |
| FakeFileSystem.FileSystem.FindEntry | score/filesystem/standard_filesystem_fake.cpp:262-290 | for every non-empty path the result is a plain tree lookup of the path resolved against the current directory, so all spellings of a place agree |
| FakeFileSystem.Descend | score/filesystem/standard_filesystem_fake.cpp:274-289 | the walking loop is that lookup |
| FakeFileSystem.FileSystem.CreateEntry | score/filesystem/standard_filesystem_fake.cpp:229-260 | for a path that ends in a name, a new entry at its place and no other path changes, or the error that the place calls for and no change; for any other path an error; directories stay a tree |
| FakeFileSystem.FileSystem.CreateDirectory | score/filesystem/standard_filesystem_fake.cpp:297-318 | success exactly if there is a directory or one can be created, and then there is one |
| FakeFileSystem.FileSystem.CreateDirectories | score/filesystem/standard_filesystem_fake.cpp:320-344 | the error exactly if a component other than the last visited is a regular file, and no change; otherwise every missing component is a new directory, every other path leads where it led, and a regular file at the end counts as success; where the loop visits an empty last component, below the root for a path that ends as that of a directory does, that is created as one more directory, and directories stay a tree if and only if the call does not succeed there |
| FakeFileSystem.FileSystem.EnterAll | score/filesystem/standard_filesystem_fake.cpp:328-342 | the loop over the components: blocked by a file, or everything up to the end exists afterwards and nothing else changed |
| FilePaths.AfterRoot | score/filesystem/standard_filesystem_fake.cpp:322-342 | after its root an absolute path has its names as components, and then an empty one exactly if it has names and ends in a separator |
| FilePaths.CanonicalDirectory | score/filesystem/standard_filesystem_fake.cpp:414-430 | the parent of a canonical path without a filename leads where the path itself does |
| FilePaths.FinalSeparatorExample | score/filesystem/standard_filesystem_fake.cpp:322-342 | the path `/a/`, whose canonical form has an empty last component |
| FakeFileSystem.FileSystem.CreateHardLink | score/filesystem/standard_filesystem_fake.cpp:533-569 | exactly one more path to the file, or an error and no change |
| FakeFileSystem.FileSystem.Collect | score/filesystem/standard_filesystem_fake.cpp:192-200 | destroying entries that nothing refers to, and then what only they referred to, changes no path and leaves a tree |
| FakeFileSystem.FileSystem.Remove | score/filesystem/standard_filesystem_fake.cpp:384-412 | a file or an empty directory at a path that ends in a name is erased, everything else is refused; no other path changes |
| FakeFileSystem.FileSystem.RemoveAll | score/filesystem/standard_filesystem_fake.cpp:414-430 | the entry goes with everything below it and no other path changes; every refused path gets the error stated for it, and no change |
| FakeFileSystem.FileSystem.HardLinkCount | score/filesystem/standard_filesystem_fake.cpp:571-596 | for a file the number of paths that lead to it, for a directory two more than it has subdirectories |
| FakeFileSystem.CountSubdirectories | score/filesystem/standard_filesystem_fake.cpp:584-595 | the loop over the names counts the directories |
| FakeFileSystem.FileSystem.SetCurrentPath | score/filesystem/standard_filesystem_fake.cpp:496-508 | the current directory becomes the place of the path, which must exist |
| Capability.EraseOthers | score/os/capability.cpp:178-193 | the inner loop erases every other occurrence, all of them left of the index, and keeps the index on its capability |
| Capability.RemoveDuplicates | score/os/capability.cpp:176-195 | what remains is the last occurrence of each capability, in the original order |
| Capability.KeepLastPositions | score/os/capability.cpp:176-195 | these are the entries at exactly the positions of last occurrences |
| Capability.KeepLastOnce | score/os/capability.cpp:176-195 | each capability of the list is kept once |
| Capability.AllIsComplete | score/os/capability.cpp:34-44 | the list written out holds every capability but the invalid one, once |
| Capability.DetermineCapabilitiesToDrop | score/os/capability.cpp:31-58 | the list to drop is the complement of the list to keep, each capability once |
| Capability.ReduceProcessCapabilitiesTo | score/os/capability.cpp:158-198 | rejected if and only if the invalid value is listed; otherwise the two lists split all capabilities, each once |

## Left out

- Weak memory orders: atomics are taken as sequentially consistent.
- Real clocks: a deadline passes when the model's clock, which any step may advance, reaches it.
- Destruction of a condition variable or notification that is in use (`entry_counter_`), and `wait_until` without a predicate.
- `score::cpp::jthread`, futures and tasks with results; the lifetime of a stop state, and stop callbacks that call back into the pool while a lock is held.
- Iterators over paths other than their order, `RootName` to `RelativePath`, and comparison of paths: they would only add easy members.
- Iterator arithmetic of `intrusive_list`, `front`, `back`, `iterator_to` and the checks in the destructors.
- The JSON tokenizer, the writer and number formatting; numbers that no arithmetic type holds.
- The sign of zero: the two zeros of `float` and `double` are one value.
- The contents of files, permissions and write times, `FakeCopyFile`, and `OpenStringStream` beyond what it creates.
- The effect of the capability calls on the process, and the order in which they are made.
- Logging, allocators and exceptions throughout.
