# A verified model of the dart:io native runtime

This project models, in Dafny, the parts of the Dart SDK's native `dart:io` runtime
(`runtime/bin`) that keep the most state, and the message serializer of `client/dart.js`.
It proves what those parts promise for every input, every run and every reachable state.
`dafny verify dfyconfig.toml` checks everything.

Where the program changes things in place, the model does too: linked lists, stacks,
buffers and handles are classes whose methods are proved against pure functions, and the
properties are proved about those functions. Nothing is executed.

| files | what they model |
|---|---|
| `CircularList`, `Descriptor`, `DescriptorInfo`, `Fairness`, `DescriptorRuns`, `DescriptorLaw` | the per-descriptor bookkeeping of the event handler: the ring of ready ports, tokens, masks, any run of operations on them, and what a run leads to, said of the operations alone |
| `TimeoutQueue`, `MessageBits` | the timer queue and the bit encoding of messages to the event handler |
| `EventLoop`, `EventLoopRuns`, `EventLoopEffects`, `EventLoopExamples` | the Linux event handler as a state machine, what holds in every reachable state, what each event and message does there, said of the event or message alone, and reachable states in which an expected property fails |
| `DescriptorTable`, `EventHandler` | the program that implements it, on a table of descriptor objects each with its own ring and entries |
| `FileSystem`, `PathBuffer`, `ListingSpec`, `ListingLaw`, `PlainListing`, `LinkChain`, `Lister`, `Paging` | the recursive directory lister: the listing as a recursive function, what it contains, said of the file system alone, the resumable stack machine that computes it, and the pages it is sent in |
| `DeleteTree`, `Subtree`, `DeleteSpec`, `Deleter` | recursive deletion in a tree of directory objects with links: lookup, what may go, what is promised, the program |
| `CleanPath`, `CleanUnixPath`, `UriDecoder` | lexical path cleaning and percent decoding |
| `StdWrite`, `AcceptQueue` | two Windows hand-off protocols: console writes and accepted connections |
| `Serializer`, `MessagePaths`, `Deserializer` | serialization of object graphs |
| `Collections` | shared definitions |

What is taken from the environment, always as parameters or stated assumptions:

- The kernel: `epoll_wait` reports a registration, and the timer, at most once per batch
  and only if registered; `EPOLL_CTL_ADD` may fail; closing an fd drops its registration; a
  timerfd is readable only once its armed time has come.
- The Dart side: every message to a socket carries a command, ports are not zero, a
  connected socket is used through one port, only connected sockets are shut down for
  reading or writing, and tokens are returned only by a port that has received them.
- The listening-socket registry's answer to a close is a boolean of the message.
- The file system does not change while it is listed or deleted from; directories form a
  tree of finite height, symbolic links may lead anywhere. For listing, path resolution is
  compositional, and `FileSystem.WalkIsCompositional` shows that walking the components of
  a path is; the name of a listed directory ends with a separator, as the Dart side makes
  it (sdk/lib/io/directory_impl.dart:237). For deletion, lookup is the walk itself: it
  follows links in every component but the last, and there too when a separator follows.
- System calls may fail at any time.
- The write thread of `StdHandle` wakes once per notification, and its caller presents
  unacknowledged bytes again.

Properties the code does not have, with the exact condition under which it does:

- `PathBuffer::Add` accepts a string of exactly PATH_MAX characters that it shows without
  its last one; an accepted string is shown in full exactly when it is shorter
  (`PathBuffer.PathBuffer.Add`). Listing and deletion are specified on the path shown.
- A recursive deletion of `link/` empties the directory behind the link and then fails,
  although the entry named is the link. It keeps to what the path names if and only if that
  directory is empty (`Deleter.DeleteAll` through `DeleteSpec.Honours`, failing input
  `Deleter.DeleteThroughLink`).
- A timer due at time zero disarms the timerfd and holds back every other timer
  (`EventLoopRuns.TimerCanFire`, failing state `EventLoopExamples.ZeroTimerHoldsBack`).
  Negative times, which the queue takes as removals, and positive ones behave.
- The assertion that a closed descriptor has no mask left holds exactly under the condition
  of `EventLoopRuns.ClosedMaskIsEmpty`; `EventLoopExamples.CloseWithoutPort` reaches a state
  and a close in which it fails.
- The assertion that a listening socket is told of connections only holds exactly under the
  condition of `EventLoopRuns.ConnectionsOrErrors`; a hang-up breaks it
  (`EventLoopExamples.HangUpOnListeningSocket`).
- A spurious wake-up of the write thread keeps the protocol intact if and only if no write
  is pending (`StdWrite.SpuriousWake`); otherwise bytes can come out twice and a buffer is
  disposed twice (`StdWrite.SpuriousWakeDuplicates`).
- A message in which a container is reached twice cannot be read back
  (`Deserializer.RoundTrip`, failing input `Deserializer.SharedContainerThrows`).
- `CleanUnixPath` writes its answer exactly when the output has two characters or more; with
  less it answers 1 for the empty input and refuses every other input it can take
  (`CleanUnixPath.CleanUnixPath`).
- What a reader of the decoded C string sees is the decoded text exactly when the URI does
  not contain `%00` (`UriDecoder.UriDecode`).

## Model

| member | source | states |
|---|---|---|
| CircularList.CircularLinkedList.constructor | runtime/bin/eventhandler.h:129-129 | a new list is the empty sequence |
| CircularList.CircularLinkedList.Add | runtime/bin/eventhandler.h:133-150 | appends to the sequence; the next and prev pointers stay mutual inverses on one cycle; answers whether the list was empty |
| CircularList.CircularLinkedList.RemoveHead | runtime/bin/eventhandler.h:152-167 | drops the first element of the sequence and frees its node only |
| CircularList.CircularLinkedList.Remove | runtime/bin/eventhandler.h:169-197 | removes the first occurrence of the value, or nothing if there is none |
| CircularList.CircularLinkedList.RemoveAll | runtime/bin/eventhandler.h:199-203 | leaves the empty list and lists what was removed, in order |
| CircularList.CircularLinkedList.Head | runtime/bin/eventhandler.h:205-205 | the first element of the sequence |
| CircularList.CircularLinkedList.Rotate | runtime/bin/eventhandler.h:209-214 | moves the first element to the end |
| CircularList.CircularLinkedList.RoundTrip | runtime/bin/eventhandler.h:446-455 | the debug loop that rotates until it is back at its root ends after one round and leaves the order as it was |
| CircularList.RotatedFrom | runtime/bin/eventhandler.h:209-214 | rotating k times is cutting the sequence at k, so a full round changes nothing |
| CircularList.RemoveFirstKeepsDistinct | runtime/bin/eventhandler.h:169-197 | removing a value from a list without duplicates leaves one without it and keeps every other |
| TimeoutQueue.UpdateIsMapUpdate | runtime/bin/eventhandler.cc:18-45 | the queue refines a map from ports to due times: an update is a map update, a negative time a removal, every other port keeps its time |
| TimeoutQueue.Soonest | runtime/bin/eventhandler.cc:46-55 | the position of the first timer with the least due time |
| TimeoutQueue.TimeoutQueue.UpdateTimeout | runtime/bin/eventhandler.cc:18-56 | the linked list becomes the updated list and the cached timer is a minimum of it again |
| TimeoutQueue.TimeoutQueue.Splice | runtime/bin/eventhandler.cc:25-32 | unlinking a node removes exactly its timer from the list |
| TimeoutQueue.TimeoutQueue.Prepend | runtime/bin/eventhandler.cc:42-45 | a timer for a new port is put in front of the list |
| TimeoutQueue.TimeoutQueue.FindNext | runtime/bin/eventhandler.cc:46-55 | the rescan restores the cached minimum |
| TimeoutQueue.TimeoutQueue.RemoveCurrent | runtime/bin/eventhandler.h:103-103 | removes exactly the soonest timer |
| TimeoutQueue.TimeoutQueue.CurrentTimeout | runtime/bin/eventhandler.h:93-96 | the due time of the soonest timer |
| TimeoutQueue.TimeoutQueue.CurrentPort | runtime/bin/eventhandler.h:98-101 | the port of the soonest timer |
| TimeoutQueue.TimeoutQueue.Drain | runtime/bin/eventhandler.h:86-89 | the destructor empties the queue in the drain order |
| TimeoutQueue.Fired | runtime/bin/eventhandler.h:103-103 | removing the soonest timer keeps the queue well formed and takes away that timer only |
| TimeoutQueue.DrainIsSorted | runtime/bin/eventhandler.h:86-89 | timers leave in non-decreasing order of due time, each exactly once |
| Descriptor.SetPortAndMaskValid | runtime/bin/eventhandler.h:415-440 | setting a mask keeps the ring equal to the ready entries, for single and multiple descriptors |
| Descriptor.RemovePortValid | runtime/bin/eventhandler.h:469-491 | removing a port keeps the ring right and the port in neither map nor ring |
| Descriptor.ReturnTokensValid | runtime/bin/eventhandler.h:552-567 | returning tokens keeps the ring right |
| Descriptor.NextNotifyValid | runtime/bin/eventhandler.h:505-527 | a descriptor with a mask always has a real port with a token to notify, and taking the token keeps the ring right |
| Descriptor.NotifyAllValid | runtime/bin/eventhandler.h:529-550 | notifying every port keeps the ring equal to the ready entries |
| Descriptor.NotifyDone | runtime/bin/eventhandler.h:529-550 | the outcome does not depend on the order in which the hash map yields the ports |
| Descriptor.SetPortAndMaskEffect | runtime/bin/eventhandler.h:415-440 | the port asks for the mask it set while it has tokens and keeps them, a new one starts with the full count; other ports keep their state and order |
| Descriptor.RemovePortEffect | runtime/bin/eventhandler.h:469-491 | the port is forgotten and does not make the socket ready; other ports keep their state and order |
| Descriptor.ReturnTokensEffect | runtime/bin/eventhandler.h:552-567 | the tokens are added and make a reading port ready; what every port asks for stays, and other ports keep their state and order |
| Descriptor.NextNotifyEffect | runtime/bin/eventhandler.h:505-527 | the first of the ring pays one token and goes behind all others, or out without tokens; what every port asks for stays |
| Descriptor.NotifyAllEffect | runtime/bin/eventhandler.h:529-550 | every port pays one token and asks for what it asked for; the ring keeps exactly those with tokens left, in the order they had |
| DescriptorInfo.DescriptorInfoMultiple.SetPortAndMask | runtime/bin/eventhandler.h:415-440 | the heap structure of ring and map does what the value model says and stays consistent; what it gains is freshly allocated |
| DescriptorInfo.DescriptorInfoMultiple.RemovePort | runtime/bin/eventhandler.h:469-491 | as the value model, for registered and unknown ports; ring nodes and entries do not grow |
| DescriptorInfo.DescriptorInfoMultiple.RemoveAllPorts | runtime/bin/eventhandler.h:493-503 | every entry is freed exactly once and nothing is left; ring nodes do not grow |
| DescriptorInfo.DescriptorInfoMultiple.FreeEntries | runtime/bin/eventhandler.h:494-501 | the loop over the map takes every entry out of the ring and lists each once |
| DescriptorInfo.DescriptorInfoMultiple.NextNotifyDartPort | runtime/bin/eventhandler.h:505-527 | as the value model: the head of the ring is served and goes to the back or, without tokens, out; no node is added |
| DescriptorInfo.DescriptorInfoMultiple.NotifyAllDartPorts | runtime/bin/eventhandler.h:529-550 | as the value model, whatever the iteration order; every port is told exactly once; no node is added |
| DescriptorInfo.DescriptorInfoMultiple.ReturnTokens | runtime/bin/eventhandler.h:552-567 | as the value model; an entry that becomes ready joins the ring once, on a fresh node |
| DescriptorInfo.DescriptorInfoMultiple.Mask | runtime/bin/eventhandler.h:569-574 | what is read off the ring is In exactly when some entry of the map is ready |
| DescriptorInfo.DescriptorInfoMultiple.CheckReaders | runtime/bin/eventhandler.h:442-466 | the debug check ends with its counter at zero and the ring as it was |
| Fairness.RingIsReadyEntries | runtime/bin/eventhandler.h:415-574 | after any run of operations the ring holds exactly the ready entries, without duplicates, and the mask agrees |
| Fairness.BoundedWaiting | runtime/bin/eventhandler.h:505-527 | a port at ring position i that stays ready is served by one of the next i + 1 notifications, whatever else interleaves |
| Fairness.NeverMovesBack | runtime/bin/eventhandler.h:134-150 | no operation other than its own service moves a ready port back in the ring |
| DescriptorRuns.PerformAll | runtime/bin/eventhandler.h:415-574 | any legal run of operations on the heap object ends in the state and serves the ports of the model run, so ring, mask and waiting times are those proved of it |
| DescriptorRuns.RunFromStart | runtime/bin/eventhandler.h:398-574 | the same of a run that starts with a new object |
| DescriptorRuns.ServedIsListed | runtime/bin/eventhandler.h:505-527 | a port is served by one of the first n notifications if and only if it is among the first n ports they chose |
| DescriptorRuns.WaitersAreServed | runtime/bin/eventhandler.h:505-527 | a port that is ready at position i and stays so is among the next i + 1 ports served |
| DescriptorLaw.ListeningLaw | runtime/bin/eventhandler.h:398-574 | after any legal run a port is registered with the mask it last set, unless it left since, holds four tokens less its notifications and broadcasts plus what it returned, and is in the ring if and only if it asked for input and holds a token |
| DescriptorLaw.ConnectedLaw | runtime/bin/eventhandler.h:281-352 | after any legal run a connected descriptor has the port and mask last set and sixteen tokens less every notification plus what came back, and asks for that mask while it holds one |
| DescriptorLaw.RunSnoc | runtime/bin/eventhandler.h:281-574 | a run is its last operation applied to what the others made, and it serves the ports they served and then its own |
| MessageBits.EventsOf | runtime/bin/eventhandler.h:21-57 | an event is in the decoded mask exactly when its bit is set |
| MessageBits.DecodeEncode | runtime/bin/eventhandler.h:21-57 | every command word, with the numbers of the sender in runtime/bin/socket_patch.dart, decodes to the command that was sent, with its listening flag, token count and events undisturbed |
| EventLoop.AddToEpollInv | runtime/bin/eventhandler_linux.cc:51-69 | adding a descriptor, or notifying all its ports when epoll refuses it, settles the invariant |
| EventLoop.UpdateEpollInv | runtime/bin/eventhandler_linux.cc:136-148 | whichever branch is taken, the registration agrees with the new mask afterwards |
| EventLoop.GetDescriptorInfoInv | runtime/bin/eventhandler_linux.cc:150-170 | looking up or creating a descriptor keeps objects and fds one to one |
| EventLoop.OnSocketReadyInv | runtime/bin/eventhandler_linux.cc:361-373 | a socket event keeps the invariant: registrations, tokens, timers, history |
| EventLoop.OnTimerReadyInv | runtime/bin/eventhandler_linux.cc:351-359 | a timer event posts a due timer once and rearms for the next |
| EventLoop.ArmedForMinimum | runtime/bin/eventhandler_linux.cc:279-289 | seconds and nanoseconds of the armed value decode to the least due time |
| EventLoop.OnReturnTokensInv | runtime/bin/eventhandler_linux.cc:259-263 | returned tokens keep held plus owed at the full count |
| EventLoop.OnSetMaskInv | runtime/bin/eventhandler_linux.cc:264-271 | setting a mask registers a new port with its full count and keeps the invariant |
| EventLoop.OnCloseInv | runtime/bin/eventhandler_linux.cc:221-258 | a close deletes a connected or unshared descriptor with its registration and keeps the invariant otherwise |
| EventLoop.OnMessageInv | runtime/bin/eventhandler_linux.cc:198-275 | every message keeps the invariant |
| EventLoopRuns.BatchTouchesOnlyLiveDescriptors | runtime/bin/eventhandler_linux.cc:345-381 | when the i-th event of a batch is handled, its descriptor is still live and registered |
| EventLoopRuns.RegisteredPortIsReal | runtime/bin/eventhandler_linux.cc:361-373 | a registered descriptor has a mask, and the port it would notify is not zero and holds a token |
| EventLoopRuns.SetMaskEffect | runtime/bin/eventhandler_linux.cc:264-271 | the mask is set on the descriptor of the message, whose ports are all told when epoll refuses it, and nothing else changes |
| EventLoopRuns.ReturnEffect | runtime/bin/eventhandler_linux.cc:259-263 | the tokens go to the descriptor of the message, whose ports are all told when epoll refuses it, and nothing else changes |
| EventLoopRuns.CloseEffect | runtime/bin/eventhandler_linux.cc:221-258 | a connected or unshared socket leaves no object, map entry or registration behind, a shared one drops its port, and nothing else changes |
| EventLoopEffects.SocketEventOutcome | runtime/bin/eventhandler_linux.cc:361-373 | in every reachable state, from the flags: an error with input is broadcast, an error alone and an empty report change nothing, and any other report is exactly one post to the port of the socket or the first of the ring, with input, output and close as flagged; the port pays a token, and the registration goes with the last one |
| EventLoopEffects.TimerEventOutcome | runtime/bin/eventhandler_linux.cc:351-359 | in every reachable state the port with the least due time, which has come, is told, its timer goes and no other, and the timerfd is armed for the next |
| EventLoopEffects.TimerMessageOutcome | runtime/bin/eventhandler_linux.cc:199-201 | a timer message sets or clears the due time of its port and no other |
| EventLoopEffects.OtherMessageOutcome | runtime/bin/eventhandler_linux.cc:202-210 | a shutdown message stops the loop; a message to a closed socket changes nothing |
| EventLoopEffects.ReturnTokenOutcome | runtime/bin/eventhandler_linux.cc:259-263 | a word that returns n tokens raises those of its port by n, less one if epoll refuses the descriptor, which is then broadcast as a close; the registration follows |
| EventLoopEffects.SetEventMaskOutcome | runtime/bin/eventhandler_linux.cc:264-271 | a word that sets a mask makes the descriptor of its fd, known or new, ask for it on behalf of its port while there are tokens; a new port starts with four or sixteen of them; the registration follows |
| EventLoopEffects.CloseOutcome | runtime/bin/eventhandler_linux.cc:221-258 | a close posts Destroyed to its port and nothing else, drops the port, and takes a connected or unshared descriptor away with its map entry and registration |
| EventLoopEffects.ShutdownOutcome | runtime/bin/eventhandler_linux.cc:213-220 | shutting one direction of a known socket changes nothing the handler knows |
| EventLoopEffects.MessageFrame | runtime/bin/eventhandler_linux.cc:193-277 | whatever the command, no other descriptor, registration or timer changes |
| EventLoopEffects.UpdateRegisters | runtime/bin/eventhandler_linux.cc:51-69 | an accepted descriptor is registered for the in and out events of its mask, edge triggered unless it listens, and only a refused one is left out |
| EventLoopEffects.EventsInOrder | runtime/bin/eventhandler_linux.cc:345-381 | every event of a batch is handled once, in order, in a state that it fits |
| EventLoopEffects.MessagesInOrder | runtime/bin/eventhandler_linux.cc:193-277 | every message of an interrupt is handled once, in order |
| EventLoopRuns.ReachableInv | runtime/bin/eventhandler_linux.cc:383-405 | the invariant holds in every state the event loop reaches |
| EventLoopRuns.RegistrationMatchesMask | runtime/bin/eventhandler_linux.cc:136-148 | in every reachable state a registration belongs to a live descriptor and asks for exactly its mask; a descriptor that was never refused is registered if and only if its mask is not empty |
| EventLoopRuns.TokensAreConserved | runtime/bin/eventhandler.h:316-352 | in every reachable state tokens held plus notifications not returned make the full count, so no port holds more |
| EventLoopRuns.HistoryIsProper | runtime/bin/eventhandler_linux.cc:351-373 | in every run no data event goes to a port without tokens, and a timer posts only when due and once per setting |
| EventLoopRuns.TimerIsArmedForMinimum | runtime/bin/eventhandler_linux.cc:279-289 | in every reachable state the queue is what the history asks for and the timerfd is armed for its minimum |
| EventLoopRuns.TimerCanFire | runtime/bin/eventhandler_linux.cc:279-289 | a timer event can arrive if and only if some timer is pending and none is at time zero |
| EventLoopRuns.ClosedMaskIsEmpty | runtime/bin/eventhandler_linux.cc:229-252 | in every reachable state the asserted empty mask holds if and only if a connected socket is closed with its port or had no mask, and no other port of a listening one is ready |
| EventLoopRuns.ConnectionsOrErrors | runtime/bin/eventhandler.h:505-509 | which events the flags of a report stand for, one by one, and exactly when the asserted events of a listening socket hold: an error, or none of output, hang-up and half-close |
| EventLoopExamples.ZeroTimerHoldsBack | runtime/bin/eventhandler_linux.cc:279-289 | a reachable state in which a timer is due at 5 and no timer event can arrive |
| EventLoopExamples.CloseWithoutPort | runtime/bin/eventhandler_linux.cc:221-258 | a reachable state and a legal close that leaves a mask behind |
| EventLoopExamples.HangUpOnListeningSocket | runtime/bin/eventhandler.h:505-509 | a reachable state and a legal event that hands a close to a port of a listening socket |
| EventLoopExamples.PollSnoc | runtime/bin/eventhandler_linux.cc:391-402 | a run goes on from wherever a run has ended |
| EventHandler.EventHandlerImplementation.constructor | runtime/bin/eventhandler_linux.cc:71-120 | starts in the initial state of the state machine |
| DescriptorTable.DescriptorObject.SetPortAndMask | runtime/bin/eventhandler.h:297-301 | a connected or listening descriptor object takes the mask as its model does; the asserted port holds |
| DescriptorTable.DescriptorObject.ReturnTokens | runtime/bin/eventhandler.h:339-345 | the object gains the tokens as its model does; the asserted port and bound hold |
| DescriptorTable.DescriptorObject.NextNotifyDartPort | runtime/bin/eventhandler.h:316-323 | the object serves the port its model serves; the events are those asserted for a connected socket |
| DescriptorTable.DescriptorObject.NotifyAllDartPorts | runtime/bin/eventhandler.h:325-337 | the object broadcasts as its model does; the events are those asserted |
| DescriptorTable.Table.Create | runtime/bin/eventhandler_linux.cc:150-170 | a new object joins the table and shares nothing with the others |
| DescriptorTable.Table.Delete | runtime/bin/eventhandler_linux.cc:246-247 | one object leaves the table, the others stay as they were |
| DescriptorTable.Table.SetPortAndMask | runtime/bin/eventhandler_linux.cc:264-271 | one object changes as its model does and no other changes, their rings and entries being disjoint |
| DescriptorTable.Table.RemovePort | runtime/bin/eventhandler_linux.cc:224-228 | as above for a port that leaves |
| DescriptorTable.Table.ReturnTokens | runtime/bin/eventhandler_linux.cc:259-263 | as above for tokens that come back |
| DescriptorTable.Table.NextNotifyDartPort | runtime/bin/eventhandler_linux.cc:367-369 | as above for a notification |
| DescriptorTable.Table.NotifyAllDartPorts | runtime/bin/eventhandler_linux.cc:364-366 | as above for a broadcast |
| EventHandler.EventHandlerImplementation.UpdateEpollInstance | runtime/bin/eventhandler_linux.cc:136-148 | on descriptor objects, does to the abstract state what the state machine does; the assertion that a listening socket never changes one mask for another holds |
| EventHandler.EventHandlerImplementation.UpdateTimerFd | runtime/bin/eventhandler_linux.cc:279-289 | arms the timer for the queue's minimum or disarms it, and changes nothing else |
| EventHandler.EventHandlerImplementation.HandleSocketEvent | runtime/bin/eventhandler_linux.cc:361-373 | does to the abstract state what the state machine does, hence `SocketEventOutcome`; the notified port is not zero; answers whether the assertion on the events of a listening socket holds, which is so if and only if the flags report an error or nothing but input |
| EventHandler.EventHandlerImplementation.HandleTimerEvent | runtime/bin/eventhandler_linux.cc:351-359 | refines the state machine |
| EventHandler.EventHandlerImplementation.HandleClose | runtime/bin/eventhandler_linux.cc:221-258 | refines the state machine for connected, shared and unshared listening sockets; the fd is the socket's; the mask that is asserted to be empty is so if and only if the condition of `ClosedMaskIsEmpty` holds |
| EventHandler.EventHandlerImplementation.HandleCommand | runtime/bin/eventhandler_linux.cc:213-274 | does what the state machine does, hence the outcome of each command; the last branch is unreachable, a shutdown command never meets a listening socket, and a mask holds in and out events only |
| EventHandler.EventHandlerImplementation.HandleInterruptFd | runtime/bin/eventhandler_linux.cc:193-277 | handles the messages in order, each with its outcome, keeping the invariant and the objects apart |
| EventHandler.EventHandlerImplementation.HandleEvents | runtime/bin/eventhandler_linux.cc:345-381 | a turn of the state machine: all events, then the messages if the interrupt was seen |
| EventHandler.EventHandlerImplementation.Poll | runtime/bin/eventhandler_linux.cc:391-402 | the whole run of the state machine until shutdown, on the objects |
| FileSystem.WalkIsCompositional | runtime/bin/directory_linux.cc:123-127 | walking the components of a path followed by an entry name leads where the entry leads, so appending names to the buffer names the entries |
| PathBuffer.PathBuffer.Add | runtime/bin/directory_linux.cc:56-68 | appends exactly when both fit in PATH_MAX; what the buffer shows is cut to one less, so an accepted text is shown in full if and only if it does not have PATH_MAX characters |
| PathBuffer.PathBuffer.Reset | runtime/bin/directory_linux.cc:70-73 | cuts back to any prefix the buffer holds |
| PathBuffer.PathBuffer.AlwaysShort | runtime/bin/directory_linux.cc:58-62 | the buffer never shows PATH_MAX characters |
| LinkChain.AllocateOwned | runtime/bin/directory_linux.cc:180-184 | a node for a followed link is owned by the top entry alone and its list gains exactly that link |
| LinkChain.FreeOwned | runtime/bin/directory_linux.cc:232-240 | freeing the node an entry owns leaves every other entry's list as it was |
| LinkChain.ShareOwned | runtime/bin/directory_linux.cc:232-240 | an entry that owns nothing takes its parent's list, and nothing is freed |
| LinkChain.PushOwned | runtime/bin/directory.h:116-116 | a new entry owns nothing |
| Lister.EntryStep | runtime/bin/directory_linux.cc:123-215 | treating an entry as its type calls for is one step of the recursive listing |
| ListingLaw.EntryLaw | runtime/bin/directory_linux.cc:123-215 | an entry yields the report its inode calls for, a file, link, directory or fault, by what readdir and the stat calls tell and which links were followed, and below a directory that is not a dot what is below it |
| ListingLaw.EntriesLaw | runtime/bin/directory_linux.cc:114-222 | a directory yields what its entries yield, up to the first path that does not fit, which is a fault, or the fault of readdir at its end |
| ListingLaw.ListsWhatTrailsCallFor | runtime/bin/directory.cc:586-626 | whatever calls fail and whatever fits, an event is in the listing if and only if a trail of names leads from the root to something that calls for it |
| PlainListing.ListsExactly | runtime/bin/directory.cc:586-626 | where no call fails and all paths fit, a link, file or directory is in the listing at path p if and only if p is the root's name followed by names that lead through directories to an entry of that kind; with links followed, by the kind of the target, and as a link exactly when broken or followed before on the way |
| PlainListing.ListsOnce | runtime/bin/directory.cc:586-626 | where all paths fit, whatever calls fail, nothing is reported twice |
| Lister.DirectoryListing.constructor | runtime/bin/directory.h:93-106 | a new listing has the whole recursive listing ahead of it, or the error flag when the name does not fit |
| Lister.DirectoryListing.ResetLink | runtime/bin/directory_linux.cc:232-240 | frees the top entry's node if it owns one, and only then, and shares the parent's list; heap, owners and the record of frees stay in step |
| Lister.DirectoryListing.Free | runtime/bin/directory_linux.cc:232-240 | a node can be freed only while it is live, and every free is recorded |
| Lister.DirectoryListing.PushLink | runtime/bin/directory_linux.cc:180-184 | the list of the top entry holds the links seen above and the new one |
| Lister.DirectoryListing.Examine | runtime/bin/directory_linux.cc:146-208 | the type found by stat calls, with the loop check over the list, is what the listing calls for |
| Lister.DirectoryListing.TypeOf | runtime/bin/directory_linux.cc:141-215 | the answer for an entry is what the listing calls for, links followed or not; `ListingLaw.EntryLaw` says what that is |
| Lister.DirectoryListing.Rewind | runtime/bin/directory_linux.cc:115-117 | the buffer is cut back to the directory and the list is the parent's |
| Lister.DirectoryListing.TakeEntry | runtime/bin/directory_linux.cc:121-215 | one entry takes one step off the listing and leaves its path in the buffer |
| Lister.DirectoryListing.ReadEntry | runtime/bin/directory_linux.cc:114-222 | an entry, the end of the directory or a read error is one step of the listing |
| Lister.DirectoryListing.OpenTop | runtime/bin/directory_linux.cc:88-114 | opening the directory the buffer shows leaves the events ahead as they were; failing to is exactly the listing's fault |
| Lister.DirectoryListing.Next | runtime/bin/directory_linux.cc:83-222 | the answer and the path shown are the next event of the directory, as the listing has it |
| Lister.DirectoryListing.Push | runtime/bin/directory.cc:594-598 | the new entry's directory is the one whose path is in the buffer |
| Lister.DirectoryListing.Pop | runtime/bin/directory.h:118-123 | leaves the entry below with its buffer prefix intact and frees what the entry owned |
| Lister.DirectoryListing.PopAll | runtime/bin/directory.h:127-131 | from any point of any run, when the stack is empty every node ever allocated has been freed exactly once |
| Lister.DirectoryListing.Advance | runtime/bin/directory.cc:586-616 | one turn takes exactly the next event off the recursive listing, or leaves a finished directory |
| Lister.ListAndStop | runtime/bin/directory.cc:586-626 | any number of turns from the start followed by the destructor frees every node allocated, each once |
| Paging.EncodeInjective | runtime/bin/directory.cc:449-495 | pages can be read back: different events never look alike |
| Paging.ReadsBack | sdk/lib/io/directory_impl.dart:374-396 | the reader on the Dart side, with its own numbers, understands every event of the pages as it was meant |
| Paging.AsyncDirectoryListing.SetArray | runtime/bin/directory.h:183-188 | starts an empty page |
| Paging.AsyncDirectoryListing.Handle | runtime/bin/directory.cc:449-495 | puts an event in two slots, keeps the index even and within the page, and answers whether there is room |
| Paging.AsyncDirectoryListing.ListNext | runtime/bin/directory.cc:586-616 | events sent and events ahead always make up the same listing; answers whether to go on with the page |
| Paging.AsyncDirectoryListing.List | runtime/bin/directory.cc:618-626 | ends with a full page or the end of the listing |
| Paging.AsyncDirectoryListing.ListNextRequest | runtime/bin/directory.cc:390-409 | a page is a piece of the listing, full unless it is the last, and empty only after the end |
| Paging.AsyncDirectoryListing.AllPages | runtime/bin/directory.cc:390-409 | the pages of all requests together are the encoded listing |
| Paging.ListAll | runtime/bin/directory.cc:390-409 | requests until the first empty page return exactly the recursive listing, followed by one done record, for every finite file system with or without link cycles, names up to PATH_MAX and system calls that fail; what the listing contains is `ListsWhatTrailsCallFor` |
| Deleter.Deleter.DeleteFile | runtime/bin/directory_linux.cc:244-247 | removes at most the one entry that the buffer shows, looked up through links as unlinkat does, and leaves the buffer's prefix as it was |
| Deleter.Deleter.DeleteDir | runtime/bin/directory_linux.cc:249-254 | dot names are left alone; an entry that is a directory goes with exactly what is below it when no call fails |
| Deleter.Deleter.DeleteRecursively | runtime/bin/directory_linux.cc:256-368 | what lies outside the place the shown path leads to is untouched; success removes exactly that entry with its subtree, a link without its target |
| Deleter.Deleter.DeleteContents | runtime/bin/directory_linux.cc:287-368 | the loop touches only what is below the directory and leaves it empty when no call fails, so that it can be removed |
| Deleter.Deleter.DeleteEntry | runtime/bin/directory_linux.cc:313-360 | an entry is deleted by its kind, nothing outside the directory is touched, and the buffer is cut back to the directory |
| Deleter.Deleter.RemoveDirectory | runtime/bin/directory_linux.cc:303-311 | a directory is removed only when it is empty and named by the path itself, not through a link |
| Deleter.DeleteAll | runtime/bin/directory_linux.cc:474-490 | for every path: success removes exactly the subtree of the entry the path names, links without their targets; failure touches nothing outside it, unless a trailing separator leads through a link to a directory that is not empty; when no call fails it succeeds if and only if the path names the directory itself |
| Deleter.DeleteThroughLink | runtime/bin/directory_linux.cc:256-368 | with a trailing separator behind a link to a directory, the file in that directory is gone and the call has failed |
| DeleteSpec.OutcomeHonours | runtime/bin/directory_linux.cc:256-368 | what is done at the place a path leads to is what is promised of the entry it names, if and only if no link is emptied |
| DeleteSpec.LinkOutcome | runtime/bin/directory_linux.cc:277-311 | through a link nothing outside the named entry changes if and only if the directory behind it is empty |
| DeleteSpec.RemovedOutcome | runtime/bin/directory_linux.cc:303-311 | removing a directory after its contents takes exactly its subtree out of the tree |
| DeleteSpec.UnlinkedOutcome | runtime/bin/directory_linux.cc:244-247 | unlinking a file or a link takes out that entry and nothing else, whatever the link leads to |
| Subtree.AvoidsKept | runtime/bin/directory_linux.cc:313-360 | a path that does not lead through what is deleted still leads to the same directory in the middle of the deletion |
| DeleteTree.DirectoryIsOpened | runtime/bin/directory_linux.cc:256-285 | what lstat calls a directory is the directory that open finds |
| CleanPath.CleanKeepsMeaning | runtime/bin/file.cc:775-846 | a cleaned path leads where the path led, from every current directory |
| CleanPath.CleanIsCanonical | runtime/bin/file.h:227-231 | two paths have the same cleaned form if and only if they lead to the same place from everywhere |
| CleanPath.CleanIsNotLonger | runtime/bin/file.cc:775-846 | the cleaned form of a path is not empty and not longer than the path |
| CleanPath.CleanIsShortest | runtime/bin/file.h:227-231 | no path that leads to the same place from everywhere is shorter than the cleaned form |
| CleanPath.CleanIsIdempotent | runtime/bin/file.cc:775-846 | cleaning a cleaned path changes nothing |
| CleanPath.PushAllIsClean | runtime/bin/file.cc:792-836 | what is written is some dot-dots, none if rooted, followed by proper names |
| CleanUnixPath.CleanUnixPath | runtime/bin/file.cc:775-846 | for outputs of every size that the unchecked first writes of a rooted path fit in: fails if and only if a non-empty input and its terminator do not fit; otherwise answers the length of the cleaned path, never longer than a non-empty input, and writes it if and only if the output has two characters; every access is in bounds |
| CleanUnixPath.TakeComponent | runtime/bin/file.cc:792-836 | one turn of the scanner consumes one component as the component-stack rules say |
| CleanUnixPath.TakeDotDot | runtime/bin/file.cc:801-824 | rules 3 to 5: pops, stays at the root, or keeps the dot-dot |
| CleanUnixPath.PopComponent | runtime/bin/file.cc:805-811 | backing up finds exactly the start of the last component |
| UriDecoder.DecodeSucceeds | runtime/bin/file.cc:1504-1537 | decoding succeeds if and only if every percent sign is followed by two hexadecimal digits |
| UriDecoder.HexDigits | runtime/bin/file.cc:1545-1563 | the accepted digits are the 22 of section 2.1 of RFC 3986, with their values, and no other character |
| UriDecoder.DecodeInvertsEncodings | runtime/bin/file.cc:1504-1537 | decoding gives t exactly from the encodings of t in the sense of section 2.1 of RFC 3986 |
| UriDecoder.DecodeUndoesPercentEncode | runtime/bin/file.cc:1504-1563 | every encoder of section 2.1 of RFC 3986 that escapes the percent sign is undone, in either case of digits |
| UriDecoder.UriDecode | runtime/bin/file.cc:1504-1537 | the program computes the decoding and never reads past the terminator; its C string is the decoded text if and only if the URI has no escaped NUL |
| UriDecoder.NulIsEscaped | runtime/bin/file.cc:1504-1537 | the decoded text holds a NUL if and only if the URI contains `%00` |
| UriDecoder.HexCharPairToByte | runtime/bin/file.cc:1545-1563 | two hexadecimal digits of either case give their byte; anything else is refused |
| StdWrite.WritesExactlyOnce | runtime/bin/eventhandler_win.cc:719-801 | after any interleaving of caller, write thread and completions the device has got the bytes that the answers to the caller add up to, followed by the next ones it will be told of, once and in order; a completion finds its buffer pending, and the buffers made are the pending one and those disposed of, each once |
| StdWrite.WriteCycle | runtime/bin/eventhandler_win.cc:719-801 | an idle handle takes what is presented, up to 64 KB; when the device has taken k bytes of it and the completion has come, the caller is told k |
| StdWrite.WriteAnswers | runtime/bin/eventhandler_win.cc:771-776 | a caller that is owed an answer gets all that was written, as far as it asks, and more than zero |
| StdWrite.Drive | runtime/bin/eventhandler_win.cc:719-801 | a caller that adds up the answers of the object goes through the states of the run, so what came out is what `WritesExactlyOnce` says |
| StdWrite.ActInv | runtime/bin/eventhandler_win.cc:719-801 | every step keeps a buffer waiting either for the thread or for its completion, never both |
| StdWrite.SpuriousWake | runtime/bin/eventhandler_win.cc:727-733 | a wake-up without notification keeps the invariant if and only if nothing is pending; otherwise the second completion does not find its buffer |
| StdWrite.SpuriousWakeDuplicates | runtime/bin/eventhandler_win.cc:727-733 | a run in which a spurious wake-up writes a byte twice and disposes its buffer twice |
| StdWrite.StdHandle.Write | runtime/bin/eventhandler_win.cc:758-801 | refines the step of the caller, for a pending write, an acknowledgement or a new buffer; the answer is exactly what is acknowledged and no more than was presented |
| StdWrite.StdHandle.RunWriteTurn | runtime/bin/eventhandler_win.cc:719-737 | refines the step of the write thread |
| StdWrite.StdHandle.WriteComplete | runtime/bin/eventhandler_win.cc:225-231 | refines the completion; the completed buffer is the pending one |
| AcceptQueue.ListenSocket.IssueAccept | runtime/bin/eventhandler_win.cc:451-483 | pending accepts are the issued ones that have not completed |
| AcceptQueue.ListenSocket.AcceptComplete | runtime/bin/eventhandler_win.cc:485-517 | a usable connection joins the end of the list unless the socket is closing; otherwise the list does not change |
| AcceptQueue.ListenSocket.Accept | runtime/bin/eventhandler_win.cc:562-587 | hands out the oldest connection and issues another accept below five pending, never while closing; an accept that cannot be issued is an error |
| AcceptQueue.ListenSocket.Close | runtime/bin/eventhandler_win.cc:531-555 | drains the list in order, whatever is on it |
| AcceptQueue.ListenSocket.IsClosed | runtime/bin/eventhandler_win.cc:601-603 | closed exactly when closing and every issued accept has completed; then what the destructor asserts holds |
| AcceptQueue.Run | runtime/bin/eventhandler_win.cc:451-603 | in any interleaving connections are handed out once each in order of arrival, and none is lost while the socket is open |
| Serializer.MessageSerializer.IndexOf | client/dart.js:61-71 | the linear search finds the first position of the container, or -1 |
| Serializer.MessageSerializer.DoSerialize | client/dart.js:73-102 | the program with its visited list computes the recursive function, and ends on cyclic graphs |
| Serializer.SerializeIsSound | client/dart.js:59-104 | whatever was visited before, the tree encodes the value, new records are numbered on from there, references point backwards, and no container is visited twice |
| MessagePaths.SerializeNumbersReachable | client/dart.js:59-104 | exactly the reachable containers get one full record each, numbered from 0 in order of first visit, and references use only numbers already given |
| MessagePaths.SerializeIsFaithful | client/dart.js:59-104 | graphs with the same message find the same along every access path: leaves, kinds, names, sharing and cycles |
| MessagePaths.RecordIsUnique | client/dart.js:61-71 | no number is given to two records |
| Deserializer.DeserializeHelper | client/dart.js:110-123 | the program computes the recursive reader; None stands for its exception |
| Deserializer.DeserializeMap | client/dart.js:125-136 | a map is filled key by key as the recursive reader does |
| Deserializer.LastValueCounts | client/dart.js:125-136 | a map that is read has exactly the names of the message, each once, with the last value given for it, undefined if the message has none |
| Deserializer.ReadsAllValues | client/dart.js:125-136 | a map is read if and only if every one of its values can be |
| Deserializer.DeserializeList | client/dart.js:153-161 | a list is filled in order, or the exception of an element is passed on |
| Deserializer.DeserializeCopies | client/dart.js:106-161 | an encoding without references comes back as a structural copy, any other throws |
| Deserializer.RoundTrip | client/dart.js:59-161 | reading back what was serialized gives a structural copy if and only if no container is reached by two paths, and throws otherwise |
| Deserializer.SharedContainerThrows | client/dart.js:106-161 | a list that holds one empty list twice is serialized but cannot be read back |

## Left out

- Three assertions that only say what messages the client sends: an fd is not negative (runtime/bin/eventhandler_linux.cc:153), a listening socket is asked for input or for nothing (runtime/bin/eventhandler.h:392), and a connected socket is closed with its own port (runtime/bin/eventhandler.h:306, where the source notes that others occur). The model covers messages of both kinds.
- Integer widths: file descriptors, ports, counters and times are unbounded integers, except the 64-bit command word of `MessageBits.dfy` and the bytes of `UriDecoder.dfy` and `StdWrite.dfy`.
- Lister.DirectoryListing.constructor: requires a listing that is defined. Where a directory is opened by a path without room for its separator, the source goes on with a length that was never set, so no listing is promised there; failures of `openat` and `fdopendir` are one failure.
- Paging.ListAll: requires that the listing is defined, as above, and that the name as the buffer shows it, without its last character if it has PATH_MAX of them, names the directory too.
- PlainListing.ListsExactly: a path fits when it and a separator are shorter than PATH_MAX, so that it is shown in full and can be entered; `ListingLaw.ListsWhatTrailsCallFor` covers the paths that do not.
- Deleter.DeleteAll: that it succeeds is promised when no call fails, all paths fit and the path does not lead through what it deletes; readdir yields the entries present when the directory was opened.
- CleanUnixPath.CleanUnixPath: a rooted path is written without a check to an output of no characters, and the root to one of a single character; these accesses are out of bounds and excluded.
- The synchronous listing (`SyncDirectoryListing`) and `Directory::List` on a listing whose name did not fit, which only the synchronous form can reach.
- Hash maps, reference counts, monitors, namespaces and the listening-socket registry are a map, nothing, atomic steps, the identity and a boolean.
- The Android, macOS, Fuchsia and remaining Windows event handlers and directory code; the closing of `StdHandle` and the start of its write thread.
- File, socket, process and crypto system-call wrappers, native argument glue, `dfe.cc` and `gzip.h`: they would only add easy members.
- In client/dart.js: JSON text, DOM events and local storage; send ports are opaque leaves; property getters, the order of integer-like property names and a property named `__proto__`.
