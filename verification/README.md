# Verified models of asio's buffer layer and of garbd

This project models, in Dafny, the parts of the Galera source tree with the most intricate
sequential and concurrent logic outside the replication protocol, and proves what they promise:

- **Buffers, BufferCopy** (`asio/asio/buffer.hpp`): buffers are an address and a size in one flat
  memory. All `buffer_copy` overloads are proved to do one thing, `Buffers.Copied`, for every way of
  cutting target and source into buffers, empty ones included.
- **BuffersIterator** (`asio/asio/buffers_iterator.hpp`): the two-level cursor with its cached buffer
  and redundant position is proved to be plain indexing into the concatenated bytes, over every
  in-range run of `++`, `--`, `+=` and `-=`. The source's assertions are `assert` statements.
- **Streambuf** (`asio/asio/basic_streambuf.hpp`): the compacting, growing byte queue refines a bounded
  FIFO over every run of puts, gets, prepares, commits and consumes, replies and throws included.
- **SocketStreambuf** (`asio/asio/basic_socket_streambuf.hpp`, data path): nothing is lost, repeated or
  reordered for any pattern of partial sends and receives while nothing fails, and exactly what is
  repeated once something does.
- **SocketTimer** (the same file, timer): the self-rearming expiry timer over every interleaving.
- **Process** (`garb/process.cc`, posix_spawn branch): resource accounting over the goto cleanup graph
  for every outcome of every system call and over every life of a process object, and the wiring of
  the child's standard streams.
- **RecvLoop** (`garb/garb_recv_loop.cpp`): the receive loop and its two helper threads as one state
  machine, with invariants over every interleaving, and the loop itself on top of the process model.
- **MemberList** (`gcs/src/gcs_group.cpp`, `gcs/src/gcs.cpp` and `garb/garb_recv_loop.cpp`): the packed
  member list, written on one side and walked on the other.
- **Coroutine, CoroutineBodies** (`asio/asio/coroutine.hpp`): resuming by label refines running the
  body in one go, for any flow graph, loops and forks included; and for structured bodies what is
  run is what the body says.

The environment (sockets, the clock, the kernel, the order of thread steps) is always a parameter:
an arbitrary function, an arbitrary sequence of events, or a nondeterministic choice.

## Where the code falls short of what one would expect

Each of these is stated with the exact condition under which the expected property does hold.

- A throwing `prepare` has already moved the bytes but not the pointers, so unread bytes change:
  `FailedPrepareKeeps`, `FailedPrepareSafe`, and a concrete case in `FailedPrepareDamages`.
- `commit` and `consume` add the count to a pointer before comparing, and cast it to `int`:
  `BumpExact`, with the case of the largest count in `LargestCountGoesBack` and `ConsumeAllRestores`.
- A flush that failed part-way and is retried sends the first bytes twice: `RetryAfterFailedFlush`,
  and a concrete network in `RetryDuplicates`.
- `close` reports success although the flush failed, and drops the unsent bytes:
  `SocketStreambuf.SocketStreambuf.Close`, and a concrete network in `CloseLoses`.
- A second `execute` forgets the streams of the first (`ExecuteAgainLoses`, `ExecuteTwice`), and can
  break the assertions in `wait` and the destructor (`ExecuteKeepsOwnership`, `SecondSpawnFails`).
- The child's standard streams can be wrong if the parent has some of 0, 1, 2 closed: `ChildWiring`,
  `ClosedStdout`.
- Leaving the group joins thread handles that are not set if the script was never started or a thread
  could not be created; and any return after a restart that failed in the spawn fails an assertion of
  the process object: `JoinsOfUnsetHandles`, `UnguardedLeaves`.
- A coroutine that runs off its end after a fork in the same entry is not complete, although the
  documentation says so: `LeavingCompletes`, `ForkLeavesIncomplete`.

## Model

| member | source | states |
|---|---|---|
| Buffers.OffsetAndLimit | asio/asio/buffer.hpp:442-758 | an offset drops leading bytes, or all when there are too few; a limit keeps leading bytes, or all |
| Buffers.BufferArithmetic | asio/asio/buffer.hpp:640-676 | offsets add up, limits take the smaller, and a limit after an offset selects a byte range |
| Buffers.CopiedMeaning | asio/asio/buffer.hpp:1246-1272 | what a copy means: nothing outside the first n target positions changes, the source is unchanged, and a non-overlapping target reads as n source bytes then its old remainder |
| BufferCopy.BufferSize | asio/asio/buffer.hpp:385-396 | the size of a sequence is the length of the concatenation |
| BufferCopy.CopyOne | asio/asio/buffer.hpp:1295-1304 | single to single copies min of both sizes as the flat specification does |
| BufferCopy.CopyToOne | asio/asio/buffer.hpp:1402-1421 | sequence to single buffer meets the flat specification with min of both totals |
| BufferCopy.CopyFromOne | asio/asio/buffer.hpp:1573-1592 | single buffer to sequence meets the flat specification with min of both totals |
| BufferCopy.CopySeq | asio/asio/buffer.hpp:1693-1736 | the two-cursor loop terminates and meets the flat specification for all segmentations |
| BufferCopy.CopyOneLimited | asio/asio/buffer.hpp:1761-1765 | as above with the limit as third bound |
| BufferCopy.CopyToOneLimited | asio/asio/buffer.hpp:1880-1885 | as above with the limit as third bound |
| BufferCopy.CopyFromOneLimited | asio/asio/buffer.hpp:2060-2065 | as above with the limit as third bound |
| BufferCopy.CopySeqLimited | asio/asio/buffer.hpp:2186-2231 | the limited two-cursor loop terminates, returns min of target, source and limit, and meets the flat specification |
| BufferCopy.ScatterThenGather | asio/asio/buffer.hpp:612-618 | scattering into any segmentation of the same size and gathering again returns the original bytes |
| BufferCopy.OverloadsAgree | asio/asio/buffer.hpp:1738-2231 | whichever specialised overload fits, it returns and writes what the general one does |
| BuffersIterator.CursorUnique | asio/asio/buffers_iterator.hpp:306-310 | two cursors with the same position are at the same buffer and offset, so comparing positions is sound |
| BuffersIterator.CursorRange | asio/asio/buffers_iterator.hpp:126-163 | positions lie between 0 and the total, and only the end has the total |
| BuffersIterator.Iterator.Begin | asio/asio/buffers_iterator.hpp:127-144 | begin skips empty buffers and is at position 0 |
| BuffersIterator.Iterator.End | asio/asio/buffers_iterator.hpp:147-163 | end is at the total number of bytes |
| BuffersIterator.Iterator.Dereference | asio/asio/buffers_iterator.hpp:301-304 | dereferencing gives the byte of the concatenation at the position |
| BuffersIterator.Iterator.Assign | asio/asio/buffers_iterator.hpp:166-169 | storing through the iterator changes that byte of the concatenation and no other |
| BuffersIterator.Iterator.Subscript | asio/asio/buffers_iterator.hpp:178-183 | it[n] is the byte n positions on, in either direction |
| BuffersIterator.Iterator.Increment | asio/asio/buffers_iterator.hpp:313-333 | moves to the next position, past empty buffers, and keeps the cursor canonical |
| BuffersIterator.Iterator.Decrement | asio/asio/buffers_iterator.hpp:336-363 | moves to the previous position, past empty buffers, and always finds a buffer |
| BuffersIterator.Iterator.Advance | asio/asio/buffers_iterator.hpp:366-445 | for every in-range n reaches position + n, terminates, and fires no assertion |
| BuffersIterator.Iterator.PlusAssign | asio/asio/buffers_iterator.hpp:216-220 | += n ends n positions on |
| BuffersIterator.Iterator.MinusAssign | asio/asio/buffers_iterator.hpp:223-227 | -= n ends n positions back |
| BuffersIterator.Iterator.AdvanceForward | asio/asio/buffers_iterator.hpp:368-401 | the forward loop reaches the position and meets the end only with nothing left to advance |
| BuffersIterator.Iterator.AdvanceBackward | asio/asio/buffers_iterator.hpp:402-444 | the backward loop reaches the position and never takes its begin-of-buffers branch |
| BuffersIterator.Iterator.StepBack | asio/asio/buffers_iterator.hpp:428-442 | the inner loop always finds a previous non-empty buffer |
| BuffersIterator.Run | asio/asio/buffers_iterator.hpp:186-254 | any in-range run of ++, --, += and -= moves the iterator as it moves an index |
| BuffersIterator.IndexOfOne | asio/asio/buffers_iterator.hpp:186-227 | the four operators lead an index from p to p + 1, p - 1, p + n and p - n, and += and -= undo each other |
| BuffersIterator.IndexOfConcat | asio/asio/buffers_iterator.hpp:186-227 | operations one after the other compose |
| BuffersIterator.ReadAfter | asio/asio/buffers_iterator.hpp:166-227 | reading after any in-range run is indexing the concatenation |
| BuffersIterator.Compare | asio/asio/buffers_iterator.hpp:257-297 | ==, < and - are those of the flat index, and equality means the same buffer and offset |
| BuffersIterator.AdvanceAgrees | asio/asio/buffers_iterator.hpp:313-445 | advance by n equals n single steps and equals advance by m then n - m, in buffer, offset and position |
| BuffersIterator.Walk | asio/asio/buffers_iterator.hpp:461-475 | walking from begin to end reads exactly the concatenation |
| BuffersIterator.LineariseAgreesWithWalk | asio/asio/buffer.hpp:612-618 | linearising with buffer_copy stores the bytes that walking reads |
| Streambuf.Streambuf.constructor | asio/asio/basic_streambuf.hpp:131-141 | starts empty with the smaller of the maximum and 128 bytes to put |
| Streambuf.Streambuf.Reserve | asio/asio/basic_streambuf.hpp:299-337 | fails exactly when size + n exceeds the maximum, keeps unread bytes on success, grows storage only if needed and to exactly the sum; on failure moves bytes under fixed pointers |
| Streambuf.Streambuf.Prepare | asio/asio/basic_streambuf.hpp:190-209 | throws exactly when size + n exceeds the maximum; otherwise returns n bytes inside the storage and past the unread ones |
| Streambuf.Streambuf.Commit | asio/asio/basic_streambuf.hpp:211-229 | moves the put pointer by the cast and clamped count; the first min(n, output size) output bytes are appended to the unread ones exactly when the count is in range |
| Streambuf.Streambuf.Consume | asio/asio/basic_streambuf.hpp:231-245 | moves the get pointer by the cast and clamped count; exactly the first min(n, size) unread bytes are removed exactly when the count is in range |
| Streambuf.BumpExact | asio/asio/basic_streambuf.hpp:225-244 | clamp on addresses and cast to int together give the documented minimum exactly when the sum of address and count does not wrap and the minimum fits an int, or it wraps and the low 32 bits of the count are the room left |
| Streambuf.LargestCountGoesBack | asio/asio/basic_streambuf.hpp:235-244 | for the largest size_t the pointer moves back by one, whatever the room |
| Streambuf.ConsumeAllRestores | asio/asio/basic_streambuf.hpp:235-245 | consuming SIZE_MAX bytes of the unread 1, 2 at get offset 1 leaves 0, 1, 2 unread |
| Streambuf.Streambuf.Underflow | asio/asio/basic_streambuf.hpp:254-265 | shows the first unread byte and catches the get end up, or reports end of file |
| Streambuf.Streambuf.Overflow | asio/asio/basic_streambuf.hpp:267-297 | appends a character; throws exactly when the queue is full, and then the get offset is 0 and no unread byte changes; the put area grows to 128 more bytes or the maximum |
| Streambuf.Streambuf.Sputc | asio/asio/basic_streambuf.hpp:274-297 | the inherited character put appends one byte or throws exactly when full |
| Streambuf.Streambuf.Sbumpc | asio/asio/basic_streambuf.hpp:254-265 | the inherited character get removes the first unread byte, also when the get end lags |
| Streambuf.Streambuf.ReadSizeHelper | asio/asio/basic_streambuf.hpp:343-361 | both helpers avoid underflow; the result fits the limit and the room left, is 0 only if one of them is 0, and is otherwise as large as the preference allows |
| Streambuf.Streambuf.PrepareForReading | asio/asio/basic_streambuf.hpp:343-361 | preparing the suggested size never throws |
| Streambuf.Conservation | asio/asio/basic_streambuf.hpp:62-68 | on every history, bytes removed followed by the unread ones are the bytes put or committed, in order, and the size bound holds |
| Streambuf.HistoryIsFifo | asio/asio/basic_streambuf.hpp:88-103 | as long as no more is committed than was written into prepared space, over any number of commits and with puts in between, the streambuf holds exactly what the FIFO of the operations holds, and a get replies its first byte or -1 |
| Streambuf.Apply | asio/asio/basic_streambuf.hpp:158-337 | each put, get, prepare and fill, commit or consume does to input and output sequence what the documentation says, and throws or strays exactly under the stated condition on sizes and counts |
| Streambuf.Run | asio/asio/basic_streambuf.hpp:131-337 | every run of puts, gets, prepares, commits and consumes, in any order and with any counts, is a history with the replies of the queue, and ends early exactly at a throw or a count out of range |
| Streambuf.FailedPrepareKeeps | asio/asio/basic_streambuf.hpp:312-331 | a throwing prepare keeps the unread bytes exactly when they repeat with the period of the get offset |
| Streambuf.FailedPrepareSafe | asio/asio/basic_streambuf.hpp:312-331 | it keeps every content of a size exactly when the get offset is 0 or at least that size |
| Streambuf.FailedPrepareDamages | asio/asio/basic_streambuf.hpp:312-331 | unread bytes 1, 2 at get offset 1 become 2, 2 when a prepare throws |
| SocketStreambuf.SocketStreambuf.constructor | asio/asio/basic_socket_streambuf.hpp:131-139 | starts with nothing pending and nothing available |
| SocketStreambuf.SocketStreambuf.InitBuffers | asio/asio/basic_socket_streambuf.hpp:432-441 | empties both areas and keeps the mode |
| SocketStreambuf.Network.FlushSendsAll | asio/asio/basic_socket_streambuf.hpp:365-391 | how many bytes a flush sends is all of them exactly when no call fails and the timer has not expired before the call that takes the last |
| SocketStreambuf.Network.FlushTrouble | asio/asio/basic_socket_streambuf.hpp:365-391 | a flush sends less, or ends with the timer expired, only after a failed call or a firing of the timer |
| SocketStreambuf.Network.FiringEndsFlush | asio/asio/basic_socket_streambuf.hpp:371-391 | a timer that fires during a call that leaves bytes ends the flush after that call, with operation_aborted |
| SocketStreambuf.Network.FailureEndsFlush | asio/asio/basic_socket_streambuf.hpp:378-388 | a failing call ends the flush at once, with the code of that call |
| SocketStreambuf.SocketStreambuf.SendAll | asio/asio/basic_socket_streambuf.hpp:365-391 | the loop of the flush ends in every case, with exactly the bytes, calls, expiry and error code that the network determines |
| SocketStreambuf.SocketStreambuf.Overflow | asio/asio/basic_socket_streambuf.hpp:332-402 | success delivers all pending bytes in order, whatever the partial sends; failure delivers a proper prefix and leaves the put area; an expired timer aborts before sending; which of them happens, and how long the prefix is, is the stated function of the network |
| SocketStreambuf.SocketStreambuf.Sync | asio/asio/basic_socket_streambuf.hpp:404-407 | 0 exactly when the network lets the flush succeed, and then everything pending was accepted; -1 otherwise, with the exact prefix accepted and all still pending |
| SocketStreambuf.SocketStreambuf.SetBuf | asio/asio/basic_socket_streambuf.hpp:409-419 | switching to unbuffered succeeds exactly for a null request with nothing pending |
| SocketStreambuf.SocketStreambuf.Sputc | asio/asio/basic_socket_streambuf.hpp:332-402 | a successful put adds one byte behind all bytes accepted or pending, in either mode |
| SocketStreambuf.SocketStreambuf.Underflow | asio/asio/basic_socket_streambuf.hpp:300-330 | an empty get area is filled with exactly the bytes the socket handed over, or fails exactly when the timer has expired or the call fails, with operation_aborted or the code of that call |
| SocketStreambuf.SocketStreambuf.Sbumpc | asio/asio/basic_socket_streambuf.hpp:300-330 | reading takes the handed-over bytes in order, none twice and none lost, and fails exactly when none is left and the timer has expired or the call fails |
| SocketStreambuf.SocketStreambuf.ExpiresAt | asio/asio/basic_socket_streambuf.hpp:259-268 | setting the expiry changes the timer state as the timer model says, so an expired one is re-armed |
| SocketStreambuf.SocketStreambuf.Close | asio/asio/basic_socket_streambuf.hpp:218-226 | reports only whether the socket closed; all pending bytes were accepted exactly when the network lets the flush succeed, otherwise the exact prefix was and the rest is dropped |
| SocketStreambuf.CloseLoses | asio/asio/basic_socket_streambuf.hpp:213-226 | a close that succeeds with the byte neither sent nor pending |
| SocketStreambuf.Apply | asio/asio/basic_socket_streambuf.hpp:259-419 | one operation adds its byte behind all others or fails, for a cause, with all pending bytes kept; what it reads is the next of the bytes handed over; setting a time to come ends an expiry |
| SocketStreambuf.Run | asio/asio/basic_socket_streambuf.hpp:259-419 | over every run of puts, flushes, gets and settings of the expiry, accepted then pending bytes are all bytes written, and bytes read then available ones are all bytes handed over; a failing operation repeats exactly the bytes it had sent |
| SocketStreambuf.RetryAfterFailedFlush | asio/asio/basic_socket_streambuf.hpp:365-391 | retrying a failed flush delivers twice exactly the bytes that the network let the first one send |
| SocketStreambuf.RetryDuplicates | asio/asio/basic_socket_streambuf.hpp:365-391 | a network on which writing 1, 2 and flushing twice sends 1, 1, 2 |
| SocketTimer.SocketTimer.ExpiresAt | asio/asio/basic_socket_streambuf.hpp:259-268 | setting the expiry keeps the invariant, starts a timer only if none is pending, and re-arms an expired one |
| SocketTimer.SocketTimer.Fire | asio/asio/basic_socket_streambuf.hpp:494-517 | a handler call keeps the invariant, and expires the timer unless a later expiry was set |
| SocketTimer.Run | asio/asio/basic_socket_streambuf.hpp:494-543 | over every interleaving pending means exactly one handler outstanding, expired means the set expiry has passed, handler runs and closings never exceed the settings, and a pending timer whose expiry has come can call its handler |
| SocketTimer.ExpiryIsSeen | asio/asio/basic_socket_streambuf.hpp:246-268 | after any interleaving, once a callable handler was called, the timer is expired exactly when an expiry was set and its time has come |
| Process.OpenPipe | garb/process.cc:83-87 | a pipe is two distinct new descriptors, or nothing and an error |
| Process.CloseAll | garb/process.cc:491-497 | cleanup closes exactly the descriptors still held, each once |
| Process.Process.ConfigureAttr | garb/process.cc:289-355 | reports the error of the first attribute call that fails, in order, and none exactly when every call that is made succeeds |
| Process.Process.AddActions | garb/process.cc:368-433 | reports the error of the first action that cannot be added, and none exactly when every action was added, in order |
| Process.Process.Launch | garb/process.cc:275-456 | whatever fails, attribute and actions are destroyed exactly once; a child exists exactly when all calls up to the spawn succeed |
| Process.Process.OpenMorePipes | garb/process.cc:96-110 | the held descriptors are distinct and new, and complete for the mode exactly without error |
| Process.Process.AttachStreams | garb/process.cc:458-487 | each stream takes over one descriptor, which cleanup then skips, and err_ is 0 exactly when all streams opened |
| Process.Process.ExecutePiped | garb/process.cc:94-513 | every path to cleanup_pipe leaves only the attached streams open |
| Process.Process.Execute | garb/process.cc:54-514 | for every outcome of every call each opened descriptor is closed once or owned by one stream, everything else is released, and a runnable command leaves a child or an error, which is that of the first failing call |
| Process.SingleFailureIsReported | garb/process.cc:83-456 | whichever call of any mode fails alone, its error number is reported, ENOMEM for an allocation |
| Process.Process.CloseWritePipe | garb/process.cc:547-558 | closes exactly the write stream and keeps ownership |
| Process.Process.Wait | garb/process.cc:560-607 | a reaped child gives its exit status, with 126, 127 and 143 reported as 13, 2 and 4, an aborted one errno or 10; a failing waitpid gives errno and keeps the child; and all streams are closed exactly when the child is gone |
| Process.WaitReportsStatus | garb/process.cc:560-607 | the same values for the effect of wait as a function |
| Process.Process.Destroy | garb/process.cc:516-545 | closes exactly the streams still owned |
| Process.WaitReportsZero | garb/process.cc:560-607 | wait returns 0 exactly for exit status 0, or for no child and no error |
| Process.ExecuteKeepsOwnership | garb/process.cc:437-442 | in every mode, the invariant asserted by wait and the destructor survives execute exactly unless the spawn fails while earlier streams are held |
| Process.SecondSpawnFails | garb/process.cc:437-442 | with the second spawn failing, all streams of the first child are left without a process |
| Process.Lifecycle | garb/process.cc:43-607 | over every sequence of starts in any mode, closings and waits with any failures, up to the destructor, an assertion fails exactly where the brief states say so; otherwise exactly as many descriptors stay open as streams were forgotten, and everything else is released |
| Process.Perform | garb/process.cc:43-607 | each operation moves the brief state as stated and accounts for every descriptor |
| Process.DisciplinedLife | garb/process.cc:43-607 | if the caller waits for each child before starting another, no assertion fails and no stream is forgotten, whatever the calls do |
| Process.TurnsAreDisciplined | garb/process.cc:43-607 | starting and successfully waiting by turns is such a life |
| Process.DisciplinedLifecycle | garb/process.cc:43-607 | such a life ends with exactly the resources it began with |
| Process.ExecuteAgainLoses | garb/process.cc:458-487 | in every mode, execute forgets exactly the streams held before in the fields it sets, exactly when it gets past the spawn |
| Process.ExecuteTwice | garb/process.cc:458-487 | executing twice with every call succeeding leaves three new descriptors open that no stream owns |
| Process.ChildWiring | garb/process.cc:368-433 | in every mode, no file action fails, and the child gets the right standard streams and no other pipe end exactly when no pipe descriptor is a standard one the actions clobber |
| Process.ClosedStdout | garb/process.cc:368-433 | a parent without descriptor 1 whose pipe takes it starts a child without stdout |
| Process.ExecuteWires | garb/process.cc:357-442 | in every mode, a child of a parent with the redirected standard descriptors open is wired correctly |
| RecvLoop.StepKeepsInv | garb/garb_recv_loop.cpp:75-240 | every step of loop and helper threads keeps the invariant: a set flag implies a started script, which left a child or an error |
| RecvLoop.RunKeepsInv | garb/garb_recv_loop.cpp:118-266 | the invariant holds in every state of every interleaving |
| RecvLoop.ChildWasSpawned | garb/garb_recv_loop.cpp:185-195 | every child known to the loop was returned by an earlier spawn |
| RecvLoop.ReturnStep | garb/garb_recv_loop.cpp:198-255 | a returned loop returned in one step |
| RecvLoop.StaysReturned | garb/garb_recv_loop.cpp:198-255 | once returned, the result never changes |
| RecvLoop.ZeroMeansChildSucceeded | garb/garb_recv_loop.cpp:198-255 | with a script the loop returns 0 only after an inconsistency or when a child of this run was reported with exit status 0; and after waiting it returns that child's status, translated as wait does, or the error that the last start left |
| RecvLoop.NoScriptReturnsZero | garb/garb_recv_loop.cpp:236-255 | without a script every return is 0 and nothing is violated |
| RecvLoop.ThreadsActOnce | garb/garb_recv_loop.cpp:75-116 | each helper thread acts once: its flag is set exactly when one acted, and no more act than were created |
| RecvLoop.JoinsOfUnsetHandles | garb/garb_recv_loop.cpp:198-255 | on every interleaving: with a script, an unset thread handle is joined exactly when the group is left and the last start, if any, did not create all threads; the destructor of the process object, run by every return, fails an assertion exactly when the last primary configuration started no child, left pid 0 and found a stream held; the assertion in wait fails exactly when the group is so left with a flag set and the read stream held |
| RecvLoop.AtReturn | garb/garb_recv_loop.cpp:198-255 | the same for the one step in which the loop returns, and which result it gives: 0 without a script or after an inconsistency, 1 without a flag, else what wait reported |
| RecvLoop.FromLastPrim | garb/garb_recv_loop.cpp:185-195 | process object and handles are those that the last start left |
| RecvLoop.FlagsFromSteps | garb/garb_recv_loop.cpp:75-116 | a flag is set exactly when a helper thread made the step that sets it |
| RecvLoop.SameProcess | garb/garb_recv_loop.cpp:137-240 | between primary configurations the process object and the thread handles stay as they are |
| RecvLoop.UnguardedLeaves | garb/garb_recv_loop.cpp:163-255 | the loop itself has these runs, on concrete events: leaving at once joins unset handles; leaving, or an inconsistency, after a restart whose spawn fails breaks the destructor; with the first script ended in between, leaving also breaks wait |
| RecvLoop.LeaveWithoutThreads | garb/garb_recv_loop.cpp:190-204 | leaving after any start that could not create one of its threads joins an unset handle |
| RecvLoop.RestartThenReturn | garb/garb_recv_loop.cpp:185-255 | after any failed restart without a flag, both ways to return break the destructor, with result 1 or 0 |
| RecvLoop.RestartAfterEnd | garb/garb_recv_loop.cpp:185-222 | after any failed restart with the first script ended, leaving breaks wait and the destructor |
| RecvLoop.Loop.constructor | garb/garb_recv_loop.cpp:121-135 | the locals of the loop form an initial state |
| RecvLoop.Loop.OnPrimary | garb/garb_recv_loop.cpp:163-197 | handling a primary configuration is a step of the state machine, for every outcome of execute and of the three thread creations, and which one follows from those outcomes |
| RecvLoop.Loop.Execute | garb/garb_recv_loop.cpp:186 | what execute does to the process object follows from the outcome of its calls |
| RecvLoop.Loop.Finish | garb/process.cc:516-545 | returning destroys the process object: its streams are closed, or an assertion fails exactly when one is held without a child |
| RecvLoop.Loop.OnSelfLeave | garb/garb_recv_loop.cpp:198-240 | handling the message about leaving is a step of the state machine, with the joins and the destruction of the process object |
| RecvLoop.Loop.Await | garb/garb_recv_loop.cpp:203-214 | the wait of the loop has the effect of process::wait, also where its assertion would fail |
| RecvLoop.Loop.OnEvent | garb/garb_recv_loop.cpp:141-262 | every event makes the one step that answers it |
| RecvLoop.Loop.Handle | garb/garb_recv_loop.cpp:137-266 | the loop, driving the process model under any sequence of events, is a run of the state machine, so its 0 with a script means an inconsistency or a child of this run with exit status 0, its result after waiting is that child's status, and without a script it is 0 |
| MemberList.RecordSize | gcs/src/gcs_group.cpp:1631-1645 | the computed size is the length of the packed list |
| MemberList.PackMember | gcs/src/gcs_group.cpp:1689-1697 | appends one packed member, three strings with terminators and the seqno, and writes nothing behind it |
| MemberList.FieldsOfMember | gcs/src/gcs_group.cpp:1689-1697 | where id, name, address and seqno of a member lie in its packed form |
| MemberList.MemberAt | gcs/src/gcs_group.cpp:1686-1698 | every field of every member of a packed list lies behind the members before it |
| MemberList.Pack | gcs/src/gcs_group.cpp:1686-1698 | writes all members in order within the computed size |
| MemberList.SkipMember | garb/garb_recv_loop.cpp:175-179 | skips exactly one member, seqno bytes of zero included |
| MemberList.Walk | garb/garb_recv_loop.cpp:168-180 | reads only packed bytes and stops exactly at the first string of the wanted member, or at the end |
| MemberList.PackThenFind | garb/garb_recv_loop.cpp:168-180 | the id found in a list the group packed is the donor's, and so is the seqno behind it |
| MemberList.PackThenRead | gcs/src/gcs_group.cpp:1686-1698 | a packed list read back field by field gives every member, in order |
| MemberList.CountNonArbitrators | gcs/src/gcs.cpp:962-973 | the walk of the group connection counts exactly the members with an address |
| Coroutine.TargetOfLabel | asio/asio/coroutine.hpp:281-318 | the switch resumes at the yield or fork that saved the label, and at no other |
| Coroutine.StepRefines | asio/asio/coroutine.hpp:281-318 | entering is no step of the uninterrupted body and every step inside an entry is one |
| Coroutine.RunRefines | asio/asio/coroutine.hpp:57-196 | re-entering again and again logs exactly what the uninterrupted body logs, and makes progress |
| Coroutine.CompletesTogether | asio/asio/coroutine.hpp:57-196 | the coroutine completes with a log exactly when the uninterrupted body ends with it |
| Coroutine.YieldLeaves | asio/asio/coroutine.hpp:294-309 | a yield runs its statement, leaves the entry incomplete and goes on behind it; a yield break leaves it complete |
| CoroutineBodies.CoroutineRunsBody | asio/asio/coroutine.hpp:57-230 | for every body of statements, yields, forks, if and while: entered again and again the coroutine completes exactly when the body ends, and has executed exactly the statements that the body executes, in order |
| CoroutineBodies.ExecRuns | asio/asio/coroutine.hpp:57-230 | the flow graph of a statement does what the statement does |
| CoroutineBodies.CompileWellFormed | asio/asio/coroutine.hpp:281-318 | the flow graph of a statement is a coroutine body with different labels |
| CoroutineBodies.StraightRuns | asio/asio/coroutine.hpp:90-110 | a body of statements and yields ends at -1 having executed each once, in order |
| Coroutine.ForkSplits | asio/asio/coroutine.hpp:198-230 | parent and child continue behind the fork, told apart by is_child |
| Coroutine.ForkBranches | asio/asio/coroutine.hpp:198-230 | a branch behind a fork is taken by parent and child each by its own is_child |
| Coroutine.CompleteIsAbsorbing | asio/asio/coroutine.hpp:283-291 | a complete coroutine runs nothing more |
| Coroutine.ModifiedMeansForked | asio/asio/coroutine.hpp:264-276 | inside an entry the reference is modified exactly when the entry executed a fork |
| Coroutine.LeavingCompletes | asio/asio/coroutine.hpp:194-196 | leaving without a yield completes the coroutine exactly when the entry executed no fork; otherwise the next entry does, running nothing |
| Coroutine.ForkLeavesIncomplete | asio/asio/coroutine.hpp:194-196 | a body that is one fork leaves the coroutine incomplete, at the label of the fork |

## Left out

- Streambuf.Run: stops at a commit or consume whose count is out of range, whose pointer is given exactly but may lie outside the vector; int has 32 bits and size_t 64.
- SocketStreambuf.Run: within one connection; connecting again discards the areas. When the timer fires is up to the network model, which may let it fire also when none is pending.
- MemberList.Walk: the text of the id is found, parsing it into a UUID is not modelled.
- RecvLoop.Loop.Handle: messages to the group (last applied seqno, joins, closing it) are not modelled. That joined threads end, and what a helper thread does with a stream that could not be opened, are not modelled.
- RecvLoop.ZeroMeansChildSucceeded: exceptions thrown by the group connection, and data races on the streams that wait closes while a helper thread reads them, are not modelled.
- Process.Process.Execute: the fork branch, the environment passed to the child and the log messages are not modelled; destroying an object counts as releasing it even if the call reports an error.
- Sums of buffer sizes are unbounded; sequences whose total exceeds the range of size_t are out of scope.
- `buffer_copy` between overlapping regions, buffer debugging, putback, and the seek and bulk functions inherited from std::streambuf.
- Coroutine bodies are flow graphs of statements; local variables skipped by the switch, exceptions inside a yielded statement and the int range of labels are not modelled.
- Resolver, connect and the socket, acceptor and service classes of asio, which forward to the operating system.
- Daemonisation, configuration, logging and signal handling in garb.
- The replication, group communication and cache libraries (galera, gcs, gcomm, gcache), apart from the packed member list.
