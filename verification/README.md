# Verified model of the Eltex exercises

This project models the protocols, heap structures and codecs among a set of C exercises and proves
their properties with Dafny 4.11. `dafny verify dfyconfig.toml` checks all of it.

- **Taxi dispatch** (`Dispatch`, `DispatchProofs`, `DispatchProgress`, `DispatchCode`): a CLI and any number of
  drivers over FIFO queues. `Dispatch` is the whole system as steps and runs, `DispatchProofs` what every run
  keeps, `DispatchProgress` that it comes to rest, and `DispatchCode` the handlers as they update their
  variables, with objects that carry out any run. A driver's step that composes a message and the step that
  sends it are separate, so every interleaving is covered.
- **Shared file under semaphores** (`Semaphores`, `SysVReaders`, `PosixLock`, `PosixReaders`): three
  reader/writer programs as transition systems over program points, with a pipe of any capacity. The semantics
  of an atomic `semop` with several operations and of SEM_UNDO are those of the semop page of POSIX.1.
- **Raw UDP server** (`Checksum`, `UdpReply`, `ClientTable`, `UdpServer`): the Internet checksum of RFC 1071, the
  reply packet with the pseudo-header of RFC 768, the table of 100 client slots, and the loop over packets.
- **Linked structures** (`ContactData`, `SearchTree`, `TreeHeap`, `ContactList`, `PriorityQueue`): heap
  nodes rewired in place against finite maps and sequences, and a bounded queue in an array.
- **Codecs** (`Decimal`, `Phonebook`, `Chmod`, `CharDevice`): the phonebook file, symbolic permissions, and the
  character device.

Where a property does not hold of the code for all inputs, the code is modelled as it is, a lemma names an
input that breaks it, and the main lemma says exactly when it holds:

- The CLI's view of a driver is true iff the driver never accepted a task with a timer of zero or less. Nothing
  in send_task checks this; a timer of zero or less never expires.
- A saved phonebook comes back iff the names of the first two records are not empty and hold no bar.
- A failed load leaves the element after the last record untouched iff no number was read.
- A reply stays inside its packet buffer iff its text has at most 995 characters.
- The UDP checksum of a reply is right iff the datagram has even length or the byte csum reads past it is zero.
- Tree deletion runs into a branch that returns no value iff the id is absent; the menu's search keeps it away.
- The semaphore programs do get stuck; the stuck states are characterised exactly and shown to be reached.

The proofs about the protocols and tables range over every run: a run is the list of steps taken, and what
happened in it (tasks sent, messages received, numbers sent) is computed from that list. Integers are unbounded
except where a width matters (checksum words and accumulator, phonebook ids, the length of printed numbers).

## Model

| member | source | states |
|---|---|---|
| `Dispatch.FindDriver` | Additional Tasks/Task 2/cli.c:126-131 | the first row of a pid, or -1 when no row has it |
| `DispatchProofs.AlwaysKept` | Additional Tasks/Task 2/cli.c:35-116 | for every run and every driver: its state is what its own history says, everything it composed is received, pending or unsent exactly once and in order, the tasks sent to it are handled or queued in order, and its row shows the updates received |
| `DispatchProofs.OneRowPerDriver` | Additional Tasks/Task 2/main.c:29-38 | in every reachable state the table has at most one row for a driver |
| `DispatchProofs.RegisteredUnlessFull` | Additional Tasks/Task 2/main.c:29-38 | a driver the CLI has received any message of has a row, unless all 50 rows are taken |
| `DispatchProofs.ViewPlusPendingIsTruth` | Additional Tasks/Task 2/cli.c:58-116 | in every reachable state the row of a registered driver plus its pending updates gives its remaining value, and equals its true state if and only if every task it accepted had a positive timer |
| `DispatchProofs.StatusIsTruthful` | Additional Tasks/Task 2/cli.c:133-171 | with none of a driver's messages under way, get_status shows its true state, if and only if it accepted positive timers only |
| `DispatchProofs.PositiveTasksGiveTruth` | Additional Tasks/Task 2/cli.c:141-155 | if every send_task of a run has a positive timer, view plus pending updates is the truth for every driver, and a driver is busy iff its timer is armed |
| `DispatchProofs.DrainIsRun` | Additional Tasks/Task 2/main.c:27-48 | the CLI's receiving loop is a run of single receptions that ends with an empty queue and the table of all messages in order |
| `DispatchProofs.DrainedTableIsTruth` | Additional Tasks/Task 2/main.c:25-49 | after the receiving loop the row of a driver without an unsent message is its true state, if and only if it accepted positive timers only, and so in every run whose send_task commands have positive timers |
| `DispatchProofs.NeverIdleAgain` | Additional Tasks/Task 2/cli.c:69-82 | a driver's timer descriptor is open iff it is busy; it is armed iff it is busy with a positive timer; a driver that accepted any other timer is busy with it for good |
| `DispatchProofs.WrongForever` | Additional Tasks/Task 2/cli.c:70-89 | once a driver accepted a timer that is not positive, every later state has it busy while the CLI's settled view says available |
| `DispatchProofs.ZeroTimerCounterexample` | Additional Tasks/Task 2/cli.c:141-155 | a run with a task of zero seconds after which the table says available, the driver is busy and nothing is pending |
| `DispatchProofs.TaskAccounting` | Additional Tasks/Task 2/cli.c:68-99 | tasks sent = tasks accepted + BUSY_RESP replies + tasks still queued, and the handled ones are the first sent, in order |
| `DispatchProofs.StreamShape` | Additional Tasks/Task 2/cli.c:41-116 | a driver registers first and once; its updates alternate positive and zero starting positive, only a last one may fail to be positive, and their number is odd iff the driver is busy |
| `DispatchProgress.FinishDriver` | Additional Tasks/Task 2/cli.c:62-118 | from every reachable state one driver can send, expire and take its messages until it has nothing left, without touching any other |
| `DispatchProgress.QueueOwners` | Additional Tasks/Task 2/cli.c:141-155 | messages wait only for the CLI or for a driver that was forked |
| `DispatchProgress.NothingLeftIffAtRest` | Additional Tasks/Task 2/cli.c:62-118 | in every reachable state no step but a new command is left if and only if all queues and outboxes are empty and no timer is armed |
| `DispatchProgress.RestIsIdle` | Additional Tasks/Task 2/cli.c:101-116 | at rest a driver is idle if and only if it accepted positive timers only, and then its row says available with 0 seconds left |
| `DispatchProgress.SettlesDown` | Additional Tasks/Task 2/cli.c:62-118 | every run extends without new commands to one at rest; with positive timers all drivers are then idle and all rows available |
| `DispatchCode.Cli.Find` | Additional Tasks/Task 2/cli.c:126-131 | the loop returns the specified row index |
| `DispatchCode.Cli.UpdateDriverStatus` | Additional Tasks/Task 2/cli.c:133-139 | only the found row changes, to the given status and remaining time |
| `DispatchCode.Cli.Handle` | Additional Tasks/Task 2/main.c:28-47 | one message changes the table as specified: a registration appends a row unless 50 are used, an update changes its row, a busy reply nothing |
| `DispatchCode.Cli.Drain` | Additional Tasks/Task 2/main.c:27-48 | the loop empties the queue and leaves the table of all its messages in order |
| `DispatchCode.Cli.SendTaskTo` | Additional Tasks/Task 2/cli.c:141-155 | a task goes to the queue recorded in the driver's row; an unknown pid sends nothing |
| `DispatchCode.Cli.GetStatus` | Additional Tasks/Task 2/cli.c:157-171 | the view of the driver's row, or nothing for an unknown pid |
| `DispatchCode.DriverProcess.constructor` | Additional Tasks/Task 2/cli.c:37-60 | a new driver is idle and about to send REGISTER with its queue key |
| `DispatchCode.DriverProcess.HandleMessage` | Additional Tasks/Task 2/cli.c:66-100 | the driver's variables and message after a task, idle or busy, and after any other message |
| `DispatchCode.DriverProcess.HandleTimer` | Additional Tasks/Task 2/cli.c:101-116 | after the timer the driver is idle, without a timer, and reports 0 |
| `DispatchCode.DriverProcess.Send` | Additional Tasks/Task 2/cli.c:15-23 | the composed message is handed over and nothing else changes |
| `DispatchCode.System.Perform` | Additional Tasks/Task 2/cli.c:35-155 | the objects of the CLI and of all drivers, with their queues, take one step exactly as the protocol does |
| `DispatchCode.Execute` | Additional Tasks/Task 2/main.c:19-84 | any run of the protocol, carried out by those objects, ends in the state of that run |
| `Semaphores.UndoRestores` | Module 3/Task 9/main.c:36-99 | whatever operations with SEM_UNDO a process got through, undoing its adjustments gives back the values from before |
| `SysVReaders.Calls` | Module 3/Task 9/main.c:36-99 | what the four calls do to both semaphores and to the caller's adjustments, and when they have to wait |
| `SysVReaders.AlwaysBalanced` | Module 3/Task 9/main.c:20-99 | for any number of readers, in every reachable state, exits at any point included: lock + readers inside + writer inside = 1, the count is the readers inside, and every process's adjustments are exactly what it holds |
| `SysVReaders.Exclusion` | Module 3/Task 9/main.c:126-181 | a reader inside excludes the writer and every other reader |
| `SysVReaders.PollEndsAtOnce` | Module 3/Task 9/main.c:81-85 | the writer's poll loop leaves at its first test |
| `SysVReaders.ExitReleases` | Module 3/Task 9/main.c:132-135 | a reader that exits anywhere leaves the semaphores as endRead would have, and the invariant holds for the others |
| `SysVReaders.WriterExitReleases` | Module 3/Task 9/main.c:165-174 | a writer that exits anywhere leaves the semaphores as endWrite would have, and the invariant holds for the others |
| `SysVReaders.StuckStates` | Module 3/Task 9/main.c:126-181 | a reachable state is stuck if and only if the lock holder is the writer at an empty pipe with a reader alive, or a reader at a full pipe with the writer alive |
| `SysVReaders.WriterFirstIsStuck` | Module 3/Task 9/main.c:161-168 | such a state is reached for any number of readers and any capacity when the writer goes first |
| `SysVReaders.FullPipeIsStuck` | Module 3/Task 9/main.c:126-149 | and for any number of readers and any capacity when a reader fills the pipe and enters once more |
| `SysVReaders.PipeConservation` | Module 3/Task 9/main.c:144-177 | in every run the numbers in the file, then the one in the writer's hand, then the pipe are the numbers sent, in order; other lines appear only after all readers are gone |
| `SysVReaders.NobodyLeaves` | Module 3/Task 9/main.c:126-181 | in every run without a fault no process is ever gone: all go round their loops |
| `SysVReaders.NumbersAreDelivered` | Module 3/Task 9/main.c:126-181 | for any list of numbers from 0 to 99, any number of readers and any capacity of at least one, a run without faults ends at rest with exactly those lines in the file |
| `PosixLock.AlwaysExclusive` | Module 3/Task 10/main.c:39-87 | the semaphore is 0 iff somebody holds it, the reader and the writer never both, and a reader killed with it leaves no waiter |
| `PosixLock.StuckStates` | Module 3/Task 10/main.c:39-87 | a reachable state is stuck if and only if the holder is the writer at an empty pipe or the reader at a full one, the other being alive |
| `PosixLock.WriterFirstIsStuck` | Module 3/Task 10/main.c:67-75 | the writer taking the semaphore first is stuck at once, for any capacity |
| `PosixLock.FullPipeIsStuck` | Module 3/Task 10/main.c:39-62 | the reader that filled the pipe and takes the semaphore once more is stuck, for any capacity |
| `PosixLock.PipeConservation` | Module 3/Task 10/main.c:54-85 | in every run the numbers in the file, in the writer's hand and in the pipe are the numbers sent, in order; other lines appear only after the reader is gone |
| `PosixLock.NobodyLeaves` | Module 3/Task 10/main.c:39-87 | in every run without a fault neither process is ever gone or failing |
| `PosixLock.NumbersAreDelivered` | Module 3/Task 10/main.c:39-87 | for any list of numbers from 0 to 99 and any capacity of at least one, a run without faults ends in the initial state with exactly those lines in the file |
| `PosixLock.ReaderFailureReleases` | Module 3/Task 10/main.c:45-59 | a reader whose call fails in its section posts the semaphore and exits; nothing else changes |
| `PosixLock.WriterFailureReleases` | Module 3/Task 10/main.c:71-82 | a writer whose call fails in its section posts the semaphore and exits; a number in its hand is lost |
| `PosixReaders.AlwaysExclusive` | Module 3/Task 11/main.c:50-116 | in every reachable state both semaphores and the process-local count are what the two processes hold, and the file has at most one holder |
| `PosixReaders.StuckStates` | Module 3/Task 11/main.c:50-116 | a reachable state is stuck if and only if the reader is at a full pipe inside its section while the writer waits for the file |
| `PosixReaders.NeverStuckUnbounded` | Module 3/Task 11/main.c:50-116 | with a pipe that never fills no reachable state is stuck |
| `PosixReaders.EmbraceIsReached` | Module 3/Task 11/main.c:50-116 | for every finite capacity of at least one there is a run that gets stuck |
| `PosixReaders.PipeConservation` | Module 3/Task 11/main.c:77-114 | in every run the numbers in the file, in the writer's hand and in the pipe are the numbers sent, in order |
| `PosixReaders.NobodyLeaves` | Module 3/Task 11/main.c:50-116 | in every run without a fault neither process is ever gone or failing |
| `PosixReaders.NumbersAreDelivered` | Module 3/Task 11/main.c:50-116 | for any list of numbers from 0 to 99 and any capacity of at least one, or none, a run without faults ends in the initial state with exactly those lines in the file |
| `PosixReaders.ReaderFailureReleases` | Module 3/Task 11/main.c:61-70 | a reader that cannot open the file leaves its section, restores the count and both semaphores and exits |
| `PosixReaders.WriterFailureReleases` | Module 3/Task 11/main.c:105-109 | a writer that cannot open the file posts the semaphore and exits; the number in its hand is lost |
| `Checksum.Csum` | Additional Tasks/Task 1/server.c:60-67 | the loop with one fold per word keeps its accumulator below 0x10000 and returns the complement of the one's complement sum |
| `Checksum.OnesSumClosed` | Additional Tasks/Task 1/server.c:60-67 | for words of any number the folded sum is the plain sum modulo 0xffff, with 0 only for all-zero words |
| `Checksum.SumCommutesWithSwap` | Additional Tasks/Task 1/server.c:60-67 | swapping the bytes of every word swaps the bytes of the sum and of the checksum |
| `Checksum.HostOrderSuffices` | Additional Tasks/Task 1/server.c:182-182 | summing host-order words and storing the result without htons gives the bytes network order would give |
| `Checksum.StoredChecksumVerifies` | Additional Tasks/Task 1/server.c:84-97 | a zeroed field filled with the checksum of what csum read makes the whole check to zero, in either byte order, if and only if the length is even or the byte read past it was zero |
| `UdpReply.PseudoHeaderLayout` | Additional Tasks/Task 1/server.c:70-82 | the pseudo-header holds both addresses, a zero byte, the protocol and the UDP length, in that order |
| `UdpReply.UdpChecksum` | Additional Tasks/Task 1/server.c:69-98 | the checksum of both addresses, zero, 17, the length, the UDP header and the payload, and at an odd length of the byte past the buffer |
| `UdpReply.UdpVerifies` | Additional Tasks/Task 1/server.c:187-193 | the stored UDP checksum checks to zero if and only if the payload has even length or the byte past the buffer was zero |
| `UdpReply.PastByteCounterexample` | Additional Tasks/Task 1/server.c:84-97 | an odd datagram with a 1 behind the buffer gets a checksum that does not check to 0 |
| `UdpReply.ReplyTextCarries` | Additional Tasks/Task 1/server.c:162-163 | the text is the data, a blank and digits whose value is the count, or the first 1023 bytes of that when it is longer |
| `UdpReply.ReceiverCovers` | Additional Tasks/Task 1/server.c:78-93 | what a receiver sums from the packet's own bytes is what the checksum covered |
| `UdpReply.ReplyFits` | Additional Tasks/Task 1/server.c:162-168 | a reply stays inside the packet buffer if and only if data, blank and count have at most 995 characters |
| `UdpReply.LongRequestCounterexample` | Additional Tasks/Task 1/server.c:162-191 | the first message of a client with 994 bytes of data gives a text of 996 characters, which does not fit |
| `UdpReply.PutIpHeader` | Additional Tasks/Task 1/server.c:171-182 | the first 20 bytes of the packet are the header with its checksum stored |
| `UdpReply.PutDatagram` | Additional Tasks/Task 1/server.c:184-193 | behind the header stand the UDP header with its checksum stored and the data; the header is kept |
| `UdpReply.BuildReply` | Additional Tasks/Task 1/server.c:168-193 | the packet is built in its buffer if and only if the text has at most 995 characters; all header fields stand at their offsets with addresses and ports exchanged and true lengths, the text and its NUL follow, the header checks to 0, and what a receiver sums from the packet checks to 0 if and only if the datagram is even or the byte past the buffer was zero |
| `ClientTable.Server.FindClientIndex` | Additional Tasks/Task 1/server.c:32-39 | the first slot with the key, or -1 when no slot has it; for a real client that is membership in the map |
| `ClientTable.Server.AddClient` | Additional Tasks/Task 1/server.c:41-51 | a new client gets a free slot with count 0; refused iff 100 clients are live, and then nothing changes |
| `ClientTable.Server.RemoveClient` | Additional Tasks/Task 1/server.c:53-58 | the map loses exactly that client |
| `ClientTable.Server.SlotFor` | Additional Tasks/Task 1/server.c:151-158 | the slot found or added, refused iff the client is not live and 100 others are |
| `ClientTable.Server.Bump` | Additional Tasks/Task 1/server.c:160-160 | exactly one client's count grows by one |
| `ClientTable.Server.Receive` | Additional Tasks/Task 1/server.c:145-163 | one packet takes the slots to the specified map, for every key including (0, 0), and the reply carries the client's new count |
| `ClientTable.ViewUpdate` | Additional Tasks/Task 1/server.c:41-58 | writing one slot drops its old client from the map and enters its new one, keeping one slot per client |
| `ClientTable.FreeSlot` | Additional Tasks/Task 1/server.c:41-51 | there is a free slot iff fewer clients than slots are live |
| `ClientTable.CountsAreHandledMessages` | Additional Tasks/Task 1/server.c:145-160 | over every run each count is the number of that client's messages handled since registration or last close, a client is live iff that is positive, and never more than 100 are live |
| `ClientTable.RefusedOnlyWhenFull` | Additional Tasks/Task 1/server.c:151-158 | a message is refused only if its sender is not live and 100 other clients are |
| `ClientTable.Serve` | Additional Tasks/Task 1/server.c:125-163 | the server loop over any run of packets ends with the map of that run and answers every packet with the right count |
| `UdpServer.SenderIsAddress` | Additional Tasks/Task 1/server.c:145-153 | two packets are counted together if and only if they come from the same address and port |
| `UdpServer.Reply` | Additional Tasks/Task 1/server.c:162-193 | from the packet and the count to the packet sent back, or to the overrun |
| `UdpServer.Serve` | Additional Tasks/Task 1/server.c:125-208 | over any run of packets each answer is right: none to a close or a refused client, else a packet back to the sender with its data, a blank and the number of its messages handled; the loop ends early only at a reply that overruns its buffer |
| `SearchTree.SearchLooksUp` | Module 2/Task 4.3/main.c:48-57 | on a search tree, search is lookup in the map of contacts |
| `SearchTree.InsertRefinesMap` | Module 2/Task 4.3/main.c:36-46 | insertion adds the contact iff its id is absent, otherwise changes nothing, and keeps the order |
| `SearchTree.MinIsLeast` | Module 2/Task 4.3/main.c:59-64 | findMin gives the contact with the least id |
| `SearchTree.DeleteRefinesMap` | Module 2/Task 4.3/main.c:66-90 | the recursion reaches the null branch without a value if and only if the id is absent; otherwise exactly that id is removed, the successor case included, and the order is kept |
| `SearchTree.AbsentIdCounterexample` | Module 2/Task 4.3/main.c:66-69 | unguarded deletions of an absent id that end in the branch without a value |
| `SearchTree.DeleteFreesOne` | Module 2/Task 4.3/main.c:75-87 | a deletion that returns takes away exactly one node |
| `SearchTree.RunsRefineMap` | Module 2/Task 4.3/main.c:101-182 | every run of add and guarded delete commands never reaches the branch without a value and is the same run on a map |
| `TreeHeap.TreeNode.constructor` | Module 2/Task 4.3/main.c:27-34 | a new node is a one-node tree |
| `TreeHeap.InsertNode` | Module 2/Task 4.3/main.c:36-46 | the in-place code yields the specified tree on a heap without sharing or cycles, using old nodes and new ones only |
| `TreeHeap.SearchNode` | Module 2/Task 4.3/main.c:48-57 | the node found holds the contact looked up, null iff there is none |
| `TreeHeap.FindMin` | Module 2/Task 4.3/main.c:59-64 | the loop ends at the node of the least contact |
| `TreeHeap.DeleteNode` | Module 2/Task 4.3/main.c:66-90 | the in-place code yields the specified tree out of the old nodes, wherever the recursion does not reach null |
| `TreeHeap.PullUpSuccessor` | Module 2/Task 4.3/main.c:85-87 | the two-children case: the successor's contact moves up and its node is deleted below |
| `TreeHeap.NodesOfShape` | Module 2/Task 4.3/main.c:21-25 | a subtree has as many heap nodes as its shape |
| `TreeHeap.AddContact` | Module 2/Task 4.3/main.c:101-127 | a contact is added to the map iff its id is absent; order and heap shape are kept |
| `TreeHeap.DeleteContact` | Module 2/Task 4.3/main.c:171-182 | for any id: found iff present, exactly that id leaves the map and exactly one node the heap |
| `TreeHeap.RunCommands` | Module 2/Task 4.3/main.c:193-223 | any sequence of add and delete commands on the heap ends with the map of that sequence, in order and without sharing |
| `ContactList.Place` | Module 2/Task 6.1/linkedList.c:19-22 | the first position whose id is not smaller |
| `ContactList.Contacts.InsertFirst` | Module 2/Task 6.1/linkedList.c:23-27 | the node becomes the head, all links mutually inverse |
| `ContactList.Contacts.InsertLast` | Module 2/Task 6.1/linkedList.c:28-35 | the node goes behind the last one, all links mutually inverse |
| `ContactList.Contacts.InsertBefore` | Module 2/Task 6.1/linkedList.c:36-41 | the node goes between its neighbours, all links mutually inverse |
| `ContactList.Contacts.Insert` | Module 2/Task 6.1/linkedList.c:13-42 | the contact goes before the first id not smaller than its own, in a list of any ids, and nothing else changes |
| `ContactList.Contacts.Unlink` | Module 2/Task 6.1/linkedList.c:56-67 | exactly one node leaves the list, the links of the rest mutually inverse |
| `ContactList.Contacts.RemoveNode` | Module 2/Task 6.1/linkedList.c:44-70 | exactly the first contact with the id leaves, the others keep their order; found iff there is one |
| `ContactList.Contacts.AddContact` | Module 2/Task 6.1/linkedList.c:98-109 | the new contact gets the counter as id and comes last; ids stay strictly increasing and below the counter |
| `ContactList.Contacts.RemoveContact` | Module 2/Task 6.1/linkedList.c:44-70 | any removal keeps ids strictly increasing and below the counter |
| `ContactList.InsertedIncreasing` | Module 2/Task 6.1/linkedList.c:13-42 | inserting an absent id keeps strictly increasing ids |
| `ContactList.InsertedIds` | Module 2/Task 6.1/linkedList.c:13-42 | insertion adds exactly one id |
| `ContactList.RemoveUndoesInsert` | Module 2/Task 6.1/linkedList.c:44-70 | removing an id just inserted gives the list back |
| `ContactList.RemovedIds` | Module 2/Task 6.1/linkedList.c:44-70 | removal takes exactly that id out of the ids |
| `ContactList.RunsKeepOrder` | Module 2/Task 6.1/linkedList.c:44-110 | after every run ids increase strictly and stay below the counter, and an id is in the list if and only if it was added and not removed since |
| `ContactList.RunsKeepContacts` | Module 2/Task 6.1/linkedList.c:44-110 | a contact added and not removed since is in the list with the text it was added with |
| `ContactList.RunsHoldOnlyKept` | Module 2/Task 6.1/linkedList.c:44-110 | every contact in the list is one that was added with its id and text and not removed since |
| `ContactList.RunCommands` | Module 2/Task 6.1/linkedList.c:44-110 | any sequence of add and remove commands on the heap ends with the list of that sequence, all links mutually inverse |
| `PriorityQueue.Slot` | Module 2/Task 4.2/main.c:30-38 | the new element ends behind everything of at least its priority at the end of the array |
| `PriorityQueue.Queue.Insert` | Module 2/Task 4.2/main.c:21-39 | the swapping loop yields the specified insertion; a full queue is unchanged |
| `PriorityQueue.InsertAll` | Module 2/Task 4.2/main.c:58-67 | any sequence of insertions into an allocated queue ends with the array of that sequence |
| `PriorityQueue.RunsSort` | Module 2/Task 4.2/main.c:21-39 | after any insertions the array is a descending permutation of the elements taken |
| `PriorityQueue.RunsAreStable` | Module 2/Task 4.2/main.c:21-39 | elements of equal priority stand in the order of arrival |
| `PriorityQueue.StableSortIsUnique` | Module 2/Task 4.2/main.c:30-38 | these two properties determine the array |
| `Phonebook.SaveToFile` | Module 3/Task 3/main.c:47-60 | the loop writes the lines of all persons in order, each as the 90-byte buffer leaves it |
| `Phonebook.Fscanf` | Module 3/Task 3/main.c:26-29 | one call stores each field as soon as it is converted, counts them, and returns 3 if and only if a whole record was read; no other element changes |
| `Phonebook.StoredIsScanned` | Module 3/Task 3/main.c:26-29 | a call that converts all fields stores the record; one that fails leaves every element as it was if and only if it read no number |
| `Phonebook.LoadFromFile` | Module 3/Task 3/main.c:25-33 | the loop fills the array with the records scanned, at most two; the element after them holds what a failed call stored before it failed, and no later element changes |
| `Phonebook.Entered` | Module 3/Task 3/main.c:75-81 | a field as entered has at most 29 characters and no newline |
| `Phonebook.LinesFit` | Module 3/Task 3/main.c:48-52 | no line of an enterable record is cut by the buffer |
| `Phonebook.ScanPrinted` | Module 3/Task 3/main.c:26-29 | a printed number is scanned back, with what follows it |
| `Phonebook.ScanIntSkips` | Module 3/Task 3/main.c:26-29 | white space before a number does not matter |
| `Phonebook.ScanPlus` | Module 3/Task 3/main.c:26-29 | a plus sign before a number does not matter |
| `Phonebook.LineRoundTrip` | Module 3/Task 3/main.c:26-29 | a saved line is scanned back as it was if and only if both names are non-empty and the name has no bar |
| `Phonebook.RoundTrip` | Module 3/Task 3/main.c:18-63 | loading what was saved gives exactly the first records up to the limit, if and only if each of those has non-empty names and no bar in the name |
| `Phonebook.SaveThenLoad` | Module 3/Task 3/main.c:18-63 | the same for the two functions of the program in sequence and the limit of two |
| `Phonebook.EmptySurnameLeavesTraces` | Module 3/Task 3/main.c:26-29 | loading what was saved of a person without a surname counts nobody and overwrites the id and the name of the first element |
| `Phonebook.PartialScanCounterexample` | Module 3/Task 3/main.c:26-29 | the same for the file of person 1 named a |
| `Phonebook.BarCounterexample` | Module 3/Task 3/main.c:49-52 | a name with a bar does not come back |
| `Chmod.ClassCount` | Module 2/Task 3.1/main.c:89-97 | how many class letters a clause starts with |
| `Chmod.SymbolicAccess` | Module 2/Task 3.1/main.c:85-129 | the loops compute the meaning of the sets of class and permission letters and the operator; without an operator the mode is unchanged |
| `Chmod.Permissions` | Module 2/Task 3.1/main.c:106-115 | the loop collects the bits of the letters r, w and x and skips all others |
| `Chmod.MeaningBitByBit` | Module 2/Task 3.1/main.c:117-128 | each permission bit of each class is set, added, removed or kept as the clause says |
| `Chmod.MeaningKeepsOthers` | Module 2/Task 3.1/main.c:117-128 | no bit beyond the nine changes |
| `Chmod.ApplyIdempotent` | Module 2/Task 3.1/main.c:85-129 | applying a clause twice is applying it once |
| `Chmod.ApplyDependsOnSets` | Module 2/Task 3.1/main.c:85-129 | clauses with the same class letters, operator and permission letters do the same to every mode |
| `Chmod.ToString` | Module 2/Task 3.1/main.c:71-83 | the buffer holds the ten characters of the printed mode |
| `Chmod.TextByBits` | Module 2/Task 3.1/main.c:72-82 | each of the ten characters by the bits it shows, a directory being bit 14 alone of the type bits |
| `Chmod.PrintedAlike` | Module 2/Task 3.1/main.c:71-83 | two modes print alike if and only if their nine permission bits and their directory kind agree |
| `Chmod.PrintedModeRestores` | Module 2/Task 3.1/main.c:71-129 | the three printed triples, fed back as u=, g= and o= clauses to any mode, give the nine bits printed and keep the others |
| `CharDevice.MessageFits` | Module 5/Lab 4/lab4.c:64-64 | the message of any 32-bit counter fits the 80-byte buffer |
| `CharDevice.MessageTells` | Module 5/Lab 4/lab4.c:64-64 | the message holds the counter in digits between its two fixed parts |
| `CharDevice.Device.Open` | Module 5/Lab 4/lab4.c:58-67 | an open succeeds iff the device is free, and only then changes the message and the counter |
| `CharDevice.Device.Read` | Module 5/Lab 4/lab4.c:77-96 | the loop copies what is left of the message up to the length and moves the offset, back to 0 at the end |
| `CharDevice.OpenIffFree` | Module 5/Lab 4/lab4.c:58-75 | in every reachable state an open succeeds if and only if no file is open, and the open file may be released, which frees the device |
| `CharDevice.SessionsAreExclusive` | Module 5/Lab 4/lab4.c:58-96 | in every run of opens, reads and releases at most one file is open, and it has read the message of its own open up to its offset |
| `CharDevice.MessageCountsOpens` | Module 5/Lab 4/lab4.c:59-64 | the number that stands in the message of an open file is how many opens succeeded before its own |
| `CharDevice.EmptyReadMeansComplete` | Module 5/Lab 4/lab4.c:83-86 | a read of positive length gives nothing if and only if the whole message has been read, and then the offset is 0 again |

## Left out

- Sockets, raw packet input, epoll, timer and signal plumbing, fork, menus and prompts: only the events they deliver are modelled.
- Failing system calls of the dispatch program, pids that are used again, and messages left in a queue by an earlier run: pids are fresh and all queues start empty.
- Existing named semaphores: sem_open is taken to create them with value 1, as at a first run.
- SIGPIPE: a write to a pipe without a reading end kills the process; a read at end of file leaves the variable unassigned, so the line it appends is marked as not received.
- The failure of malloc in udp_checksum; the byte past its buffer is an input of the model.
- What happens after a reply text has run past the packet buffer: the server loop of the model ends there. A computed checksum of 0 is not replaced by 0xffff, as in the code.
- Parsing of received packets: a packet for the server's port arrives as its addresses, its ports and its text up to the NUL.
- Fixed-width overflow of message counters, contact ids and the device's open counter: these are unbounded.
- Contact text fields and editContact of the tree and the list: a contact is an id and an opaque text.
- TreeHeap.DeleteNode: freed memory is the nodes that leave the footprint; later use of a freed node is not modelled, and allocation never fails.
- initQueue and takeMax of the priority queue: the first stores the allocation in the capacity field, the second assigns 0 to the size instead of comparing; insertion is modelled over an array that is already allocated.
- The bounds of the people array, deletePerson and editPerson: shifting and overwriting records would only add easy members.
- Chmod: a mode is the set of its bit positions, so the machine width of mode_t does not appear; octal modes and the chmod call are not modelled.
- The contact arrays, calculators, chats, terminal exercises, the other kernel modules and the network configurations of the repository: no protocol or structure beyond those above.
