# Verified models of the FPGA network stack

The `hls/` directory of the network stack is a set of small state machines. Each is
a function that runs once per clock, keeps `static` registers and talks to the
others over FIFO streams. This project models the ones that carry protocol
guarantees and proves what they guarantee over whole, unbounded runs.

How the model is laid out:

* A stream is a sequence. A unit whose registers matter is a class with those
  registers as fields; one call of `Step` is one activation. The streams between
  units are unbounded.
* For the concurrent parts (multi queue, transport, extended headers) a value holds
  the state of the whole system, a step function per process says what an activation
  does to it, and a run is any interleaving. A log, computed from the run, lists what
  each step completes; theorems about runs speak of the log after every step. The `...Unit` files prove that the classes, with
  registers and arrays changed in place, do exactly those steps.
* For the stream units `taken` and `written` are the words read and written so far.
  `Valid()` ties the packets of `written` to the packets of `taken`, so a statement
  about it is a statement about every run; `Step` says besides what it consumes.
* Widths are in bytes. A word is well-formed when it is full, or the last of its
  packet with its valid bytes at the low end.

| files | part |
|---|---|
| `FairRuns.dfy` | processes in fair rounds, for the progress theorems |
| `MultiQueue*.dfy` | FIFO queues per key as linked lists in one node table |
| `Psn.dfy`, `Transport*.dfy` | PSN windows, state table, acceptance, NAKs, the network |
| `Segments*.dfy`, `ExtendedHeader*.dfy`, `WritesEndToEnd.dfy`, `ReadsEndToEnd.dfy` | cutting messages into packets and putting them into memory |
| `Cuckoo*.dfy` | the cuckoo hash table |
| `Streams.dfy`, `Shift.dfy`, `Width.dfy`, `Icrc.dfy` | words and packets; shifters, width converters, CRC field |
| `Packet.dfy`, `Udp*.dfy`, `Ipv4*.dfy` | header printing and parsing, UDP, IPv4 |
| `Ring.dfy` | the wrapped ring-buffer read |
| `Checksum*.dfy`, `HeaderSum.dfy`, `HeaderChecksum.dfy` | the Internet checksum in lanes |

`MAX_QPS`, the PMTU, the table size and the hash functions are parameters. The
standards referred to are section 9.7 of the InfiniBand Architecture Specification,
Volume 1, section 3.1 of RFC 791, RFC 768 and section 2 of RFC 1071.

## Where the code does not do what one would expect

The model follows the code. Each of these is proved of it; where a property one
would expect fails, the lemma named gives an input on which it fails or the exact
condition under which it holds, or both.

* A read request of length 0 takes no PSN. It can be accepted twice
  (`EmptyRequestAcceptedTwice`, exactly-once holds as in `ExactlyOnceIffNoneEmpty`),
  and it re-arms the NAK, so a gap can draw two NAKs for one PSN
  (`IdleRequestsRepeatNaks`, `SuppressedIffNoneRearms`).
* The local address of a read of length 0 is queued although no response will take
  it, so the data of the next read goes there (`EmptyReadShiftsNext`,
  `ReadsLandAtHomeIff`).
* With nothing outstanding the acknowledgement window is the whole PSN ring
  (`NothingOutstandingAcceptsAll`, `SafeIffOutstanding`).
* The oldest PSN of the duplicate test is set with the connection and never moves.
  Counted from it, a read that is ahead of the expected PSN and past a multiple of
  2^24 is taken for a duplicate and executed before it is accepted
  (`EarlyReadExecuted`, `NeverEarlyIff`); the requester may then count it as
  acknowledged although the responder never accepts it (`ThreeAccepted`,
  `FourAcknowledged`). Otherwise no more counts as acknowledged than was accepted
  (`AcknowledgedWereAccepted`). For the same reason a repeated request from before
  such a multiple is not recognised as one (`DuplicateIff`).
* An acknowledgement anywhere in the window moves the oldest unacknowledged PSN past
  it, so one for a later write counts for a read whose responses are lost, and no data
  is handed on for it (`AckPassesOverRead`, `PassesOverIff`).
* A read response that finds no local address queued when it asks leaves `rx_exh_fsm`
  waiting for ever, as does a packet it has no branch for (`BlockedForever`).
* The message sequence number counts packets, middle read responses included
  (`MsnCounts`).
* A read request that is executed between the packets of a write, as a repeated one
  may be, clears the running address (`ReadRequestMovesWrite`,
  `InterruptedWriteTilesIff`).
* The 22-bit packet count of a read fits every length only from a PMTU of 1025 on
  (`NumPkgFitsIff`). The RoCE configuration template sets 1408, the kernels' header 1400.
* Drop flags are also written for duplicate and out-of-order read requests, which
  carry no payload (`FlagsInStepIff`).
* `insert` does not look for its key first (`InsertKeepsMapIff`).
* `lshiftWordByOctet` masks its filler bytes with 32 ones (`FirstWordFramedIff`).
* `extract_icrc` drops a last word of up to 4 bytes whole, so a packet that
  `insert_icrc` passed on unsealed can lose bytes (`UnsealSealIff`).
* The 16-bit lengths of a split ring-buffer read are right for one crossing of the
  end only (`SplitsIff`).
* The UDP and IPv4 lengths handed to the receiver include the header (`MetaRoundTrip`,
  `Ipv4RoundTrip`).
* `ipv4_drop_optional_ip_header` takes 8 bytes too few off a header of an odd number
  of units above 5 at 64 bits, and the wrong number off most headers with options at
  128 bits (`HeadersStrippedIff`). At both widths a packet that ends within the words
  read first uses up no length, so it is run together with the next
  (`OneWordPacketMerges`, `PacketsInStepIff`); an IPv4 payload of at most 4 and 12
  bytes is enough for that (`Ipv4ArrivesIff`).
* At 256 and 512 bits it consumes a header length other than 5 without reading a
  word, so the next length meets the same packet (`InStepIff`).

## Model

| member | source | states |
|---|---|---|
| MultiQueueProof.AnswersAreThoseOfQueues | lib/fpga-network-stack/hls/ib_transport_protocol/multi_queue/multi_queue.hpp:118-567 | under every interleaving of the four processes and of their users, after every step the answers given so far are those of one sequence per key for the log of completed operations; the log holds the requests of both streams in their order, with at most one more in progress; no array index is out of bounds |
| MultiQueueProof.LogGrows | lib/fpga-network-stack/hls/ib_transport_protocol/multi_queue/multi_queue.hpp:231-520 | the log of a step is a prefix of the log of every later step: what is completed is never reordered |
| MultiQueueProof.LaterReadsComeLater | lib/fpga-network-stack/hls/ib_transport_protocol/multi_queue/multi_queue.hpp:231-520 | a POP or FRONT offered after step i takes effect after every operation completed by step i, so it finds what completed pushes left |
| MultiQueueProof.ReadsAnswerHead | lib/fpga-network-stack/hls/ib_transport_protocol/multi_queue/multi_queue.hpp:473-508 | the step that completes a read answers with the head of the queue of its key in the log so far, and leaves it unanswered exactly if that queue is empty |
| MultiQueueProof.IndexesAreConserved | lib/fpga-network-stack/hls/ib_transport_protocol/multi_queue/multi_queue.hpp:175-194 | under every interleaving, after every step each index below MULTI_QUEUE_SIZE is in exactly one place (not issued, free list, release FIFO, held by the push in progress, one chain), the chains are disjoint, run along the next fields of the node table to a tail, and start and end where the pointer table says |
| MultiQueueProof.NeverWaits | lib/fpga-network-stack/hls/ib_transport_protocol/multi_queue/multi_queue.hpp:146-172 | no interleaving ever sets mq_wait: the lock is free whenever it is requested |
| MultiQueueProof.RunInv | lib/fpga-network-stack/hls/ib_transport_protocol/multi_queue/multi_queue.hpp:522-567 | linearisation: after every step the log of completed operations, which only grows, explains tables, chains, answers and both request streams |
| MultiQueueProof.StepKeeps | lib/fpga-network-stack/hls/ib_transport_protocol/multi_queue/multi_queue.hpp:522-567 | every activation of every process, and every offered request, keeps the invariant and appends to the completed operations exactly the one, if any, that the step completes |
| MultiQueueProof.ProcessKeeps | lib/fpga-network-stack/hls/ib_transport_protocol/multi_queue/multi_queue.hpp:231-520 | every branch of the request processor keeps the invariant; the ones that end an operation append exactly that operation, the others none |
| MultiQueueProof.PushDone | lib/fpga-network-stack/hls/ib_transport_protocol/multi_queue/multi_queue.hpp:298-330 | both ways to end a push make the new node the tail of the chain of its own key and leave all other chains alone |
| MultiQueueProof.PopDone | lib/fpga-network-stack/hls/ib_transport_protocol/multi_queue/multi_queue.hpp:490-508 | ending a pop takes the head index off the chain of its key, answers with its value, releases that index and leaves all other chains alone |
| MultiQueueProof.SingleCountsAreDistinct | lib/fpga-network-stack/hls/ib_transport_protocol/multi_queue/multi_queue.hpp:265-330 | indices that occur once overall make the chains acyclic and pairwise disjoint |
| MultiQueueProof.InvAccounts | lib/fpga-network-stack/hls/ib_transport_protocol/multi_queue/multi_queue.hpp:175-194 | the multiset form of conservation says that every index is in exactly one place |
| MultiQueueProgress.RequestsComplete | lib/fpga-network-stack/hls/ib_transport_protocol/multi_queue/multi_queue.hpp:522-567 | progress: after fair rounds, the four processes in any order, more than a bound computed from the state, every read offered has been completed, and every push, unless MULTI_QUEUE_SIZE values are queued |
| MultiQueueProgress.WaitingPushCompletes | lib/fpga-network-stack/hls/ib_transport_protocol/multi_queue/multi_queue.hpp:231-330 | a push that waits while fewer than MULTI_QUEUE_SIZE values are queued is completed in such rounds |
| MultiQueueProgress.EveryRunCompletes | lib/fpga-network-stack/hls/ib_transport_protocol/multi_queue/multi_queue.hpp:522-567 | from every reachable state such a continuation exists, and what was completed before stays so |
| MultiQueueProgress.FreeListFills | lib/fpga-network-stack/hls/ib_transport_protocol/multi_queue/multi_queue.hpp:175-194 | from every reachable state some number of activations of the free-list handler alone brings every index that is in no chain and not held by a push into the free list |
| MultiQueueProgress.StuckRests | lib/fpga-network-stack/hls/ib_transport_protocol/multi_queue/multi_queue.hpp:231-520 | the processes never wait for each other in a circle: nothing has an effect only if all reads are taken, and all pushes or the free list is empty |
| FairRuns.RoundsSettle | lib/fpga-network-stack/hls/ib_transport_protocol/multi_queue/multi_queue.hpp:522-567 | for any processes whose activations have no effect or leave less work: after more fair rounds than there was work each has been tried in vain |
| MultiQueueUnit.RequestProcessor.Step | lib/fpga-network-stack/hls/ib_transport_protocol/multi_queue/multi_queue.hpp:231-520 | the class with the static registers does the processor step of the run theorems, in any surrounding state |
| MultiQueueUnit.PointerTable.Step | lib/fpga-network-stack/hls/ib_transport_protocol/multi_queue/multi_queue.hpp:118-173 | updates first, then requests with the lock, then a waiting request; the array holds the new table |
| MultiQueueUnit.MetaTable.Step | lib/fpga-network-stack/hls/ib_transport_protocol/multi_queue/multi_queue.hpp:196-229 | write, append and read of the node array |
| MultiQueueUnit.FreelistHandler.Step | lib/fpga-network-stack/hls/ib_transport_protocol/multi_queue/multi_queue.hpp:175-194 | recycle before issuing; the 16-bit counter; the step that conservation and progress (`FreeListFills`) are proved of |
| Psn.AckTestIsWindow | lib/fpga-network-stack/hls/ib_transport_protocol/ib_transport_protocol.cpp:321-322 | for all 24-bit values the comparison chain is: psn is no further from epsn than max_forward |
| Psn.DuplicateTestIsWindow | lib/fpga-network-stack/hls/ib_transport_protocol/ib_transport_protocol.cpp:364-365 | for all 24-bit values the duplicate test is: psn is nearer to the oldest outstanding PSN than epsn |
| TransportNode.RunsAreAtomic | lib/fpga-network-stack/hls/ib_transport_protocol/ib_transport_protocol.cpp:265-430 | under every interleaving of receive side, transmit side and table, after every step the log of events completed so far, received packets in arrival and sent requests in request order, explains all output; the logs of earlier steps are prefixes of it; no queue pair number out of range |
| TransportNode.RunInv | lib/fpga-network-stack/hls/ib_transport_protocol/state_table.cpp:32-115 | the state table always is the one after the log, up to updates still in the request stream |
| TransportNode.RxKeeps | lib/fpga-network-stack/hls/ib_transport_protocol/ib_transport_protocol.cpp:295-430 | LOAD and PROCESS keep the invariant |
| TransportNode.TxKeeps | lib/fpga-network-stack/hls/ib_transport_protocol/ib_transport_protocol.cpp:927-980 | META and GET_PSN keep the invariant |
| TransportNode.TableKeeps | lib/fpga-network-stack/hls/ib_transport_protocol/state_table.cpp:49-113 | an answer to the receive side is the moment a packet counts as received, a PSN write the moment a request counts as sent |
| TransportSafety.ResponseAdvances | lib/fpga-network-stack/hls/ib_transport_protocol/ib_transport_protocol.cpp:321-339 | while PSNs are outstanding, an accepted response that is no NAK acknowledges at least one, exactly those up to its own PSN, and never more than were sent |
| TransportSafety.SafeIffOutstanding | lib/fpga-network-stack/hls/ib_transport_protocol/ib_transport_protocol.cpp:321-339 | that holds for all responses exactly when something is outstanding |
| TransportSafety.NothingOutstandingAcceptsAll | lib/fpga-network-stack/hls/ib_transport_protocol/state_table.cpp:68-71 | with nothing outstanding every acknowledgement is accepted |
| TransportSafety.LogHandles | lib/fpga-network-stack/hls/ib_transport_protocol/state_table.cpp:49-77 | in every log, sends, responses and other queue pairs leave the responder of a queue pair alone |
| TransportSafety.OnePolicyPerPacket | lib/fpga-network-stack/hls/ib_transport_protocol/ib_transport_protocol.cpp:321-430 | every packet gets one policy, is forwarded exactly when that says so, and acknowledged unread exactly when that says so; a NAK goes with a drop |
| TransportSafety.RequestsHandedOn | lib/fpga-network-stack/hls/ib_transport_protocol/ib_transport_protocol.cpp:321-376 | over every log the requests handed on for a queue pair are exactly those received at the PSN then expected, and the reads received behind it and not before the oldest one, in that order |
| TransportSafety.DuplicateWritesAcknowledged | lib/fpga-network-stack/hls/ib_transport_protocol/ib_transport_protocol.cpp:377-391 | a request is acknowledged unread exactly if it is a write or part behind the expected PSN and not before the oldest one; duplicates leave the responder as it is |
| TransportSafety.DropsCounted | lib/fpga-network-stack/hls/ib_transport_protocol/ib_transport_protocol.cpp:377-430 | every packet not handed on is counted as dropped, except duplicates that are neither writes nor parts |
| TransportSafety.FlagsAlignIff | lib/fpga-network-stack/hls/ib_transport_protocol/ib_transport_protocol.cpp:326-412 | per packet there is one drop flag for each payload, except that a read request that is not in order gets one as well; the flag says whether the packet is forwarded |
| TransportSafety.FlagsInStepIff | lib/fpga-network-stack/hls/ib_transport_protocol/ib_transport_protocol.cpp:326-412 | over every log the drop flags outnumber the payloads by the read requests that were duplicate or out of order, so the two streams are in step exactly when there was none |
| TransportRuns.RunFlags | lib/fpga-network-stack/hls/ib_transport_protocol/ib_transport_protocol.cpp:265-430 | that holds for what a node has emitted after every step of every run |
| TransportSafety.LogVerdict | lib/fpga-network-stack/hls/ib_transport_protocol/ib_transport_protocol.cpp:304-430 | so what a run emits for a request is the decision for the responder after the packets received before it; the NAK statements below are about runs |
| TransportSafety.NakCarriesExpectedPsn | lib/fpga-network-stack/hls/ib_transport_protocol/ib_transport_protocol.cpp:402-430 | a NAK answers only a request that is not the expected one, and carries the expected PSN |
| TransportSafety.NaksAreSuppressed | lib/fpga-network-stack/hls/ib_transport_protocol/ib_transport_protocol.cpp:402-430 | over every packet sequence, between two NAKs the expected PSN moves, unless a request that takes no PSN comes along with a request at another PSN |
| TransportSafety.IdleRequestsRepeatNaks | lib/fpga-network-stack/hls/ib_transport_protocol/ib_transport_protocol.cpp:402-430 | any request that takes no PSN, such as a read of length 0, between two copies of a request at another PSN: two NAKs for the same expected PSN |
| TransportSafety.SuppressedIffNoneRearms | lib/fpga-network-stack/hls/ib_transport_protocol/ib_transport_protocol.cpp:402-430 | for every set of requests: no responder repeats a NAK on any sequence of them exactly when the set has no request that takes no PSN beside a request at another PSN |
| TransportSafety.LogNaks | lib/fpga-network-stack/hls/ib_transport_protocol/ib_transport_protocol.cpp:402-430 | in every log the NAKs for a queue pair are one for each packet so answered, naming the PSN then expected |
| TransportRuns.RunNaks | lib/fpga-network-stack/hls/ib_transport_protocol/ib_transport_protocol.cpp:265-430 | that holds for the NAKs a node has emitted after every step of every run, and the expected PSN moved between any two if no such request arrived |
| TransportNetwork.PsnsAreConsecutive | lib/fpga-network-stack/hls/ib_transport_protocol/ib_transport_protocol.cpp:954-977 | the PSNs of one queue pair leave no gap, whatever else is interleaved |
| TransportNetwork.AcceptedInOrderOnce | lib/fpga-network-stack/hls/ib_transport_protocol/ib_transport_protocol.cpp:321-339 | over every network that loses, repeats and reorders (less than 2^24 PSNs off) the accepted requests are the first k issued, in order, each once |
| TransportNetwork.EmptyRequestAcceptedTwice | lib/fpga-network-stack/hls/ib_transport_protocol/ib_transport_protocol.cpp:321-339 | a request that takes no PSN can be accepted twice |
| TransportNetwork.ExactlyOnceIffNoneEmpty | lib/fpga-network-stack/hls/ib_transport_protocol/ib_transport_protocol.cpp:321-339 | exactly-once acceptance over all such networks holds exactly when every request takes a PSN |
| TransportNetwork.WritesForwardedOnce | lib/fpga-network-stack/hls/ib_transport_protocol/ib_transport_protocol.cpp:364-430 | the forwarded writes are the writes among the first k issued, in order, each once; only reads may be forwarded again |
| TransportNetwork.RunHeadersConsecutive | lib/fpga-network-stack/hls/ib_transport_protocol/ib_transport_protocol.cpp:954-977 | the headers generated in a run of the sending node have consecutive PSNs per queue pair |
| TransportNetwork.NetworkDeliversInOrder | lib/fpga-network-stack/hls/ib_transport_protocol/ib_transport_protocol.cpp:265-430 | both nodes under any schedule of their own processes, and the network between them: the writes handed on are a prefix of the writes issued, in order and without repeats |
| TransportResponses.ResponsesHandedOn | lib/fpga-network-stack/hls/ib_transport_protocol/ib_transport_protocol.cpp:321-339 | over every log the responses handed on for a queue pair are exactly those received at the oldest unacknowledged PSN, or, for acknowledgements, between it and the last PSN sent, in that order; and the oldest unacknowledged PSN is the one after the last of them that is no NAK |
| TransportResponses.RunResponses | lib/fpga-network-stack/hls/ib_transport_protocol/ib_transport_protocol.cpp:265-430 | that holds for what a node has handed on and holds in its table after every step of every run |
| TransportResponses.AnswersHandedOnOnce | lib/fpga-network-stack/hls/ib_transport_protocol/ib_transport_protocol.cpp:321-339 | read responses lost, repeated and reordered by the network (less than 2^24 PSNs off), between NAKs: those handed on are the first k, in order and each once, and exactly their k PSNs are acknowledged |
| TransportResponses.AcknowledgedAccount | lib/fpga-network-stack/hls/ib_transport_protocol/ib_transport_protocol.cpp:321-339 | over every log the PSNs acknowledged are one for each response handed on that is no NAK, and those passed over by acknowledgements |
| TransportResponses.PassesOverIff | lib/fpga-network-stack/hls/ib_transport_protocol/ib_transport_protocol.cpp:321-339 | none is passed over, so every PSN acknowledged has a response of its own handed on, exactly if no acknowledgement is accepted ahead of the oldest unacknowledged PSN |
| TransportResponses.AckPassesOverRead | lib/fpga-network-stack/hls/ib_transport_protocol/ib_transport_protocol.cpp:321-339 | the failing input: after a lost read response the acknowledgement of the next write counts for the read, of which nothing is handed on |
| TransportHeaders.HeadersAreRequests | lib/fpga-network-stack/hls/ib_transport_protocol/ib_transport_protocol.cpp:905-980 | in every run, after every step, the headers sent are those of the first packets requested, in order, and each packet that brings its PSN is sent with it |
| TransportHeaders.SentAsBrought | lib/fpga-network-stack/hls/ib_transport_protocol/ib_transport_protocol.cpp:940-945 | so the read responses and the NAKs sent on a queue pair are those requested with a PSN, in order, each with that PSN |
| TransportHeaders.SentResponsesAccepted | lib/fpga-network-stack/hls/ib_transport_protocol/ib_transport_protocol.cpp:1766-1773 | in every run, the headers sent for the responses to a sequence of reads, as meta_merger requests them, are accepted one by one by the requester whose oldest unacknowledged PSN is that of the first read |
| TransportHeaders.SentNaksNameExpected | lib/fpga-network-stack/hls/ib_transport_protocol/ib_transport_protocol.cpp:1759-1765 | in every run, the NAKs sent for the events of the receive side name, in order, the PSNs expected at the packets they answer |
| TransportHeaders.AllNumbered | lib/fpga-network-stack/hls/ib_transport_protocol/ib_transport_protocol.cpp:837-900 | the responses to reads whose PSNs follow on each other are as many as PSNs taken up, and numbered on without a gap |
| TransportSetup.SetupTakesEffect | lib/fpga-network-stack/hls/ib_transport_protocol/state_table.cpp:91-112 | qp_interface and the state table under any schedule: once all contexts are handled, each queue pair set up accepts no request before one at its local PSN, answers the first one before with its only NAK, sends its first request from its remote PSN, and has nothing outstanding; other queue pairs are as before |
| TransportSetup.SetupRunInv | lib/fpga-network-stack/hls/ib_transport_protocol/ib_transport_protocol.cpp:1867-1900 | in every run the table is that of the setups ordered, in order, up to the one on its way, and every context is ordered once |
| TransportSetup.SetupsMeet | lib/fpga-network-stack/hls/ib_transport_protocol/state_table.cpp:98-103 | two nodes set up with the PSNs of each other meet, in both directions, what the network and acknowledgement theorems start from |
| TransportSetup.SetUpNetworkDelivers | lib/fpga-network-stack/hls/ib_transport_protocol/state_table.cpp:98-103 | from two such setups on, over the lossy network, the writes handed on are a prefix of those issued |
| TransportProgress.AllIsDone | lib/fpga-network-stack/hls/ib_transport_protocol/ib_transport_protocol.cpp:265-430 | progress: after fair rounds, more than a bound computed from the state, every packet that arrived is judged, every packet requested is sent, and table, decisions and headers are those of the whole log |
| TransportProgress.StuckRests | lib/fpga-network-stack/hls/ib_transport_protocol/state_table.cpp:49-113 | receive side, transmit side and table never wait for each other in a circle |
| TransportProgress.SetupCompletes | lib/fpga-network-stack/hls/ib_transport_protocol/ib_transport_protocol.cpp:1867-1900 | progress of setup: after such rounds all contexts are set up |
| TransportRuns.AcksAreVouched | lib/fpga-network-stack/hls/ib_transport_protocol/ib_transport_protocol.cpp:957-972 | in every run each acknowledgement sent names the PSN before one that the responder has expected, although the table may change between look-up and sending |
| TransportEndToEnd.SentAcksVouch | lib/fpga-network-stack/hls/ib_transport_protocol/ib_transport_protocol.cpp:957-972 | so each acknowledgement sent vouches for requests the responder had accepted at some step |
| TransportRuns.NoMoreThanVouched | lib/fpga-network-stack/hls/ib_transport_protocol/ib_transport_protocol.cpp:321-339 | over every log, with less than 2^24 PSNs in flight, what a requester counts as acknowledged never exceeds what the responses received vouch for, with or without anything outstanding |
| TransportRuns.AcknowledgedGrows | lib/fpga-network-stack/hls/ib_transport_protocol/ib_transport_protocol.cpp:321-339 | while something is outstanding a response never takes acknowledged PSNs back, and adds those up to its own PSN exactly when it is accepted and no NAK |
| TransportReads.DuplicateIff | lib/fpga-network-stack/hls/ib_transport_protocol/ib_transport_protocol.cpp:364-376 | of requests less than 2^24 PSNs from the expected one, the duplicate test takes those behind it in the same turn of 2^24 PSNs counted from the oldest PSN, and those ahead of it in the next turn |
| TransportReads.ForwardedAreAcceptedIff | lib/fpga-network-stack/hls/ib_transport_protocol/ib_transport_protocol.cpp:321-376 | over every delivery, each read executed has been accepted exactly if no read arrives while it is ahead and past the end of such a turn |
| TransportReads.NeverEarlyIff | lib/fpga-network-stack/hls/ib_transport_protocol/state_table.cpp:98-99 | over all networks only accepted reads are executed exactly if no read issued follows within 2^24 PSNs on a request of an earlier turn; the oldest PSN is set at setup only |
| TransportReads.EarlyReadExecuted | lib/fpga-network-stack/hls/ib_transport_protocol/ib_transport_protocol.cpp:364-376 | the failing delivery for any such read: the requests before it, and then the read, which is executed and not accepted |
| TransportReads.WithinTurnOnTime | lib/fpga-network-stack/hls/ib_transport_protocol/ib_transport_protocol.cpp:364-376 | reads issued within their turn arrive on time over every network |
| TransportEndToEnd.SentResponsesVouch | lib/fpga-network-stack/hls/ib_transport_protocol/ib_transport_protocol.cpp:837-900 | every response to a read that the responder has handed on vouches for the PSNs up to its own |
| TransportEndToEnd.ExecutedWasAccepted | lib/fpga-network-stack/hls/ib_transport_protocol/ib_transport_protocol.cpp:364-376 | in every run in which reads arrive on time, each read executed is among the requests accepted |
| TransportEndToEnd.AcknowledgedWereAccepted | lib/fpga-network-stack/hls/ib_transport_protocol/ib_transport_protocol.cpp:265-430 | two nodes and the lossy network, at every step of the requester, with acknowledgements and with responses to the reads that the responder executes: a request whose PSNs all count as acknowledged has been accepted by the responder, as long as reads arrive on time |
| TransportEndToEnd.ThreeAccepted | lib/fpga-network-stack/hls/ib_transport_protocol/ib_transport_protocol.cpp:364-376 | the failing input, at the responder: a read past the end of the turn that arrives before three writes is executed at once; in the end the writes are accepted and the read is not |
| TransportEndToEnd.FourAcknowledged | lib/fpga-network-stack/hls/ib_transport_protocol/ib_transport_protocol.cpp:321-339 | the failing input, at the requester: the acknowledgement of the writes and the response to that read make four PSNs count as acknowledged |
| TransportUnit.ReceiveFsm.Step | lib/fpga-network-stack/hls/ib_transport_protocol/ib_transport_protocol.cpp:265-430 | LOAD and PROCESS as written do the receive step that the run theorems, for requests and responses, are proved of |
| TransportUnit.ReceiveFsm.Process | lib/fpga-network-stack/hls/ib_transport_protocol/ib_transport_protocol.cpp:304-430 | the branches as written give the verdict that `ResponsesHandedOn`, `RequestsHandedOn`, `LogNaks` and `FlagsInStepIff` are about |
| TransportUnit.HeaderGenerator.Step | lib/fpga-network-stack/hls/ib_transport_protocol/ib_transport_protocol.cpp:905-980 | generate_ibh as written does the transmit step of the run theorems (`HeadersAreRequests`, `PsnsAreConsecutive`, `AcksAreVouched`) |
| TransportUnit.StateTable.Step | lib/fpga-network-stack/hls/ib_transport_protocol/state_table.cpp:32-115 | the table array as written does the table step of the run and setup theorems; priority receive, transmit, interface |
| TransportUnit.QpInterface.Step | lib/fpga-network-stack/hls/ib_transport_protocol/ib_transport_protocol.cpp:1867-1900 | qp_interface as written does the setup step of the setup theorems |
| SegmentsProof.WriteTiles | lib/fpga-network-stack/hls/ib_transport_protocol/ib_transport_protocol.cpp:1651-1706 | for every length above 0, cutting, adding the UDP length and processing in order issues commands that tile exactly [remote, remote+L), and the remaining length is 0 at the last packet |
| SegmentsProof.RestTiles | lib/fpga-network-stack/hls/ib_transport_protocol/ib_transport_protocol.cpp:598-676 | the packets after the first continue at the running address of the MSN table |
| SegmentsProof.TilesCoverOnce | lib/fpga-network-stack/hls/ib_transport_protocol/ib_transport_protocol.cpp:598-676 | a tiling writes every address of the range once and no other |
| SegmentsProof.PayloadRecovered | lib/fpga-network-stack/hls/udp/udp.cpp:169-173 | no 16-bit length wraps: the receiver computes the payload length the sender meant |
| SegmentsProof.InterruptedWriteTilesIff | lib/fpga-network-stack/hls/ib_transport_protocol/msn_table.cpp:50-63 | with another packet of the queue pair inside a write, the rest lands right exactly if that packet keeps the running address, and no length is left over exactly if it keeps the remaining length; both conditions are on the op code, addresses and lengths of the packet and the entry before it |
| SegmentsProof.QuietPackets | lib/fpga-network-stack/hls/ib_transport_protocol/ib_transport_protocol.cpp:677-760 | acknowledgements, last read responses and empty reads leave it alone |
| SegmentsProof.ReadRequestMovesWrite | lib/fpga-network-stack/hls/ib_transport_protocol/ib_transport_protocol.cpp:677-692 | a read request, such as a repeated one, does not: the rest of the write goes to address 0 on |
| SegmentsProof.ReadTiles | lib/fpga-network-stack/hls/ib_transport_protocol/ib_transport_protocol.cpp:709-753 | the responses to a read of any length above 0 tile exactly its length from the first queued local address |
| SegmentsProof.MessagesTile | lib/fpga-network-stack/hls/ib_transport_protocol/ib_transport_protocol.cpp:565-569 | for any sequence of whole writes and whole read responses the n-th read answered goes to the n-th local address queued and each write to its own range |
| SegmentsReads.ReadsLandAtHomeIff | lib/fpga-network-stack/hls/ib_transport_protocol/ib_transport_protocol.cpp:1646-1647 | for every run of reads on one queue pair, through cutting, the responder and its responses: each nonempty read is answered in one tiling, at its own local address exactly if every k-th nonempty read has the local address of the k-th read |
| SegmentsReads.AlignedIffEmptyReadsLast | lib/fpga-network-stack/hls/ib_transport_protocol/ib_transport_protocol.cpp:677-692 | no empty read before a nonempty one is enough for that, and necessary if the local addresses differ |
| SegmentsReads.EmptyReadShiftsNext | lib/fpga-network-stack/hls/ib_transport_protocol/ib_transport_protocol.cpp:1646-1647 | the failing input: after a read of length 0 to address a, the data of a read to address b is written to a |
| SegmentsProof.ReceiveAccounts | lib/fpga-network-stack/hls/ib_transport_protocol/ib_transport_protocol.cpp:598-692 | whatever arrives, every write packet triggers one acknowledgement and every nonempty read request one read, in order |
| SegmentsParts.PartIsOneCommand | lib/fpga-network-stack/hls/ib_transport_protocol/ib_transport_protocol.cpp:598-676 | a partial message of any length above 0, however many packets it is cut into, causes one command for its whole range and one acknowledgement per packet, and nothing is left over |
| SegmentsCount.ResponsesMatchCount | lib/fpga-network-stack/hls/ib_transport_protocol/ib_transport_protocol.cpp:837-900 | a read is answered by exactly the counted packets, ONLY or FIRST MIDDLE* LAST, all but the last full, lengths summing to L, PSNs counting up from the request |
| SegmentsCount.NumPkgFitsIff | lib/fpga-network-stack/hls/ib_transport_protocol/ib_transport_protocol.cpp:167-170 | the packet count fits 22 bits for every 32-bit length exactly when the PMTU is at least 1025 |
| SegmentsCount.ResponsesAccepted | lib/fpga-network-stack/hls/ib_transport_protocol/ib_transport_protocol.cpp:337-339 | responses in order are each accepted and move the oldest unacknowledged PSN by one |
| SegmentsCount.ReadIsAcknowledged | lib/fpga-network-stack/hls/ib_transport_protocol/ib_transport_protocol.cpp:967-968 | accepting all responses moves it to exactly the PSN after the read |
| SegmentsUnit.LocalRequestHandler.Step | lib/fpga-network-stack/hls/ib_transport_protocol/ib_transport_protocol.cpp:1577-1711 | events emitted and owed are always the packets of all messages; one memory command per write, one queued address per read |
| SegmentsUnit.LocalRequestHandler.Generate | lib/fpga-network-stack/hls/ib_transport_protocol/ib_transport_protocol.cpp:1681-1707 | GENERATE emits the next packet owed |
| SegmentsUnit.LocalRequestHandler.Take | lib/fpga-network-stack/hls/ib_transport_protocol/ib_transport_protocol.cpp:1618-1679 | META emits the first packet of a message |
| SegmentsUnit.ReadRequestHandler.Step | lib/fpga-network-stack/hls/ib_transport_protocol/ib_transport_protocol.cpp:837-900 | responses emitted and owed are always those of all requests |
| ExtendedHeader.RunsInOrder | lib/fpga-network-stack/hls/ib_transport_protocol/ib_transport_protocol.cpp:507-775 | rx_exh_fsm with its three states, msn_table and the read address queues under every interleaving: packets are completed in arrival order, each on the entry and the addresses its predecessors left, whatever the transmit side asks in between; no table access out of range |
| ExtendedHeader.StepKeeps | lib/fpga-network-stack/hls/ib_transport_protocol/ib_transport_protocol.cpp:507-775 | every step of the state machine, the table and the queues keeps the invariant and the account of packets |
| ExtendedHeader.FsmData | lib/fpga-network-stack/hls/ib_transport_protocol/ib_transport_protocol.cpp:595-775 | state DATA, with the entry read and the address popped before, does the whole packet |
| ExtendedHeader.OneQueuePair | lib/fpga-network-stack/hls/ib_transport_protocol/ib_transport_protocol.cpp:595-775 | for the packets of one queue pair that is the receive function of the tiling theorems, and no other queue pair changes |
| ExtendedHeaderQueues.QueuePairsAreSeparate | lib/fpga-network-stack/hls/ib_transport_protocol/ib_transport_protocol.cpp:595-775 | over every log of interleaved queue pairs, entry, remaining read addresses and output of a queue pair are those of its own packets alone |
| ExtendedHeaderQueues.CommandsAreSeparate | lib/fpga-network-stack/hls/ib_transport_protocol/ib_transport_protocol.cpp:595-775 | all memory commands issued are those of the queue pairs merged, each in its order |
| ExtendedHeaderQueues.RunServes | lib/fpga-network-stack/hls/ib_transport_protocol/ib_transport_protocol.cpp:553-590 | in every run each packet completed had the read address it takes |
| ExtendedHeaderQueues.InterleavedMessagesTile | lib/fpga-network-stack/hls/ib_transport_protocol/ib_transport_protocol.cpp:595-775 | so whole writes and read responses of a queue pair tile their ranges however the packets of others come in between |
| ExtendedHeaderMsn.MsnCounts | lib/fpga-network-stack/hls/ib_transport_protocol/ib_transport_protocol.cpp:598-760 | the message sequence number of a queue pair counts, modulo 2^24, its write packets, nonempty read requests and middle read responses |
| ExtendedHeaderMsn.AnswersAreCounts | lib/fpga-network-stack/hls/ib_transport_protocol/msn_table.cpp:65-68 | in every run the transmit side is answered in order, each time with the number of such packets then completed on that queue pair |
| ExtendedHeaderProgress.CompletesUnlessBlocked | lib/fpga-network-stack/hls/ib_transport_protocol/ib_transport_protocol.cpp:507-775 | progress: after fair rounds, more than a bound computed from the state, all packets that arrived are completed, unless state DATA does not get past the one in progress or its read address was not there when it asked |
| ExtendedHeaderProgress.BlockedForever | lib/fpga-network-stack/hls/ib_transport_protocol/ib_transport_protocol.cpp:572-594 | in these two cases nothing that comes in later helps |
| WritesEndToEnd.WritesReachMemory | lib/fpga-network-stack/hls/ib_transport_protocol/ib_transport_protocol.cpp:265-775 | writes of a queue pair that carries only writes, from cutting over the lossy network and both nodes to the memory commands, under any schedules and next to any other traffic: at every step the commands issued are the first of the tilings of the writes, in order of issue, and all of them once all packets are completed |
| ReadsEndToEnd.ReadsReachMemory | lib/fpga-network-stack/hls/ib_transport_protocol/ib_transport_protocol.cpp:265-775 | reads of a queue pair that carries only reads, their responses over the lossy network to both receive stages, next to any other traffic: as many PSNs are acknowledged as responses handed on; each response completed has issued one command; the commands are the first ones of tilings of the local ranges queued, all of them once all is completed, and these are the ranges of the reads exactly as in `ReadsLandAtHomeIff` |
| ReadsEndToEnd.HandsOnFirst | lib/fpga-network-stack/hls/ib_transport_protocol/ib_transport_protocol.cpp:321-339 | the read responses handed on for such a queue pair are the first ones, in order, and as many PSNs are acknowledged |
| ReadsEndToEnd.SentWereAsked | lib/fpga-network-stack/hls/ib_transport_protocol/ib_transport_protocol.cpp:677-692 | whatever repeats and orders of requests reach the responder, each response it sends is one of the responses to the reads issued |
| ReadsEndToEnd.AskedInSequence | lib/fpga-network-stack/hls/ib_transport_protocol/ib_transport_protocol.cpp:1779-1796 | the nonempty reads issued have PSNs that follow on each other |
| ReadsEndToEnd.PartTiles | lib/fpga-network-stack/hls/ib_transport_protocol/ib_transport_protocol.cpp:709-753 | receiving the first responses issues the first commands of the tilings, one each |
| ReadsEndToEnd.BytesReadAreWritten | lib/fpga-network-stack/hls/ib_transport_protocol/ib_transport_protocol.cpp:837-875 | for each nonempty read the responder reads its remote range, and as many bytes are written locally |
| WritesEndToEnd.BytesReadAreWritten | lib/fpga-network-stack/hls/ib_transport_protocol/ib_transport_protocol.cpp:1651-1679 | for each write as many bytes are read, from its local address on, as are written to its remote range |
| WritesEndToEnd.HandsOnAccepted | lib/fpga-network-stack/hls/ib_transport_protocol/ib_transport_protocol.cpp:364-430 | the packets handed on for such a queue pair are copies of the requests accepted, which are the first ones |
| WritesEndToEnd.PartTiles | lib/fpga-network-stack/hls/ib_transport_protocol/ib_transport_protocol.cpp:598-676 | receiving the first packets of some writes issues the first commands of their tilings |
| ExtendedHeaderUnit.ExhFsm.Step | lib/fpga-network-stack/hls/ib_transport_protocol/ib_transport_protocol.cpp:549-775 | the registers and the switch over META, DMA_META and DATA as written |
| ExtendedHeaderUnit.MsnTable.Step | lib/fpga-network-stack/hls/ib_transport_protocol/msn_table.cpp:32-68 | the table array as written; the receive side has priority |
| ExtendedHeaderUnit.Data | lib/fpga-network-stack/hls/ib_transport_protocol/ib_transport_protocol.cpp:595-775 | the branches of state DATA give the commands, acknowledgement, read request and new entry of the specification |
| CuckooProof.TrialsConserve | lib/fpga-network-stack/hls/hash_table/hash_table.cpp:113-163 | whatever is evicted, final entries plus the homeless one are the old entries plus the new one, and every entry is where a lookup looks |
| CuckooProof.InsertOccupancy | lib/fpga-network-stack/hls/hash_table/hash_table.cpp:113-163 | a successful insert occupies one slot more, a failed one none |
| CuckooEvictions.InsertSucceedsIff | lib/fpga-network-stack/hls/hash_table/hash_table.cpp:116-158 | an insert succeeds exactly if one of the entries in hand before its first MAX_TRIALS evictions has a free slot, and the first such is put there; a failed one has made exactly MAX_TRIALS evictions, and every entry in hand met nine occupied slots. The evictions are told by slots and hashes alone |
| CuckooEvictions.FreeSlotTakesIt | lib/fpga-network-stack/hls/hash_table/hash_table.cpp:120-137 | a new key with a free slot is put into it and no other slot changes |
| CuckooEvictions.TrialEvicts | lib/fpga-network-stack/hls/hash_table/hash_table.cpp:116-158 | a trial uses the last free slot of the entry in hand, or is one eviction from the table that running index and flipping bit choose |
| CuckooProof.SetSlotEntries | lib/fpga-network-stack/hls/hash_table/hash_table.cpp:131-153 | overwriting a slot exchanges exactly its entry |
| CuckooProof.Members | lib/fpga-network-stack/hls/hash_table/hash_table.cpp:56-89 | an entry counts exactly when some valid slot holds it |
| CuckooProof.FoundIffPresent | lib/fpga-network-stack/hls/hash_table/hash_table.cpp:56-89 | the tables find a key exactly when some entry has it |
| CuckooProof.RemoveDeletes | lib/fpga-network-stack/hls/hash_table/hash_table.cpp:167-197 | a remove deletes every entry of its key and no other |
| CuckooProof.InsertRefines | lib/fpga-network-stack/hls/hash_table/hash_table.cpp:92-165 | a successful insert of an absent key changes the map at that key only |
| CuckooProof.InsertKeepsMapIff | lib/fpga-network-stack/hls/hash_table/hash_table.cpp:92-165 | after any insert, successful or not, the tables stand for a map exactly when the key was absent or an entry of that same key was left without a place |
| CuckooProof.ReportedInsertKeepsMapIff | lib/fpga-network-stack/hls/hash_table/hash_table.cpp:92-165 | an insert reported as successful leaves a map exactly when a lookup before it would have missed the key |
| CuckooProof.FailedInsertOfPresent | lib/fpga-network-stack/hls/hash_table/hash_table.cpp:92-165 | in that last case one of the two values of the key stays and the map is otherwise unchanged |
| CuckooProof.FailedInsertDropsOne | lib/fpga-network-stack/hls/hash_table/hash_table.cpp:92-165 | a failed insert of an absent key leaves the updated map without exactly the homeless entry |
| CuckooProof.RemoveRefines | lib/fpga-network-stack/hls/hash_table/hash_table.cpp:167-197 | a remove deletes its key from the map, present or not |
| CuckooProof.LookupRefines | lib/fpga-network-stack/hls/hash_table/hash_table.cpp:56-89 | a lookup hits exactly the keys of the map and returns their values |
| CuckooProof.ServeRefines | lib/fpga-network-stack/hls/hash_table/hash_table.cpp:199-234 | every request has its effect on the map and keeps the tables valid |
| CuckooProof.RunsRefineMap | lib/fpga-network-stack/hls/hash_table/hash_table.cpp:199-234 | after any run of lookups, removes and inserts of absent keys the tables answer as the finite map |
| CuckooProof.RunsFromEmpty | lib/fpga-network-stack/hls/hash_table/hash_table.cpp:199-234 | so they do from the empty table on |
| CuckooUnit.HashTable.Insert | lib/fpga-network-stack/hls/hash_table/hash_table.cpp:92-165 | the eviction loop over the array, with the trial bound, the victim counters and the failure counter; it succeeds exactly if some entry in hand before the first MAX_TRIALS evictions has a free slot |
| CuckooUnit.HashTable.Attempt | lib/fpga-network-stack/hls/hash_table/hash_table.cpp:113-160 | one trial: the last free slot, or the victim exchanged; indexes stay in the tables |
| CuckooUnit.HashTable.Remove | lib/fpga-network-stack/hls/hash_table/hash_table.cpp:167-197 | the loop over the tables; success exactly when the key was present |
| CuckooUnit.HashTable.Lookup | lib/fpga-network-stack/hls/hash_table/hash_table.cpp:56-89 | the loop over the tables agrees with every map that the entries stand for |
| Streams.ParseDetermines | lib/fpga-network-stack/hls/axi_utils.hpp:49-70 | two well-formed streams with the same packets have the same words: length, keep, last and valid bytes |
| Streams.OpenIsWhole | lib/fpga-network-stack/hls/axi_utils.hpp:49-70 | the words before the last of a packet are full |
| Shift.LeftShifter.Step | lib/fpga-network-stack/hls/axi_utils.hpp:563-631 | the shifter as written; after any words its output is that of the shifted packets, up to the bytes held back |
| Shift.RightShifter.Step | lib/fpga-network-stack/hls/axi_utils.hpp:488-560 | likewise for the right shift, with the remainder state |
| Shift.LeftWord | lib/fpga-network-stack/hls/axi_utils.hpp:589-628 | a word taken moves the boundary between bytes sent and held back, for the first and for later words |
| Shift.LeftRemainder | lib/fpga-network-stack/hls/axi_utils.hpp:578-588 | the remainder word completes the packet |
| Shift.RightFirst | lib/fpga-network-stack/hls/axi_utils.hpp:507-546 | the first word of a packet is only held back |
| Shift.RightWord | lib/fpga-network-stack/hls/axi_utils.hpp:512-546 | every later word joins two words; last exactly when nothing of the packet is left |
| Shift.RightRemainder | lib/fpga-network-stack/hls/axi_utils.hpp:547-558 | the remainder word completes the packet |
| Shift.LeftShiftsPackets | lib/fpga-network-stack/hls/axi_utils.hpp:563-631 | between packets every packet taken has been written with offset filler bytes in front and exactly one last |
| Shift.RightShiftsPackets | lib/fpga-network-stack/hls/axi_utils.hpp:488-560 | between packets every packet taken has been written without its first offset bytes |
| Shift.ShiftersReturn | lib/fpga-network-stack/hls/axi_utils.hpp:488-631 | after each packet, once the remainder word is written if there is one, both shifters are in their initial state |
| Shift.ShiftRoundTrip | lib/fpga-network-stack/hls/axi_utils.hpp:488-631 | the right shifter undoes the left one for every stream of well-formed packets |
| Shift.FirstWordFramedIff | lib/fpga-network-stack/hls/axi_utils.hpp:604 | for every first word with a valid byte the mask 0xFFFFFFFF gives a word without a gap in keep exactly for offsets up to 32 |
| Width.WidthReducer.Step | lib/fpga-network-stack/hls/axi_utils.hpp:345-406 | the converter as written; at any time its output is the packets taken, up to the slices of the word in hand |
| Width.ReduceFirst | lib/fpga-network-stack/hls/axi_utils.hpp:359-379 | the first slice of a word; last by the keep bit of the next slice |
| Width.ReduceMore | lib/fpga-network-stack/hls/axi_utils.hpp:380-404 | every further slice; the word ends with the D-th slice or with the packet |
| Width.WidthIncreaser.Step | lib/fpga-network-stack/hls/axi_utils.hpp:315-343 | the converter as written; at any time its output and the word being collected hold the packets taken |
| Width.IncreaseStep | lib/fpga-network-stack/hls/axi_utils.hpp:325-341 | a word is complete with the packet or with D slices, and keep is cleared after it |
| Width.WidthRoundTrip | lib/fpga-network-stack/hls/axi_utils.hpp:315-406 | increasing undoes reducing for every factor: valid bytes, keep and last |
| Icrc.IcrcInserter.Step | lib/fpga-network-stack/hls/rocev2/rocev2.cpp:376-514 | insert_icrc as written, for packets of every length |
| Icrc.IcrcExtractor.Step | lib/fpga-network-stack/hls/rocev2/rocev2.cpp:35-168 | extract_icrc as written, for packets of every length |
| Icrc.InsertStep | lib/fpga-network-stack/hls/rocev2/rocev2.cpp:411-512 | a packet of a multiple of 4 bytes gets the CRC in its last word or in one more; others pass unchanged |
| Icrc.ExtractStep | lib/fpga-network-stack/hls/rocev2/rocev2.cpp:67-90 | a last word of at most 4 bytes is dropped and the word before it becomes the last |
| Icrc.ExtractLast | lib/fpga-network-stack/hls/rocev2/rocev2.cpp:91-166 | otherwise the last 4 of a multiple of 4 bytes lose their keep bits |
| Icrc.UnsealSealIff | lib/fpga-network-stack/hls/rocev2/rocev2.cpp:35-514 | per packet, extracting undoes inserting exactly for multiples of 4 bytes and for others whose last word is kept |
| Icrc.IcrcRoundTrip | lib/fpga-network-stack/hls/rocev2/rocev2.cpp:35-514 | on streams of packets of a multiple of 4 bytes extracting undoes inserting |
| Packet.PacketHeader.Parse | lib/fpga-network-stack/hls/packet.hpp:53-73 | parseWord on the fields of the class |
| Packet.PacketHeader.Consume | lib/fpga-network-stack/hls/packet.hpp:74-89 | consumeWord on the fields of the class |
| Packet.PacketHeader.Clear | lib/fpga-network-stack/hls/packet.hpp:156-163 | clear keeps the header bytes |
| Packet.ParsesPrefix | lib/fpga-network-stack/hls/packet.hpp:53-73 | at any width and header length the header is the first bytes of the packet, and ready once they are there |
| Packet.ConsumesPrefix | lib/fpga-network-stack/hls/packet.hpp:74-89 | at any width consuming overwrites exactly the first bytes of the packet with the header |
| Packet.ParseUndoesConsume | lib/fpga-network-stack/hls/packet.hpp:53-89 | a header printed into words is parsed back |
| Packet.PrintMeta | lib/fpga-network-stack/hls/udp/udp.cpp:96-115 | META sets up the header and chooses HEADER or PARTIAL_HEADER by its length |
| Packet.PrintHeader | lib/fpga-network-stack/hls/udp/udp.cpp:116-124 | HEADER prints one whole word of it |
| Packet.PrintPartial | lib/fpga-network-stack/hls/udp/udp.cpp:125-137 | PARTIAL_HEADER lays the rest over the first word of the packet |
| Packet.PrintBody | lib/fpga-network-stack/hls/udp/udp.cpp:138-148 | BODY passes words on |
| Packet.TransmitPrepends | lib/fpga-network-stack/hls/ipv4/ipv4.cpp:273-277 | shifter and generator together put the header in front of every packet and change nothing else, at every width |
| Udp.GenerateUdp.Step | lib/fpga-network-stack/hls/udp/udp.cpp:81-150 | generate_udp as written |
| Udp.ProcessUdp.Step | lib/fpga-network-stack/hls/udp/udp.cpp:30-79 | process_udp as written, for packets of every length; of one shorter than its header the header is read with the bytes that are not valid |
| Udp.ProcessStep | lib/fpga-network-stack/hls/udp/udp.cpp:44-77 | one word: the metadata once per packet; packets for the listen port pass, with the header above 64 bits, without it at 64 |
| Udp.HeaderLayout | lib/fpga-network-stack/hls/udp/udp.hpp:70-105 | the fields of a header printed and read stand where RFC 768 has them |
| UdpProof.UdpDelivers | lib/fpga-network-stack/hls/udp/udp.cpp:30-150 | sender and receiver together: exactly the payloads for the listen port arrive, in order, with the metadata of every packet |
| UdpProof.UdpRoundTrip | lib/fpga-network-stack/hls/udp/udp.cpp:30-150 | with the listen port as destination receive undoes transmit: ports, length and payload, at every width of at least 64 bits |
| UdpProof.HeaderRoundTrip | lib/fpga-network-stack/hls/udp/udp.hpp:85-108 | the header fields are read back whatever the checksum bytes are |
| UdpProof.MetaRoundTrip | lib/fpga-network-stack/hls/udp/udp.cpp:159-197 | through split_tx_meta and merge_rx_meta; the length that arrives includes the 8 header bytes |
| Ipv4.GenerateIpv4.Step | lib/fpga-network-stack/hls/ipv4/ipv4.cpp:157-240 | ipv4_generate_ipv4 as written |
| Ipv4Receive.ProcessIpv4.Step | lib/fpga-network-stack/hls/ipv4/ipv4.cpp:31-70 | process_ipv4 as written, at 64, 128, 256 and 512 bits and for packets of every length, with the 4-bit count of words dropped |
| Ipv4Receive.ReadingNext | lib/fpga-network-stack/hls/ipv4/ipv4.cpp:45-66 | a word at any width: the header is complete with the word that holds its end, and the packet is passed on from that word |
| Ipv4Receive.ProcessWord | lib/fpga-network-stack/hls/ipv4/ipv4.cpp:45-66 | one word keeps: metadata and length once for every packet that reaches the end of its header, from the header read |
| Ipv4Drop.DropHeader.Step | lib/fpga-network-stack/hls/ipv4/ipv4.hpp:195-333 | all seven states of ipv4_drop_optional_ip_header at the four widths, for any words and lengths: the registers and streams move as specified; one packet is written to its end per length; at least as many are taken, and exactly as many as long as none ends within the words read first, and then each comes out without its first bytes |
| Ipv4Drop.DropStepKeeps | lib/fpga-network-stack/hls/ipv4/ipv4.hpp:211-332 | whatever arrives, a step keeps that |
| Ipv4Drop.StepCounts | lib/fpga-network-stack/hls/ipv4/ipv4.hpp:211-332 | every step starts a packet with each length, ends it with the last word written, and takes one packet too many for each that ends within the words read first |
| Ipv4Drop.StepShift | lib/fpga-network-stack/hls/ipv4/ipv4.hpp:272-313 | SHIFT and SHIFT_FIVE join two words; last exactly when nothing of the packet is left |
| Ipv4Drop.OneWordPacketMerges | lib/fpga-network-stack/hls/ipv4/ipv4.hpp:220-231 | the failing input at 64 and 128 bits: a packet of one word with length 1 is joined with the start of the next |
| Ipv4Proof.HeadersStrippedIff | lib/fpga-network-stack/hls/ipv4/ipv4.cpp:260-271 | through both units: for every stream of packets with room, each comes out without exactly its header if and only if that has no options, or at 64 bits an even number of units, or 9 units at 128 bits |
| Ipv4Proof.RemovedIff | lib/fpga-network-stack/hls/ipv4/ipv4.hpp:213-260 | the bytes removed are the header exactly for those header lengths |
| Ipv4Proof.InStepIff | lib/fpga-network-stack/hls/ipv4/ipv4.hpp:232-245 | at 256 and 512 bits header lengths and packets stay in step exactly if all lengths are 5 |
| Ipv4Proof.PacketsInStepIff | lib/fpga-network-stack/hls/ipv4/ipv4.hpp:211-332 | between packets, at every width and for all lengths, as many packets have been taken as lengths that go with one exactly if no packet ended within the words read first |
| Ipv4Proof.Ipv4ArrivesIff | lib/fpga-network-stack/hls/ipv4/ipv4.cpp:31-278 | what is sent without options arrives, once both receiving units have taken all of it, exactly if at 64 and 128 bits every payload is longer than 4 and 12 bytes |
| Ipv4.HeaderLayout | lib/fpga-network-stack/hls/ipv4/ipv4.hpp:589-652 | version, header length, total length, TTL, protocol and both addresses stand where section 3.1 of RFC 791 has them |
| Ipv4Proof.Ipv4RoundTrip | lib/fpga-network-stack/hls/ipv4/ipv4.cpp:31-278 | at all four widths: payloads (at 64 and 128 bits of more than 4 and 12 bytes), the address and the length with the 20 header bytes arrive, as the same words |
| Ring.AccessBreakdown.Step | lib/fpga-network-stack/hls/toe/toe.cpp:125-155 | the split as written, with its 16-bit lengths |
| Ring.SplitsIff | lib/fpga-network-stack/hls/toe/toe.cpp:136-151 | the lengths of the two parts add up exactly for reads that cross the end once and do not start at the first byte |
| Ring.PartsReadCircular | lib/fpga-network-stack/hls/toe/toe.cpp:125-155 | the two parts read the bytes of the unsplit circular read |
| Ring.DataRead.Step | lib/fpga-network-stack/hls/toe/toe.cpp:158-315 | the six states as written, at 64 bits |
| Ring.FirstWordStep | lib/fpga-network-stack/hls/toe/toe.cpp:174-236 | IDLE and STREAM: a word is passed on, or held back to be joined |
| Ring.JoinedStep | lib/fpga-network-stack/hls/toe/toe.cpp:247-300 | JOIN and STREAMMERGED: the bytes held back and the start of the next word |
| Ring.ResidueStep | lib/fpga-network-stack/hls/toe/toe.cpp:301-313 | RESIDUE: what is left after the last word |
| Ring.UnmergedInv | lib/fpga-network-stack/hls/toe/toe.cpp:237-246 | STREAMUNMERGED: no realignment after a full word |
| Ring.ReadsAreCircular | lib/fpga-network-stack/hls/toe/toe.cpp:125-315 | for every run of such reads each comes out as one well-formed packet of exactly the bytes of the unsplit circular read |
| Checksum.AddIsCanon | lib/fpga-network-stack/hls/toe/two_complement_subchecksums.hpp:56-57 | the 17-bit add with the carry folded in is addition of one's complement values |
| Checksum.OnesSumIsCanon | lib/fpga-network-stack/hls/toe/two_complement_subchecksums.hpp:32-77 | the sequential sum of section 2 of RFC 1071 is a function of the plain total |
| Checksum.HalvedSums | lib/fpga-network-stack/hls/ipv4/ipv4.hpp:368-421 | adding lanes pairwise keeps the sum |
| Checksum.Halve | lib/fpga-network-stack/hls/ipv4/ipv4.hpp:378-386 | one level of the tree, in place |
| Checksum.Fold | lib/fpga-network-stack/hls/ipv4/ipv4.hpp:425-478 | the tree over 4, 8, 16 or 32 lanes is the sum of their total |
| Checksum.Check | lib/fpga-network-stack/hls/ipv4/ipv4.hpp:368-421 | the check accepts exactly when the total is nonzero and divisible by 65535 |
| Checksum.Finalize | lib/fpga-network-stack/hls/ipv4/ipv4.hpp:480-532 | the complement of the sum |
| Checksum.LanesAreWords | lib/fpga-network-stack/hls/toe/two_complement_subchecksums.hpp:47-66 | the lanes of a bus word add the 16-bit words of its valid bytes, an odd last byte padded with zero |
| ChecksumUnit.Subchecksums.Step | lib/fpga-network-stack/hls/toe/two_complement_subchecksums.hpp:32-77 | the unit as written: one set of lanes per packet that folds to the packet's sum; lanes zero again after each last word |
| ChecksumUnit.SubStep | lib/fpga-network-stack/hls/toe/two_complement_subchecksums.hpp:44-75 | one word keeps that, and a last word completes it |
| HeaderSum.PlanIsUniform | lib/fpga-network-stack/hls/ipv4/ipv4_utils.cpp:29-470 | the four tables of cases agree: exactly the lanes that are header, without the checksum lane if asked, passed on with the word that completes the header, for header lengths 5 to 15 |
| HeaderSum.IpChecksum.Step | lib/fpga-network-stack/hls/ipv4/ipv4_utils.cpp:29-470 | compute_ipv4_checksum as written, with the tables of the four widths, for any packets: for each packet with a proper header one set of lanes that folds to its sum, whatever the packets before and after it are like |
| HeaderSum.HeadedAreSummed | lib/fpga-network-stack/hls/ipv4/ipv4_utils.cpp:29-470 | with a proper header in every packet there is one set of lanes per packet that folds to the sum of its header |
| HeaderSum.LanesStep | lib/fpga-network-stack/hls/ipv4/ipv4_utils.cpp:29-470 | a word's share of the header is added |
| HeaderSum.SumStep | lib/fpga-network-stack/hls/ipv4/ipv4_utils.cpp:29-470 | one word keeps: one set of lanes per header, that folds to its sum |
| HeaderChecksum.InsertChecksum.Step | lib/fpga-network-stack/hls/mac_ip_encode/mac_ip_encode.cpp:75-135 | insert_ip_checksum as written |
| HeaderChecksum.InsertStep | lib/fpga-network-stack/hls/mac_ip_encode/mac_ip_encode.cpp:86-134 | exactly bytes 10 and 11 of the packet are replaced, at every width |
| HeaderChecksum.WidthsAgree | lib/fpga-network-stack/hls/ipv4/ipv4_utils.cpp:29-470 | any two widths give the same sum, that of section 2 of RFC 1071 |
| HeaderChecksum.PatchedTotal | lib/fpga-network-stack/hls/mac_ip_encode/mac_ip_encode.cpp:93-96 | with the field filled in the header sums to its sum without the field, and the field |
| HeaderChecksum.InsertedHeaderPasses | lib/fpga-network-stack/hls/mac_ip_encode/mac_ip_encode.cpp:75-135 | a header with the complement of its sum has a positive total divisible by 65535 |
| HeaderChecksum.ComputedHeadersPass | lib/fpga-network-stack/hls/mac_ip_encode/mac_ip_encode.cpp:75-135 | compute, finalize and insert at one width: for every stream of packets with proper headers, every header is accepted by the check at any width |
| HeaderChecksum.SentPacketsAreHeaded | lib/fpga-network-stack/hls/ipv4/ipv4.cpp:157-240 | the packets that generate_ipv4 sends have proper headers |

## Left out

- The streams are unbounded: a depth of 2 and the blocking writes it brings are not modelled, so the progress theorems are about waiting for data, not for room.
- Retransmission, the transport timer and the table of outstanding reads: compiled out (`RETRANS_EN` is 0).
- Pointer chasing: `POINTER_CHASING_EN` is taken as undefined; such a request emits no event.
- The payloads dropped by `drop_ooo_ibh`: the protocol is stated on metadata and memory commands, because flags are also written for reads that carry no payload (`FlagsAlignIff`).
- SegmentsProof.WriteTiles: is about plain writes; the data of a PART message goes to the custom path with one command for the whole length, as `PartIsOneCommand` says.
- Zero-length writes: `rx_exh_fsm` stays in DATA on one.
- TransportEndToEnd.AcknowledgedWereAccepted: needs reads to arrive on time, as under the deviations above; and every response to arrive before 2^24 more PSNs are sent, with fewer than 2^24 in flight, because PSNs have 24 bits; the code checks none of these.
- TransportNetwork.AcceptedInOrderOnce: needs every delivered packet less than 2^24 PSNs from the expected one, because PSNs have 24 bits.
- The connection is set up before the run (`SetupTakesEffect`); setting it up again during traffic is not modelled.
- The order in which `meta_merger` takes acknowledgements, read responses and local packets: the transmit side is proved right for every order of requests.
- ReadsEndToEnd.ReadsReachMemory: is about queue pairs that carry only reads, because acknowledgements of writes can pass over read responses (`AckPassesOverRead`); takes each response to come with its own extended header and UDP length, and to arrive less than 2^24 PSNs from the oldest unacknowledged one.
- The counter of dropped packets (`DropsCounted`) is unbounded; the other statistics of `rx_ibh_fsm` are not modelled.
- MultiQueueProof.IndexesAreConserved: is stated for table sizes below 65536, because the 16-bit counter of the free list wraps at that size.
- The tabulated random values behind the hash functions: any functions into the tables are allowed.
- Cuckoo keys and values are taken with 64 and 16 bits; the configuration header is not part of this model, and the proofs do not use the widths.
- The `dest` field of routed words in the shifters.
- The copies of the shifters, checksum folds and generators under other names (`udp_`, `ipv4_`, `mac_`, `ip_handler_`, `toe_`): they are the same text.
- Udp.ProcessUdp.Step: takes words with at least one valid byte.
- Ipv4Receive.ProcessIpv4.Step: takes words with at least one valid byte.
- Ipv4Drop.DropHeader.Step: says how many packets are written after one that ends within the words read first, and by its step function which words, but not which bytes of which packets these are.
- HeaderSum.IpChecksum.Step: does not say how many sets of lanes a packet without a proper header causes.
- WritesEndToEnd.WritesReachMemory: takes each packet handed on to come with its own extended header and UDP length.
- ExtendedHeader.RunsInOrder: takes the read addresses as one queue per queue pair that leaves a pop of an empty queue unanswered; that the multi queue is one is `MultiQueueProof.AnswersAreThoseOfQueues`.
- Ring.DataRead.Step: is the 64-bit unit; at other widths the realignment uses the constant 8.
- Ring.ReadsAreCircular: takes the answers of the memory as given: one well-formed packet of the bytes asked for per command.
- Icrc.IcrcRoundTrip: is about streams of packets of a multiple of 4 bytes, as the code's comment demands; the exact condition per packet is `Icrc.UnsealSealIff`.
- The CRC computation, which is disabled by `DISABLE_CRC_CHECK`.
- ARP, DHCP, ICMP, frame padding, mergers and plain forwarders, which would add easy members only; the TOE engines and tables.
