# Verified models of a reliable file transfer and of a NAT router controller

The repository holds two programs, and this project models the core of both.

**File transfer (`tp1`).** A client uploads a file to a server over UDP. Each side has a protocol
object, Selective Repeat or Stop-and-Wait, that numbers, retransmits, acknowledges and reorders
packets; the session code around it reads the file as credit arrives, writes what is in order, and
closes with a FIN once nothing is left. What it promises is that the file arrives whole over a network
that loses, repeats and reorders packets.

**Router (`tp2`).** An OpenFlow controller joins a private network to a public one. It leases public
ports to private endpoints, resolves MAC addresses by ARP while events wait in queues, rewrites packets
itself, and installs flows so that the switch rewrites the following ones. What it promises is that
leases are exclusive and last, that no waiting event is lost, and that the switch does to a packet what
the controller would.

## How the models are built

The objects that the programs update in place are classes with the same fields, and their methods keep
the loops of the originals: `SelectiveRepeat.SelectiveRepeat`, `StopAndWait.StopAndWait`,
`Session.Client`, `Session.Server`, `SawClient.Client`, `NatHandler.NatHandler`,
`ArpHandler.ArpHandler` and `ProtoRouter.ProtoRouter`. Every method is proved to make the transition of
a function on values (`Arq`, `SawModel`, `Session`, `NatModel`, `RouterModel`), and what the programs
promise is proved about those functions, over single operations, over runs, and over both ends and
the network together.

| files | subject |
|---|---|
| `Results`, `Common`, `Chunking` | shared types, constants, cutting files into payloads |
| `Arq`, `SelectiveRepeat` | Selective Repeat on values, and the object |
| `Session` | the two ends of an upload, and the server's side of a download |
| `Transfer`, `SenderProofs`, `Safety`, `Upload`, `Progress`, `Liveness` | an upload over a lossy network: state machine, invariant, theorems |
| `SawModel`, `StopAndWait`, `SawClient`, `SawTransfer` | Stop-and-Wait, and its refinement to Selective Repeat with a window of one |
| `Codec`, `Syn`, `Wire` | header, SYN payload, and packets of an upload as bytes |
| `NatModel`, `NatHandler`, `NatProofs` | the leased-port allocator |
| `RouterModel`, `ArpHandler`, `ProtoRouter` | the controller |
| `RouterProofs`, `ArpTable` | suspension, resumption and ARP answers; what the ARP table holds |
| `FastPath`, `Outcomes` | flows against the controller's own rewriting; which packets are refused, wait or go on, and how |

**The network.** `Transfer.System` holds both ends, the file, the clock, and the set of packets in
flight in each direction. Delivering a packet leaves it in flight, so it can arrive again at any later
time and in any order; a loss removes it. A run is any sequence of clock ticks, sender timeouts,
deliveries and losses. It starts in an open session: handshake done once, receiving file created, the
credit of one window spent. `Upload.Reachable` quantifies over all such runs, all files and all window
sizes of at least one.

**Time** is a real number passed to each operation. The allocator's clock readings are arbitrary
parameters; its lease theorems bound them only by the lease's end.

**Words.** A *number* is a sequence number, the *base* is the sender's `next_expected`, *credit* is the
`next` field of an ACK event, a *lease* is an entry of the port table.

## What the proofs found

- The server's ACK handler resends overdue packets through an unaddressed `send` on an unconnected
  socket. `Upload.ServerActsAlike` gives the exact condition: at an acknowledgement it does what the
  client's handler does if no packet is overdue at that moment, and raises otherwise. `Upload.RaiseReached`
  reaches such a moment for every file of more than one payload and every window of at least two. Over
  Stop-and-Wait nothing is ever pending there, so the handler never raises
  (`SawTransfer.ServerActsAlike`).
- Addresses that wait and addresses that are known are sure to be disjoint only while no ARP entry has switch port
  0, because the router treats a stored port of 0 as missing. `RouterProofs.StaysUnresolvedExact` is the
  exact condition for an IP event, `RouterProofs.ArpStaysUnresolvedExact` for an ARP message and the
  events it resumes; `RouterProofs.PortZeroFails` and `RouterProofs.PortZeroFailsOnResume` are runs of two
  events that break it, one in each way; and `RouterProofs.WaitingIsUnresolved` is the guarantee for every
  run in which ARP messages come in on ports other than 0.
- An installed flow and the controller can differ on the same packet, even while the lease lives, for two
  reasons. The flow remembers a MAC and a port, while the controller takes them from the ARP table and
  suspends the packet when they are not there. And a switch sends a packet back out of the port it came in
  on only for an output to `OFPP_IN_PORT` (section 5.2.1 of OpenFlow Switch Specification 1.0.0), which no
  flow has, while the controller's packet-out names no ingress port and so goes out of any port.
  `FastPath.OutgoingAgrees`, `ReturnAgrees`, `IncomingAgrees`, `ReplyAgrees`,
  `ThereAgrees` and `BackAgrees` give, for each of the six flows, the exact condition under which both send
  the same: the ARP table must hold what the flow remembers, and the output port must not be the ingress
  port (for a reply flow the incoming packet must also have come in on the public port; a packet between
  private hosts that is not TCP, UDP or ICMP is dropped by the controller, and by the switch only when the
  two ports are equal). `FastPath.ControllerAndSwitchDiffer` and `FastPath.SharedPortDiffers` are runs of
  two events from the start after which they differ, one for each reason: a host that has sent no ARP
  message opens a connection, and a host sends to another one behind the same switch port.
- Between packets from outside the router tells TCP and UDP by destination address and port, echo messages by
  their identifier alone, whatever address they are sent to (`Outcomes.EndsExactly`).
- Encoding then decoding a packet gives it back exactly when its number is below 2^32 and its payload
  shorter than 2^27 (`Codec.RoundTripExact`); a SYN gives back its name and size exactly when the name
  has no NUL and the size is within the limit (`Syn.SynRoundTripExact`).
- The report of the router (`tp2/main.tex`, lines 218-223) names `set_src` for the two actions by which
  the return flow rewrites the destination; the code uses `set_dst`
  (`tp2/src/protorouter.py`, lines 261-262). The model follows the code.

## Model

| member | source | states |
|---|---|---|
| `Chunking.JoinChunks` | tp1/src/lib/common/selective_repeat.py:29-30 | the chunks that a byte string is cut into join back to it, for every chunk size |
| `Chunking.ReadIsChunkRange` | tp1/src/lib/client/Client.py:128-130 | a read of k payloads that starts after any number of payloads is cut into exactly the file's own chunks of that range, also at the end of the file |
| `Arq.PushLoop` | tp1/src/lib/common/selective_repeat.py:26-36 | the loop over chunk offsets gives the file's chunks consecutive numbers and puts exactly those packets in the window |
| `Arq.EnterExact` | tp1/src/lib/common/selective_repeat.py:31-33 | after a push the window has exactly its old keys and the new numbers; each new entry carries its chunk and the push time, each old one is unchanged |
| `Arq.PushIsLossless` | tp1/src/lib/common/selective_repeat.py:26-36 | pushing a read of at most n payloads makes at most n packets, and their payloads join to the read |
| `Arq.PushValid` | tp1/src/lib/common/selective_repeat.py:26-36 | a push keeps every window key between the base and the next number |
| `Arq.OverdueExact` | tp1/src/lib/common/selective_repeat.py:42-44 | a packet is resent if and only if it is in the window and its timer is over 0.5 s old |
| `Arq.RefreshSettles` | tp1/src/lib/common/selective_repeat.py:44-45 | resending restarts timers: nothing is overdue again at the same moment |
| `Arq.OverdueInOrder` | tp1/src/lib/common/selective_repeat.py:40-46 | what is resent goes out in order of number, each packet once |
| `Arq.LaterRetransmissions` | tp1/src/lib/common/selective_repeat.py:42-45 | a resend restarts the timers of what it resends and no others: at any later moment exactly those are overdue whose timer runs on and is over, or was restarted and is over again |
| `Arq.Advance` | tp1/src/lib/common/selective_repeat.py:147-149 | the base stops at the first number still in the window, or at the next number to send, having passed only acknowledged numbers |
| `Arq.HandleAckValid` | tp1/src/lib/common/selective_repeat.py:130-150 | any acknowledgement, of any number, keeps the window between base and next number |
| `Arq.HandleAckExact` | tp1/src/lib/common/selective_repeat.py:139-150 | an acknowledgement of any number from the base on, sent or not, in any state: the number leaves the window, the base goes to the first number still waiting or to the next to send, the credit is the distance, and nothing else changes |
| `Arq.CreditIsAdvance` | tp1/src/lib/common/selective_repeat.py:130-150 | credit is the distance the base moved; an old acknowledgement changes nothing; credit of zero means the base packet is still waiting |
| `Arq.RunIsMaximal` | tp1/src/lib/common/selective_repeat.py:165-171 | what the receiver hands over is the longest run of consecutive buffered numbers from the one it expects, in order |
| `SelectiveRepeat.SelectiveRepeat.constructor` | tp1/src/lib/common/selective_repeat.py:10-24 | a new object has empty window and buffer and counts from 1 |
| `SelectiveRepeat.SelectiveRepeat.PushPayload` | tp1/src/lib/common/selective_repeat.py:26-36 | the loop over offsets makes the transition and returns the packets that `Arq` describes for all chunks at once |
| `SelectiveRepeat.SelectiveRepeat.GetTimedouts` | tp1/src/lib/common/selective_repeat.py:38-46 | on a sending object and on a receiving one: returns the overdue packets in order of number and restarts exactly their timers |
| `SelectiveRepeat.SelectiveRepeat.Fin` | tp1/src/lib/common/selective_repeat.py:68-72 | the FIN takes the next number and waits in the window like a payload |
| `SelectiveRepeat.SelectiveRepeat.HandleAck` | tp1/src/lib/common/selective_repeat.py:130-150 | the sliding loop computes the base and credit given by `Arq.Advance`, with the cases of number 0 and of old numbers |
| `SelectiveRepeat.SelectiveRepeat.HandleData` | tp1/src/lib/common/selective_repeat.py:152-174 | the loop that empties the buffer hands over exactly the maximal run and drops exactly it; old, too far and buffered numbers change nothing |
| `SelectiveRepeat.SelectiveRepeat.HandlePacket` | tp1/src/lib/common/selective_repeat.py:96-107 | in any state, dispatch of the packet types of an open session to the transitions above; everything but DATA keeps a sending object valid |
| `Session.Client.constructor` | tp1/src/lib/client/Client.py:40-43 | a client starts with its file open at the beginning and a fresh protocol object |
| `Session.Client.ReadFile` | tp1/src/lib/common/file_handling.py:43-46 | a read of the open file returns the next bytes, at most as many as asked for and as remain, and moves the cursor by what it returned |
| `Session.Client.HandleAck` | tp1/src/lib/client/Client.py:124-137 | resends, reads, pushes and, with nothing read and nothing waiting, closes: the whole new state and everything sent, in order |
| `Session.Client.Idle` | tp1/src/lib/client/Client.py:57-60 | a timeout resends exactly the overdue packets and restarts their timers |
| `Session.Client.Take` | tp1/src/lib/client/Client.py:89-101 | what the packets of an open upload, acknowledgements and the answer to FIN, make of the client, through its protocol object |
| `Session.Server.constructor` | tp1/src/lib/server/Server.py:116-121 | a server in an open upload has an empty file and a fresh protocol object |
| `Session.Server.HandleData` | tp1/src/lib/server/Server.py:126-138 | acknowledges first, then writes the joined payloads if there are any; a write to a closed file is recorded as a crash |
| `Session.Server.HandleClose` | tp1/src/lib/server/Server.py:155-159 | answers the FIN and closes the file, which keeps what was written |
| `Session.Server.Idle` | tp1/src/lib/server/Server.py:86-88 | an empty queue changes nothing and resends nothing at the receiving end |
| `Session.Server.Take` | tp1/src/lib/server/Server.py:98-110 | in any state, what the packets of an open upload, DATA and FIN, make of the server, through its protocol object; nothing comes to wait in its window |
| `Transfer.DeliverDownIsSenderTakes` | tp1/src/lib/client/Client.py:51-56 | the network's delivery to the sender is the step that the client object is proved to make |
| `SenderProofs.ReadsNewChunks` | tp1/src/lib/client/Client.py:127-131 | spending credit reads exactly the chunks after those already granted, and nothing exactly when all are sent |
| `SenderProofs.FinsWhenDone` | tp1/src/lib/client/Client.py:134-137 | when the credit of an acknowledgement is spent, either test for sending FIN holds if and only if the base has passed the last chunk |
| `SenderProofs.OnAckKeeps` | tp1/src/lib/client/Client.py:124-137 | the client's ACK handler restores the sender's invariant: cursor, next number and window are determined by base and file |
| `SenderProofs.OnAckSends` | tp1/src/lib/client/Client.py:124-137 | everything the handler sends, resent or new, carries the file's own chunk for its number, or is the FIN after the last chunk |
| `SenderProofs.OnAckSendsExactly` | tp1/src/lib/client/Client.py:124-137 | the handler sends a packet if and only if it is the genuine one of a number that is overdue in the window or that the handler gives out now: every overdue packet is resent, every new chunk and the FIN are sent, nothing else is |
| `SenderProofs.OnAckInOrder` | tp1/src/lib/client/Client.py:124-137 | they go out in order of number, each once: the overdue ones, then the new chunks, then the FIN |
| `SenderProofs.OnAckTimers` | tp1/src/lib/client/Client.py:124-137 | the handler starts or restarts the timers of exactly the packets it sends |
| `Safety.AckKeeps` | tp1/src/lib/common/selective_repeat.py:130-150 | delivering an acknowledgement keeps the joint invariant of both ends, both directions and the file |
| `Safety.RunIsChunks` | tp1/src/lib/common/selective_repeat.py:163-171 | the run that a payload completes is the next stretch of the file's chunks |
| `Safety.DataReceived` | tp1/src/lib/common/selective_repeat.py:152-174 | taking a genuine payload marks exactly its number as received and keeps the receiver's invariant |
| `Safety.DeliverDataKeeps` | tp1/src/lib/server/Server.py:126-138 | delivering a DATA packet, new or repeated, keeps the joint invariant |
| `Safety.DeliverFinKeeps` | tp1/src/lib/server/Server.py:155-159 | delivering a FIN keeps the joint invariant, and at that moment the written file is the source file |
| `Safety.ResendKeeps` | tp1/src/lib/client/Client.py:57-60 | a timeout keeps the joint invariant |
| `Safety.StepKeeps` | tp1/src/lib/client/Client.py:51-60 | every step of the network, the clock and the ends keeps the joint invariant |
| `Safety.StartInv` | tp1/src/lib/client/Client.py:103-109 | the state after the handshake and the first window of credit satisfies it |
| `Safety.RunKeeps` | tp1/src/lib/client/Client.py:51-60 | so does every state of every run |
| `Upload.WrittenIsPrefix` | tp1/src/lib/common/selective_repeat.py:152-174 | end-to-end safety: in every reachable state the written bytes are the file's chunks below the receiver's expected number, in order and once each, a prefix of the file; no write ever meets a closed file |
| `Upload.ClosedIsComplete` | tp1/src/lib/client/Client.py:134-137 | at most one FIN is ever composed, only when every chunk was read and acknowledged and the whole file is written; only then does the receiver close, and the sender after it |
| `Upload.GenuineDataTaken` | tp1/src/lib/common/selective_repeat.py:152-162 | no DATA packet in flight is ever refused as too far ahead; each is acknowledged, and after the close nothing is left to write |
| `Upload.Sandwich` | tp1/src/lib/common/selective_repeat.py:157-159 | base <= receiver's expected number <= next number <= base + window size in every reachable state |
| `Upload.OnePayloadPerNumber` | tp1/src/lib/common/selective_repeat.py:38-46 | two packets with one number in flight at any two moments of a run are the same packet, and a DATA packet carries its number's chunk |
| `Upload.AcknowledgedWasReceived` | tp1/src/lib/common/selective_repeat.py:142-149 | every number that was sent and left the window is below the receiver's expected number or in its buffer |
| `Upload.AckSendsExactly` | tp1/src/lib/client/Client.py:124-137 | in every reachable state, an acknowledgement that grants credit puts in flight exactly the genuine packets of the other numbers whose timer is over and of the numbers given out with it |
| `Upload.TimeoutSendsExactly` | tp1/src/lib/client/Client.py:57-60 | and a timeout exactly those of the numbers whose timer is over |
| `Upload.CreditAccounts` | tp1/src/lib/common/selective_repeat.py:130-150 | all credit ever granted is one window plus the advance of the base; an acknowledgement grants nothing only while the base packet waits |
| `Upload.GuardsAgree` | tp1/src/lib/server/Server.py:149-153 | at every acknowledgement of a reachable state the server's end-of-file test for sending FIN and the client's empty-read test agree |
| `Upload.GuardsAgreeAtStart` | tp1/src/lib/server/Server.py:116-119 | at the grant that opens the session both tests hold if and only if the file is empty |
| `Upload.OpeningAckGrants` | tp1/src/lib/server/Server.py:116-119 | the acknowledgement of number 0, which opens a download, grants the credit that an open session starts with and changes nothing else |
| `Upload.ServerActsAlike` | tp1/src/lib/server/Server.py:140-153 | at every acknowledgement the server's ACK handler does what the client's does, and raises if and only if a packet is overdue at that moment |
| `Upload.ServerStartsAlike` | tp1/src/lib/server/Server.py:116-119 | at the grant that opens the session it always does what the client's does |
| `Upload.RaiseReached` | tp1/src/lib/server/Server.py:141-142 | for every file of more than one payload and every window of at least two, a reachable state and an acknowledgement in flight on which the handler raises |
| `Upload.NumbersFit` | tp1/src/lib/common/constants.py:43 | for every file within the limit, each packet in flight has a number below 2^32 and at most one payload of data |
| `Progress.Round` | tp1/src/lib/client/Client.py:57-60 | from a reachable unfinished state, resending the base packet and delivering it and its acknowledgement strictly lowers the numbers left |
| `Progress.LastRound` | tp1/src/lib/client/Client.py:148-150 | when only the FIN is left, one more round closes both ends over the complete file |
| `Progress.ReachableCompletes` | tp1/src/lib/client/Client.py:51-60 | from every reachable state a loss-free continuation of at most four steps for each number left completes the upload |
| `Liveness.RunForward` | tp1/src/lib/common/selective_repeat.py:147-171 | in every continuation, whatever is lost, repeated or reordered, the base never moves back, what is written only grows, and closed ends stay closed |
| `Liveness.ResentStays` | tp1/src/lib/client/Client.py:57-60 | a timeout at which the base packet is overdue, anywhere in a run, puts it in flight until it is lost |
| `Liveness.ServiceLowers` | tp1/src/lib/common/selective_repeat.py:142-149 | delivering the base packet and later its answer, interleaved with any other steps and losses, strictly lowers the numbers left, or completes the transfer when only the FIN is left |
| `Liveness.EveryFairRunCompletes` | tp1/src/lib/client/Client.py:51-60 | every run from a reachable state that so serves the base once for each number left completes the upload, whatever else happens in it |
| `StopAndWait.StopAndWait.constructor` | tp1/src/lib/common/stop_and_wait.py:10-23 | a new object has nothing pending and counts from 1 |
| `StopAndWait.StopAndWait.PushPayload` | tp1/src/lib/common/stop_and_wait.py:26-33 | the whole read becomes one packet with the next number, which is then pending |
| `StopAndWait.StopAndWait.GetTimedouts` | tp1/src/lib/common/stop_and_wait.py:35-42 | returns the pending packet and restarts its timer when it is over 0.5 s old |
| `StopAndWait.StopAndWait.Fin` | tp1/src/lib/common/stop_and_wait.py:64-70 | the FIN takes the next number and is then pending |
| `StopAndWait.StopAndWait.HandlePacket` | tp1/src/lib/common/stop_and_wait.py:119-170 | dispatch of the packet types of an open session, acknowledgement of the pending packet, and delivery of the expected payload only |
| `SawClient.Client.HandleAck` | tp1/src/lib/client/Client.py:124-137 | the same session code over a Stop-and-Wait object, its FIN guarded by `_waiting_ack` |
| `SawClient.Client.Idle` | tp1/src/lib/client/Client.py:57-60 | a timeout resends the pending packet if it is overdue |
| `SawClient.Client.Take` | tp1/src/lib/client/Client.py:89-101 | what acknowledgements and the answer to FIN make of that client |
| `SawTransfer.ReceiversAgreeOnSequences` | tp1/src/lib/common/stop_and_wait.py:162-170 | on every sequence of packets other than acknowledgements the receivers of both protocols report the same events, the Selective Repeat buffer being empty in between |
| `SawTransfer.AcksAgree` | tp1/src/lib/common/stop_and_wait.py:149-157 | for every number that was sent the senders of both protocols report the same event and stay related |
| `SawTransfer.OpeningAcksAgree` | tp1/src/lib/common/stop_and_wait.py:149-153 | they agree on the acknowledgement of number 0 too, which grants a window of one |
| `SawTransfer.RetransmissionsAgree` | tp1/src/lib/common/stop_and_wait.py:35-42 | both protocols resend the same packets at the same moments |
| `SawTransfer.PushesAgree` | tp1/src/lib/common/stop_and_wait.py:26-33 | with nothing pending, pushing one payload fills a window of one with the same packet |
| `SawTransfer.GuardsAgree` | tp1/src/lib/server/Server.py:149-150 | each end's test for sending FIN has the same value over both protocols, `_waiting_ack` standing for the nonempty window |
| `SawTransfer.StepAgrees` | tp1/src/lib/common/stop_and_wait.py:112-170 | every step of a Stop-and-Wait upload is the same step of the Selective Repeat one with a window of one |
| `SawTransfer.RunIsWindowOne` | tp1/src/lib/common/stop_and_wait.py:10-23 | whole runs of Stop-and-Wait are runs of Selective Repeat with a window of one |
| `SawTransfer.ClientAndServerAgree` | tp1/src/lib/client/Client.py:133-134 | over Stop-and-Wait the client's and the server's tests for sending FIN agree at every acknowledgement of every run |
| `SawTransfer.ClientAndServerAgreeAtStart` | tp1/src/lib/server/Server.py:116-119 | and at the grant that opens the session, where both hold if and only if the file is empty |
| `SawTransfer.ServerActsAlike` | tp1/src/lib/server/Server.py:140-153 | over Stop-and-Wait the server's ACK handler does what the client's does at every acknowledgement of every run: it never raises |
| `SawTransfer.ServerStartsAlike` | tp1/src/lib/server/Server.py:116-119 | and at the grant that opens the session |
| `SawTransfer.SafeAndComplete` | tp1/src/lib/common/stop_and_wait.py:162-170 | so in every Stop-and-Wait run a prefix of the file is written, one FIN at most is composed, and closing means the file is complete |
| `SawTransfer.Completes` | tp1/src/lib/common/stop_and_wait.py:35-42 | and a loss-free continuation completes the transfer |
| `Codec.InfoFieldIsBitwise` | tp1/src/lib/common/packet.py:51-65 | on 32-bit words the shifts, mask and ors compute the packed field |
| `Codec.ParseInfoIsBitwise` | tp1/src/lib/common/packet.py:86-93 | on 32-bit words the shifts and masks take it apart |
| `Codec.ParseComposed` | tp1/src/lib/common/packet.py:51-65 | taking apart a composed field gives back its fields, the length modulo 2^27 |
| `Codec.ComposeParsed` | tp1/src/lib/common/packet.py:86-93 | composing what was taken apart gives back every 32-bit field |
| `Codec.WordsAreBigEndian` | tp1/src/lib/common/constants.py:16 | each header word travels as four bytes, the most significant first, in both directions |
| `Codec.DecodeEncoded` | tp1/src/lib/common/packet.py:36-49 | what is encoded passes its checksum and decodes to the packet with its payload cut to what 27 bits can state, for any checksum function |
| `Codec.RoundTripExact` | tp1/src/lib/common/packet.py:69-84 | encoding succeeds and decoding gives the packet back if and only if number and payload length fit their fields |
| `Codec.EncodeDecodedExact` | tp1/src/lib/common/packet.py:69-101 | an accepted raw packet encodes back to itself if and only if the length it states is the length of its payload |
| `Codec.RefusedExactly` | tp1/src/lib/common/packet.py:69-101 | decoding fails if and only if there are fewer bytes than a header has, or the second word is not the checksum of all bytes with zeros in its place, and then the error names the third word; encoding fails if and only if the number does not fit a word |
| `Syn.DecimalParses` | tp1/src/lib/common/selective_repeat.py:115 | the decimal digits of a size parse back to it and contain no NUL |
| `Syn.SplitAtNul` | tp1/src/lib/common/selective_repeat.py:113-114 | the first part of a split is what stands before the first NUL |
| `Syn.SynRoundTripExact` | tp1/src/lib/common/selective_repeat.py:112-122 | parsing a SYN payload gives back the name and size it was built from if and only if the name has no NUL and the size is within the limit |
| `Syn.ParsesDigits` | tp1/src/lib/common/selective_repeat.py:115 | a size parses if and only if it is a nonempty string of digits |
| `Syn.HandleSynExact` | tp1/src/lib/common/selective_repeat.py:112-122 | on any payload the name is what stands before the first NUL and the size what stands between it and the next; which error is raised without a NUL, for a size that is no number, and for one over the limit |
| `Wire.FlightSurvivesEncoding` | tp1/src/lib/common/packet.py:36-84 | every packet in flight in an upload of a file within the limit encodes, and decodes to itself |
| `NatModel.DropValid` | tp2/src/handlers/nat_handler.py:30-36 | popping any set of entries keeps the tables mutually inverse and free and held ports a partition of 1024..65535 |
| `NatHandler.NatHandler.constructor` | tp2/src/handlers/nat_handler.py:6-9 | both tables empty, all ports free |
| `NatHandler.NatHandler.AllocatePublicPort` | tp2/src/handlers/nat_handler.py:11-17 | takes out the least free port, or nothing when none is free |
| `NatHandler.NatHandler.ReleasePublicPort` | tp2/src/handlers/nat_handler.py:19-21 | frees a port of the range and ignores any other |
| `NatHandler.NatHandler.FindExpired` | tp2/src/handlers/nat_handler.py:25-28 | finds exactly the keys of entries over 30 s old, each once |
| `NatHandler.NatHandler.ReapNatTable` | tp2/src/handlers/nat_handler.py:23-36 | the two loops, whatever their order, remove exactly the expired entries with their index entries and free their ports |
| `NatHandler.NatHandler.CreatePatEntry` | tp2/src/handlers/nat_handler.py:49-80 | reaps, then returns the live lease of the key, or grants the least free port in both tables, or fails; the whole new state |
| `NatHandler.NatHandler.GetReverseEntry` | tp2/src/handlers/nat_handler.py:82-87 | reaps, then answers from the reverse index |
| `NatProofs.FirstFit` | tp2/src/handlers/nat_handler.py:49-80 | a new lease has the least port that no live entry holds, the public address asked for and the time of the grant; a live lease is returned as it is |
| `NatProofs.PortsCounted` | tp2/src/handlers/nat_handler.py:6-21 | leases and free ports are always 64512 together |
| `NatProofs.FailsExactlyWhenFull` | tp2/src/handlers/nat_handler.py:56-60 | creation fails if and only if the key has no live lease and live leases hold all 64512 ports |
| `NatProofs.LookupIsScan` | tp2/src/handlers/nat_handler.py:82-87 | the reverse lookup answers r if and only if a scan of the live forward table finds an entry with that public endpoint and owner r |
| `NatProofs.AlwaysValid` | tp2/src/handlers/nat_handler.py:49-87 | after any sequence of operations at any times the tables are inverse bijections and the ports conserved |
| `NatProofs.PortsAreExclusive` | tp2/src/handlers/nat_handler.py:11-17 | after any sequence of operations two private endpoints never share a public port, whatever their protocols |
| `NatProofs.LeaseGuarantee` | tp2/src/handlers/nat_handler.py:49-87 | up to 30 s after a grant, after any operations, the public endpoint answers with its owner, the owner's creates return the same lease whatever they ask for, and no other key gets that port (section 4.1 of RFC 4787) |
| `NatProofs.GrantStartsLease` | tp2/src/handlers/nat_handler.py:62-80 | a grant puts the entry it returns, with the time of the grant, into valid tables |
| `NatProofs.NothingStale` | tp2/src/handlers/nat_handler.py:23-36 | after an operation no entry is older than 30 s at the time the operation reaped |
| `RouterModel.PrivateIsSubnet` | tp2/src/protorouter.py:188-193 | private addresses are those whose first 24 bits are the subnet's, 192.168.1.0 to 192.168.1.255 |
| `ArpHandler.ArpHandler.EnqueuePacket` | tp2/src/handlers/arp_handler.py:42-45 | the event goes to the end of its address's queue, other queues unchanged |
| `ArpHandler.ArpHandler.DequeuePackets` | tp2/src/handlers/arp_handler.py:48-53 | returns the whole queue in arrival order and removes it, or nothing |
| `ArpHandler.ArpHandler.ReapArpTable` | tp2/src/handlers/arp_handler.py:76-81 | removes exactly the entries over 30 s old |
| `ArpHandler.ArpHandler.LearnArpEntry` | tp2/src/handlers/arp_handler.py:63-73 | reaps, then puts the new entry in place of whatever the address had |
| `ArpHandler.ArpHandler.GetMac` | tp2/src/handlers/arp_handler.py:83-86 | the stored MAC if and only if the address is in the table |
| `ArpHandler.ArpHandler.GetPort` | tp2/src/handlers/arp_handler.py:88-91 | the stored port if and only if the address is in the table |
| `ArpTable.EventTeaches` | tp2/src/handlers/arp_handler.py:63-81 | only ARP messages change the ARP table: each replaces its sender's entry by its own MAC, port and time, and removes exactly the other entries over 30 s old |
| `ArpTable.TableExact` | tp2/src/handlers/arp_handler.py:63-81 | in every run of router events an address is in the ARP table if and only if no ARP message, from anyone, came more than 30 s after the last one from it; its entry is the MAC, port and time of that last one |
| `ProtoRouter.ProtoRouter.ResolveMac` | tp2/src/protorouter.py:53-59 | the MAC if the address is known, with nothing changed; otherwise the event waits and one ARP request goes out |
| `ProtoRouter.ProtoRouter.ResolveMacAndPort` | tp2/src/protorouter.py:61-68 | the same for MAC and port, where a port of 0 counts as unknown |
| `ProtoRouter.ProtoRouter.SendPacket` | tp2/src/protorouter.py:74-81 | the frame goes out with the given MACs, payload unchanged |
| `ProtoRouter.ProtoRouter.InstallFlow` | tp2/src/protorouter.py:44-51 | one flow message with that match and those actions in order |
| `ProtoRouter.ProtoRouter.HandleOutgoing` | tp2/src/protorouter.py:197-273 | resolve, lease, two flows and the rewritten packet, or suspension or drop: the whole new state and the messages in order |
| `ProtoRouter.ProtoRouter.HandlePrivateToPrivate` | tp2/src/protorouter.py:275-314 | resolve, two flows and the packet with new MACs, or suspension |
| `ProtoRouter.ProtoRouter.HandleIncoming` | tp2/src/protorouter.py:316-394 | echo and port lookups, delivery to the owner, or suspension or drop |
| `ProtoRouter.ProtoRouter.HandleIp` | tp2/src/protorouter.py:176-195 | dispatch on protocol and on whether source and destination are private |
| `ProtoRouter.ProtoRouter.HandleArp` | tp2/src/protorouter.py:119-174 | learn, take the queue out, resume its events in order, then flood or answer |
| `ProtoRouter.ProtoRouter.HandlePacketIn` | tp2/src/protorouter.py:83-93 | dispatch by frame type; with `HandleArp` calling back, the recursion is proved to end |
| `RouterProofs.HandleIpMoves` | tp2/src/protorouter.py:176-195 | an IP event goes to exactly one of forwarded, dropped and one queue, and no other event or learned address moves |
| `RouterProofs.EveryIpEventInOnePlace` | tp2/src/protorouter.py:139-144 | after any run of ARP, IP and other events each IP event is in exactly one of forwarded, dropped and waiting, once, under one address |
| `RouterProofs.ArpResumesInOrder` | tp2/src/protorouter.py:141-144 | an ARP message resumes its sender's whole queue once: what is sent, dropped or queued again are, each, subsequences of that queue in its order |
| `RouterProofs.OnlyIpEverWaits` | tp2/src/handlers/arp_handler.py:42-53 | in every run from the start only IP events wait, which is what that theorem asks of its state |
| `RouterProofs.OutcomeIsVisible` | tp2/src/protorouter.py:197-394 | forwarded events end in a packet-out, dropped ones send nothing, suspended ones send one ARP request for the address they wait for |
| `RouterProofs.WaitingIsAsked` | tp2/src/protorouter.py:53-68 | in every run an ARP request went out for every address that events wait for |
| `RouterProofs.ArpAnswerFollows` | tp2/src/protorouter.py:139-174 | after what the resumed events send, in which there is no such answer, an ARP message makes the router send exactly one more message, its own frame to all ports, if and only if it goes between private hosts; the reply if and only if it asks for the router; and otherwise nothing |
| `RouterProofs.AnswersExact` | tp2/src/protorouter.py:139-174 | over all that handling an ARP message sends, an ARP frame goes out again if and only if it goes between private hosts, unchanged and to all ports, and an ARP reply if and only if the message is a request for one of the router's own two addresses, with the MAC of that side, to its sender, where it came in |
| `RouterProofs.OthersAreIgnored` | tp2/src/protorouter.py:83-93 | frames that are neither ARP nor IP leave no trace: every run does what its ARP and IP events do without the others |
| `RouterProofs.StaysUnresolvedExact` | tp2/src/protorouter.py:61-68 | an IP event keeps waiting and known addresses apart if and only if the address whose port it needs is not stored with port 0 |
| `RouterProofs.ArpStaysUnresolvedExact` | tp2/src/protorouter.py:139-144 | an ARP message keeps them apart if and only if none of the events it resumes, at its turn, needs the port of an address stored with port 0 |
| `RouterProofs.EventStaysUnresolved` | tp2/src/protorouter.py:139-144 | with ports other than 0 every event keeps them apart; after an ARP message its sender is known and nothing waits for it |
| `RouterProofs.WaitingIsUnresolved` | tp2/src/handlers/arp_handler.py:42-91 | so they stay apart over every run whose ARP messages come in on ports other than 0 |
| `RouterProofs.PortZeroFails` | tp2/src/protorouter.py:64-67 | with port 0 two events break it: the address is known and waited for |
| `RouterProofs.PortZeroFailsOnResume` | tp2/src/protorouter.py:141-144 | with port 0 an event that waits is suspended again under its address by the ARP message that teaches that address |
| `FastPath.SlowPathOut` | tp2/src/protorouter.py:225-273 | for a leased connection to a known destination the controller sends the two flows and the rewritten packet, in that order |
| `FastPath.OutFlowTranslates` | tp2/src/protorouter.py:237-251 | the outgoing flow matches its packet and turns every packet it matches into what the controller's own rewriting gives, sent unless it came in on the public port |
| `FastPath.RunKeepsLease` | tp2/src/handlers/nat_handler.py:23-36 | a lease of either allocator outlives every run of router events within its 30 s |
| `FastPath.AlwaysTables` | tp2/src/protorouter.py:207-233 | in every run from the start both allocators are valid and lease only the router's address, to private hosts |
| `FastPath.OutgoingAgrees` | tp2/src/protorouter.py:235-273 | while the lease lives, whatever events come between, the flow and the controller send the same frame to the same port, for every packet the flow matches, if and only if the destination is known by the MAC the flow has and the packet did not come in on the public port |
| `FastPath.SlowPathIn` | tp2/src/protorouter.py:316-394 | a packet for the public end of a live lease, TCP, UDP or echo, goes to its owner's address and port, or waits under the owner's address |
| `FastPath.ReturnAgrees` | tp2/src/protorouter.py:253-267 | while the lease lives the return flow and the controller send the same message if and only if the private host is located at the MAC and port the flow has and that port is not the public one, where the switch sends nothing; otherwise they rewrite addresses and ports alike if and only if the host is located at all, and else the controller asks for it |
| `FastPath.IncomingAgrees` | tp2/src/protorouter.py:358-372 | while the lease lives the flow of an incoming packet and the controller send the same message, for every packet the flow matches, if and only if the owner is located at the MAC and port the flow has and that port is not the ingress port |
| `FastPath.ReplyAgrees` | tp2/src/protorouter.py:374-388 | its reply flow and the controller send the same message if and only if the peer is known by the MAC the incoming packet had, that packet came in on the public port, and the private end is not on that port |
| `FastPath.ThereAgrees` | tp2/src/protorouter.py:286-297 | the flow between private hosts and the controller, in any later state, send the same for a TCP, UDP or ICMP packet if and only if the destination is located at the MAC and port the flow has and that port is not the ingress port; for another packet, which the controller drops, if and only if the two ports are equal |
| `FastPath.BackAgrees` | tp2/src/protorouter.py:299-310 | the flow for the answers and the controller send the same for a TCP, UDP or ICMP answer if and only if the sending host is located where its packet came from and that is not the answer's ingress port; for another one if and only if the two ports are equal |
| `FastPath.RoundTrip` | tp2/src/protorouter.py:346-394 | after any events within the lease, a peer's answer to the packet that the controller sent out comes back as the answer to the original packet: by the controller, through its reverse lookup, to where the host is located (or it waits for the host), and by the return flow, which it matches, to where the packet came from, unless that is the public port (section 2.2 of RFC 3022) |
| `FastPath.ReplyRoundTrip` | tp2/src/protorouter.py:374-394 | a peer's packet reaches the private end, and after any events within the lease the private end's answer matches the reply flow and comes to the peer as the answer to the packet it sent: by that flow to where the peer's packet came from, unless the private end is there too, and by the controller to the peer's known MAC, or it waits for the peer |
| `FastPath.PrivateRoundTrip` | tp2/src/protorouter.py:299-314 | between private hosts the answer to a packet matches the flow installed for answers at the other host's port; the switch passes it on to where the packet came from, unless both hosts are there, and the controller, in any later state, to where the host is located, or it waits for the host |
| `FastPath.EchoOut` | tp2/src/protorouter.py:207-223 | an outgoing echo message leaves alone, without flows, under its leased identifier |
| `FastPath.EchoRoundTrip` | tp2/src/protorouter.py:322-340 | after any events within the lease the answer to an echo message reaches the host that sent it, under the identifier it used, or waits for that host |
| `FastPath.ControllerAndSwitchDiffer` | tp2/src/protorouter.py:346-356 | a run of two events from the start after which the return flow forwards the peer's answer while the controller asks for the host |
| `FastPath.SharedPortDiffers` | tp2/src/protorouter.py:281-297 | a run of two events from the start, two private hosts behind one port, after which the flow drops a packet that the controller sends |
| `Outcomes.EndsExactly` | tp2/src/protorouter.py:176-394 | how an IP event ends, exactly: it is dropped and sends nothing if and only if it has another protocol, comes from outside for a public end (for echo: an identifier) that no unexpired lease has, or needs a lease when unexpired ones hold all 64512 ports; else it waits for its next hop, with one ARP request on the side where that is, if and only if the hop is not resolved; else it is forwarded |
| `Outcomes.EveryEventEndsExactly` | tp2/src/protorouter.py:176-394 | so every IP event ends after every run of the router |
| `Outcomes.OwnerIsUnique` | tp2/src/protorouter.py:322-349 | at most one private end owns a packet from outside |
| `Outcomes.LeasesAfter` | tp2/src/handlers/nat_handler.py:49-87 | an IP event that consults an allocator leaves in it exactly the unexpired leases and, for an outgoing packet that had none and was not refused, a new one; the other allocator stays as it was |
| `Outcomes.LeasesUntouched` | tp2/src/protorouter.py:185-195 | an IP event that consults none leaves both as they were |
| `Outcomes.ArpAlone` | tp2/src/protorouter.py:139-174 | an ARP message for which nothing waits touches no lease and no event and sends at most one message |
| `Outcomes.LeavesTranslated` | tp2/src/protorouter.py:197-273 | a packet that leaves goes out of the public port from the router's public IP and MAC to the same destination and port, at the MAC known for it, and the reverse lookup resolves its source port or identifier to its private end |
| `Outcomes.EntersTranslated` | tp2/src/protorouter.py:316-394 | a packet that is delivered inside comes from the router's private MAC, goes to the owner of its public end where that is located, under the owner's own port or identifier, and keeps the peer's address and port |

## Left out

- Handshake: its packets do not survive loss or repetition in the original, so a run starts after one completed handshake.
- SelectiveRepeat.SelectiveRepeat.HandlePacket: reports nothing for SYN, NACK, corrupt and unknown packets, where the original handles a second SYN or raises; the network of an open session never carries them.
- StopAndWait.StopAndWait.HandlePacket: the same packets are left out, for the same reason.
- Session.Client.Take: ignores DATA, CLOSE and SYN_ACK events, for which the original writes, closes or grants a second window; an upload's server sends none of them after the handshake.
- SawClient.Client.Take: the same events are left out.
- Session.Server.Take: ignores ACK events, for which the original reads its file or, for number 0, creates it again; an upload's client sends none after the handshake.
- Session.Client.ReadFile: does not model the error on a file that is not open; the client stops handling packets once its file is closed.
- Download direction: only the server's ACK handler is modelled, on the states of an upload's sender (`Upload.ServerActsAlike`); there is no download system of its own.
- Stop-and-Wait on the server: its protocol object is the same class, and its session is modelled on values in `SawTransfer` only.
- Stop-and-Wait's `send_data_packet`, `end`, `_send_ack` and `handle_close`: they call methods that do not exist.
- Sockets, threads, per-client queues, the 60 s inactivity limit, logging, command line and directories: "sending" adds a packet to the network.
- CRC-32: the codec theorems hold for every function from bytes to 32 bits.
- Syn.HandleSynExact: a size that `int` accepts in another spelling than plain digits counts as no number here.
- UTF-8: names and SYN payloads are strings of characters; `int` accepts spellings other than plain digits, `Syn.ParseDecimal` only plain digits.
- Order of a dictionary: resent packets come in order of number, which is the order in which the window was filled.
- Clock: one reading for each handler call, except that creating a lease reads it once to reap and once to grant; inside the router both readings are the event's time.
- Packets as objects: frames are values, so the in-place rewriting of a frame that another queue could hold is not captured; no frame is rewritten before its event is resolved.
- ICMP messages other than echo: the original raises when they have no identifier.
- `IcmpHandler`: a second instance of the port allocator, under the one protocol ICMP; both have the range 1024..65535.
- Flow idle timeouts, and flows that outlive their lease: the agreement theorems about leased ports end with the lease.
- POX and OpenFlow internals, checksums, table dumps: a frame is a record, an action a field update or an output to a port, and a MAC found in the table always counts as found.
