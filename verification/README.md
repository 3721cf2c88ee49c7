# FPGA trading pipeline: network, memory and order kernels

Dafny models of the state machines at the core of an FPGA trading pipeline, and proofs of what they promise: the
checksum, framing and IP stages of the network stack, the ICMP server, the cuckoo hash table, the URAM array and the
byte data mover on top of it, the IGMP timer table, the dual-feed line arbitrator, the order entry encoder, and the
time-series ring buffer of the pricing engine.

## How it is modelled

- **Stages.** Every HLS function is a class that holds its `static` variables; one call of the function is one call
  of the method (`Step`, or the function's own name). The method is proved equal to a step function over a value of
  the same registers, and the lemmas speak of runs of that step function: over whole packet streams, and from every
  state a stage can be in between packets. Every network stage reads its streams in an order that does not depend on
  timing, so the composition of stages is the composition of their runs. The arbitrator and the IGMP timer do depend
  on timing: their runs are over arbitrary sequences of calls, each with whatever its streams offer at that moment.
- **Streams** are sequences. A network word is eight octet lanes, a keep mask and `last`; `IsPacket` says what a
  packet is and `Flatten(ps)` is the stream of back-to-back packets. Lanes that are not kept hold arbitrary data.
- **Fixed widths** are written out: 17-bit and 24-bit sums, 8-, 16-, 23- and 32-bit counters and addresses wrap where
  the source's types wrap. Values that the source treats as bit patterns (hash keys, URAM lines, data mover words) are
  bit sequences.
- **Uninitialised variables** (`prevWord`, the memory, the data mover's `lshiftWord`) are parameters, so every result
  holds whatever they contain.
- **Arithmetic of checksums.** `OnesComplement.Fold` is the value a one's complement adder reaches for an exact sum.
  It is proved equal to the carry-folding loop of RFC 1071 and to be a homomorphism, so that a stage may spread its
  additions over any number of lanes.

| files | subject |
|---|---|
| OnesComplement, AxiStream, Bits, Wrappers | one's complement arithmetic, packets, bit sequences, options |
| WordShift, LaneSums, PacketHeaders | word shifters, four-lane sums, header buffer |
| IpHeader, IpReceive, IpDropper, CutLength | IPv4 header checksum of sender and receiver, dropper, length cut |
| EthernetSend, EthernetReceive, Ethernet, Delivery | framing, unframing, their round trip, the way end to end |
| IcmpReply, IcmpCheck, IcmpServer | the ICMP echo server |
| CuckooSpec, CuckooRuns, CuckooChain, HashTable | the cuckoo hash table |
| UramAddress, UramArray | the packed memory |
| DataMoverSpec, DataMoverWrite, DataMoverFrame, DataMover | the byte data mover: reads, writes, what writes leave alone |
| Decimal, OrderMessage, OrderEntry | decimal encoding and the order message |
| ArbitratorSpec, ArbitratorRuns, ArbitratorPackets, ArbitratorFeeds, LineHandler | the line arbitrator |
| IgmpTimer, IgmpRuns, IgmpExact, IgmpProcess | the IGMP timer table |
| TimeSeries | the ring buffer and its moving statistics |

## Where the code does less than it is for

Each of these is proved: a concrete input or family for which the promise fails, and where the promise holds exactly.

- **Empty reads.** A data mover read of no bytes from an unaligned address still puts one word out. For every other
  offset and length the burst is exact (`DataMoverSpec.ReadIsExact`).
- **Unaligned writes.** The merge of a final partial word reuses the last aligned word instead of the shifted
  remainder, so a write that reaches into a word behind its last input word loses octets; a write delivers its bytes,
  for every content, exactly when it does not or is empty (`DataMoverWrite.DeliversIffNoSpill`). In place of each lost
  octet stands the one eight places before it, or zero (`DataMoverFrame.WritesExactly`). Aligned writes always deliver
  their octets.
- **Writes beside the transfer.** The first and last word of a write are put back whole, and what is merged into them
  is fetched from byte addresses used as word indices. A write changes no octet outside its transfer, for every memory
  and input, exactly when it ends with a word and starts with one or in the first word of its buffer
  (`DataMoverFrame.KeepsOthersIffBounded`); seven octets at address 9 change octet 8, three octets at address 0 change
  octet 3 (`HeadInstance`, `TailInstance`). Even an empty write changes the octets of its word before an unaligned
  address. What every octet becomes is `DataMoverFrame.WriteOctet`. Octets of other sessions are never touched.
- **Sessions.** Regions are based at `nBuffer << 16` in *word* index, so only four of the 32 accepted sessions lie in
  the memory (`DataMoverSpec.SessionsThatFit`).
- **Length cut.** `cut_length` trusts the total length field. It is faithful exactly when the field ends inside the
  received octets or beyond the last word, and not in the first word of a longer packet (`CutLength.CutIsExact`);
  a datagram one octet short of its announced length leaves with an octet that was never received
  (`CutLength.CutCanInvent`).
- **ICMP requests of three words** (17 to 24 octets) are answered, and leave `insertChecksum` out of step: the next
  answered packet goes out without its new checksum, does not verify, and its checksum stays in the queue, so that from
  then on longer requests carry the checksum made for the request before them (`IcmpServer.ThreeWordRequestSpoilsNext`,
  `IcmpServer.QueueStaysBehind`; `IcmpServer.SmallRequestIsAnswered` has such a request of 24 octets). Over any traffic
  the server sends the right replies if and only if no answered three-word packet is followed by another answered
  packet (`IcmpServer.AnswersRightIff`). A proper echo request is longer: the IP and ICMP headers alone take 28 octets.
- **The IP checksum of a reply** is updated for the new time to live without end-around carry. Of a request whose header
  verifies, the header of the reply verifies if and only if the checksum, read in the order of the wire word, and the
  old time to live add up to a number from 64 to 65599 (`IcmpReply.ReplyHeaderVerifiesIff`). The sender behind the
  server computes that checksum anew.
- **Hash table keys.** Insertion never looks for its key. Inserted twice into empty tables, every key is found with its
  first value (`CuckooRuns.SecondInsertHidden`). With a free slot the value found is the one of the last table behind
  that slot, if that holds a copy (`CuckooRuns.ReinsertedKey`); without one, and however many evictions, it is the new
  or an old one (`CuckooRuns.ReinsertedFound`). A run keeps the tables a map, every key stored once and found with its
  last value, if and only if it inserts only keys that a lookup just missed (`CuckooRuns.RunAgreesIff`).
- **One-word packets** on a feed are closed one call after they were read; if the next packet has arrived by then it
  is forwarded with the first and never arbitrated (`ArbitratorPackets.OneWordPacketSwallowsNext`). Calls keep packets
  whole exactly when they are quiet in this sense (`ArbitratorPackets.QuietIffWhole`, over runs
  `ArbitratorPackets.AlwaysWholeIffQuiet`), and packets of two words or more always are.
- **`countTotalSent`** counts every forwarded packet twice, once at its start and once at its end
  (`ArbitratorPackets.Conservation`).
- **Exponential average.** The weights of a window of several samples add up to less than one, so a constant series is
  averaged to its value exactly when it has one sample or is zero (`TimeSeries.EmaOfConstant`).

## Model

| member | source | states |
|---|---|---|
| `OnesComplement.FoldCarriesIsFold` | Accelerated_Algorithmic_Trading/hw/tcp_udp_ip/hls/toe/two_complement_subchecksums.hpp:58-60 | folding carries until none is left, as section 4.1 of RFC 1071 does, gives the representative `Fold` for every sum |
| `OnesComplement.AccumulateIsFold` | Accelerated_Algorithmic_Trading/hw/tcp_udp_ip/hls/toe/two_complement_subchecksums.hpp:58-60 | a 17-bit lane never overflows and performs exactly one end-around-carry addition |
| `OnesComplement.SumZero` | Accelerated_Algorithmic_Trading/hw/tcp_udp_ip/hls/toe/two_complement_subchecksums.hpp:45-81 | the folded sum is zero only for all-zero data |
| `OnesComplement.ByteOrderIndependence` | Accelerated_Algorithmic_Trading/hw/tcp_udp_ip/hls/icmp_server/icmp_server.cpp:84-134 | whether data verifies does not depend on the order in which the octets of a word are read (section 2(B) of RFC 1071) |
| `LaneSums.AddLanes` | Accelerated_Algorithmic_Trading/hw/tcp_udp_ip/hls/toe/two_complement_subchecksums.hpp:52-69 | the lane loop adds a term to each selected register with end-around carry and leaves the other lanes alone |
| `LaneSums.AddTermsFolds` | Accelerated_Algorithmic_Trading/hw/tcp_udp_ip/hls/toe/two_complement_subchecksums.hpp:52-69 | however the terms of a word are spread over four lanes, the one's complement total is that of their exact sum |
| `LaneSums.KeptTermsSum` | Accelerated_Algorithmic_Trading/hw/tcp_udp_ip/hls/toe/two_complement_subchecksums.hpp:52-69 | the terms selected by the keep mask, lone first octet included, are worth the sum of exactly the octets the word carries |
| `LaneSums.FinalizeInverts` | Accelerated_Algorithmic_Trading/hw/tcp_udp_ip/hls/ipv4/ipv4.hpp:247-257 | the folding tree yields the complement of the folded total of the four lanes |
| `LaneSums.SubchecksumStage.Step` | Accelerated_Algorithmic_Trading/hw/tcp_udp_ip/hls/toe/two_complement_subchecksums.hpp:45-81 | one call: the word passes through, the lanes accumulate it, and `last` hands the sums on and clears them |
| `LaneSums.SubchecksumTraffic` | Accelerated_Algorithmic_Trading/hw/tcp_udp_ip/hls/toe/two_complement_subchecksums.hpp:45-81 | over any traffic, packet by packet, the stage and the folding tree yield the RFC 1071 checksum of exactly that packet's octets: odd lengths included, nothing leaks into the next packet |
| `WordShift.LeftShifter.Step` | Accelerated_Algorithmic_Trading/hw/tcp_udp_ip/hls/axi_utils.hpp:436-491 | one call of the left shifter |
| `WordShift.LeftTraffic` | Accelerated_Algorithmic_Trading/hw/tcp_udp_ip/hls/axi_utils.hpp:436-491 | for every offset any traffic comes out packet by packet, each with `offset` octets put in front of its content |
| `WordShift.PrependedOctets` | Accelerated_Algorithmic_Trading/hw/tcp_udp_ip/hls/axi_utils.hpp:436-491 | those octets are zero, and the octets of the packet follow |
| `WordShift.RightShifter.Step` | Accelerated_Algorithmic_Trading/hw/tcp_udp_ip/hls/axi_utils.hpp:369-433 | one call of the right shifter |
| `WordShift.RightTraffic` | Accelerated_Algorithmic_Trading/hw/tcp_udp_ip/hls/axi_utils.hpp:369-433 | for every offset any traffic comes out packet by packet without its first `offset` octets; a packet that has no more than those leaves one last word without octets |
| `WordShift.ShiftRoundTrip` | Accelerated_Algorithmic_Trading/hw/tcp_udp_ip/hls/axi_utils.hpp:369-491 | the two shifters are inverse on every traffic, for every offset |
| `WordShift.LeftRunSplit` | Accelerated_Algorithmic_Trading/hw/tcp_udp_ip/hls/axi_utils.hpp:436-491 | the left shifter's output does not depend on how its input is cut into arrivals |
| `PacketHeaders.PacketHeader.ParseWord` | Accelerated_Algorithmic_Trading/hw/tcp_udp_ip/hls/packet.hpp:49-60 | `parseWord` on the fields of the header buffer |
| `PacketHeaders.PacketHeader.ConsumeWord` | Accelerated_Algorithmic_Trading/hw/tcp_udp_ip/hls/packet.hpp:61-72 | `consumeWord` on the fields of the header buffer, and how much of the header it says is left |
| `PacketHeaders.ParseCollects` | Accelerated_Algorithmic_Trading/hw/tcp_udp_ip/hls/packet.hpp:49-60 | for every header size, parsing collects the first octets of the packet and is ready exactly when it has them all |
| `PacketHeaders.ConsumeOverlays` | Accelerated_Algorithmic_Trading/hw/tcp_udp_ip/hls/packet.hpp:61-72 | for every header size, consuming lays what is left of the header over the outgoing words |
| `PacketHeaders.HeaderRoundTrip` | Accelerated_Algorithmic_Trading/hw/tcp_udp_ip/hls/packet.hpp:49-72 | a header laid over enough words is parsed back unchanged |
| `IpHeader.ComputeChecksumStage.Step` | Accelerated_Algorithmic_Trading/hw/tcp_udp_ip/hls/ipv4/ipv4_utils.cpp:43-126 | one call: the three word-count cases, the four-bit header length, the skipped checksum field |
| `IpHeader.SenderPacket` | Accelerated_Algorithmic_Trading/hw/tcp_udp_ip/hls/ipv4/ipv4_utils.cpp:43-126 | every datagram with a full header, any options and payload, hands on one set of sums worth the sum of its header octets, the checksum field counting as zero when skipped |
| `IpHeader.InsertChecksumStage.Step` | Accelerated_Algorithmic_Trading/hw/tcp_udp_ip/hls/mac_ip_encode/mac_ip_encode.cpp:94-137 | one call of `insert_ip_checksum` |
| `IpHeader.SendTraffic` | Accelerated_Algorithmic_Trading/hw/tcp_udp_ip/hls/mac_ip_encode/mac_ip_encode.cpp:310-312 | over any traffic of datagrams exactly the header checksum field of each changes, to the RFC 1071 checksum of its own header, and no checksum is left over |
| `IpHeader.StoredChecksumVerifies` | Accelerated_Algorithmic_Trading/hw/tcp_udp_ip/hls/mac_ip_encode/mac_ip_encode.cpp:114-125 | the stored checksum makes the header verify |
| `IpReceive.CheckChecksumStage.Step` | Accelerated_Algorithmic_Trading/hw/tcp_udp_ip/hls/ip_handler/ip_handler.cpp:284-369 | one call of `check_ip_checksum`: sums, eight-bit header length, verdict sums sent once |
| `IpReceive.RecvOneVerdict` | Accelerated_Algorithmic_Trading/hw/tcp_udp_ip/hls/ip_handler/ip_handler.cpp:345-369 | every packet, malformed or not, gets exactly one verdict and leaves the stage at a packet start |
| `IpReceive.RecvVerdict` | Accelerated_Algorithmic_Trading/hw/tcp_udp_ip/hls/ip_handler/ip_handler.cpp:284-398 | for every packet, or single last word: it matches exactly if the word in which its header ends by the IHL field has come and the destination fits; the header is valid exactly if the summed lanes add up to all ones and, once that word has come, the version is 4 |
| `IpReceive.CompleteVerdict` | Accelerated_Algorithmic_Trading/hw/tcp_udp_ip/hls/ip_handler/ip_handler.cpp:284-398 | a packet that carries all its header octets is found valid exactly when its version is 4 and the one's complement sum of its header is all ones, and matches exactly by its destination |
| `IpReceive.VerdictInOctets` | Accelerated_Algorithmic_Trading/hw/tcp_udp_ip/hls/ip_handler/ip_handler.cpp:284-398 | the same in octets: this host, a group from 224 to 239 or all ones as destination, a first octet of 64 to 79, and a sum of all ones over 4 * IHL octets |
| `IpReceive.RecvTraffic` | Accelerated_Algorithmic_Trading/hw/tcp_udp_ip/hls/ip_handler/ip_handler.cpp:265-398 | over any traffic, malformed packets included, there is one such verdict per packet, in order |
| `IpReceive.SentHeaderAccepted` | Accelerated_Algorithmic_Trading/hw/tcp_udp_ip/hls/mac_ip_encode/mac_ip_encode.cpp:310-312 | sender to receiver, for every header length 5 to 15, options and payload: the receiver finds the header valid exactly when its version is 4 |
| `IpDropper.IpInvalidDropperStage.Step` | Accelerated_Algorithmic_Trading/hw/tcp_udp_ip/hls/ip_handler/ip_handler.cpp:428-471 | one call of `ip_invalid_dropper`, counters included |
| `IpDropper.DropTraffic` | Accelerated_Algorithmic_Trading/hw/tcp_udp_ip/hls/ip_handler/ip_handler.cpp:428-471 | exactly the packets with a good verdict go on, whole and in order, the three counters count all packets, those with an invalid header, and those with a valid header for somebody else, modulo 2^32 |
| `CutLength.CutLengthStage.Step` | Accelerated_Algorithmic_Trading/hw/tcp_udp_ip/hls/ip_handler/ip_handler.cpp:496-532 | one call of `cut_length` |
| `CutLength.CutTraffic` | Accelerated_Algorithmic_Trading/hw/tcp_udp_ip/hls/ip_handler/ip_handler.cpp:496-532 | over any traffic every packet is cut on its own, to exactly what its total length makes of its lanes |
| `CutLength.CutIsExact` | Accelerated_Algorithmic_Trading/hw/tcp_udp_ip/hls/ip_handler/ip_handler.cpp:496-532 | a cut packet is what its total length says exactly when that length ends in the received octets or beyond the last word, and not in the first word of a longer packet |
| `CutLength.CutCanInvent` | Accelerated_Algorithmic_Trading/hw/tcp_udp_ip/hls/ip_handler/ip_handler.cpp:508-520 | a datagram one octet short of its total length leaves with an octet that was never received |
| `EthernetSend.HandleArpReplyStage.Step` | Accelerated_Algorithmic_Trading/hw/tcp_udp_ip/hls/mac_ip_encode/mac_ip_encode.cpp:150-191 | one call of `handle_arp_reply`, drop counter included |
| `EthernetSend.GateTraffic` | Accelerated_Algorithmic_Trading/hw/tcp_udp_ip/hls/mac_ip_encode/mac_ip_encode.cpp:150-191 | exactly the packets whose lookup hit go on, each with a header; the others vanish whole |
| `EthernetSend.InsertHeaderStage.Step` | Accelerated_Algorithmic_Trading/hw/tcp_udp_ip/hls/mac_ip_encode/mac_ip_encode.cpp:204-260 | one call of `insert_ethernet_header`, packet counter included |
| `EthernetSend.FramedOctets` | Accelerated_Algorithmic_Trading/hw/tcp_udp_ip/hls/mac_ip_encode/mac_ip_encode.cpp:204-260 | the frame made of a header and a shifted packet carries the header, then exactly the packet's octets |
| `Ethernet.TransmitTraffic` | Accelerated_Algorithmic_Trading/hw/tcp_udp_ip/hls/mac_ip_encode/mac_ip_encode.cpp:313-316 | over any traffic and any ARP replies, each datagram whose lookup hit leaves as one frame: the address the lookup returned, the address of the host, the octets 08 00, then the octets of the datagram |
| `EthernetReceive.DetectEthProtocolStage.Step` | Accelerated_Algorithmic_Trading/hw/tcp_udp_ip/hls/ip_handler/ip_handler.cpp:144-205 | one call of `detect_eth_protocol` |
| `EthernetReceive.DetectTraffic` | Accelerated_Algorithmic_Trading/hw/tcp_udp_ip/hls/ip_handler/ip_handler.cpp:144-205 | each frame yields its own type, a frame of one word the type of the frame before it; ARP and one-word frames pass whole, others without their first word |
| `EthernetReceive.TypeInOctets` | Accelerated_Algorithmic_Trading/hw/tcp_udp_ip/hls/ip_handler/ip_handler.cpp:144-205 | a frame with a whole header counts as IPv4 or ARP by its octets 12 and 13, 08 00 or 08 06 |
| `EthernetReceive.RouteByEthProtocolStage.Step` | Accelerated_Algorithmic_Trading/hw/tcp_udp_ip/hls/ip_handler/ip_handler.cpp:207-254 | one call of `route_by_eth_protocol` |
| `EthernetReceive.RouteTraffic` | Accelerated_Algorithmic_Trading/hw/tcp_udp_ip/hls/ip_handler/ip_handler.cpp:207-254 | each packet goes whole to the port of its type, in order; packets of other types vanish whole |
| `Ethernet.ReceiveTraffic` | Accelerated_Algorithmic_Trading/hw/tcp_udp_ip/hls/ip_handler/ip_handler.cpp:692-696 | from any mixture of frames, however short, the ARP port gets the ARP frames unchanged and the IP stages what is behind the header of the IPv4 frames |
| `Ethernet.WireRoundTrip` | Accelerated_Algorithmic_Trading/hw/tcp_udp_ip/hls/mac_ip_encode/mac_ip_encode.cpp:313-316 | over a wire that may pad every frame, the receiver hands on exactly the datagrams whose lookup hit, in order, each with the padding behind it |
| `Ethernet.FrameRoundTrip` | Accelerated_Algorithmic_Trading/hw/tcp_udp_ip/hls/mac_ip_encode/mac_ip_encode.cpp:313-316 | what the sender frames, the receiver hands on octet for octet and in order, and nothing reaches its ARP port |
| `Delivery.HandleTraffic` | Accelerated_Algorithmic_Trading/hw/tcp_udp_ip/hls/ip_handler/ip_handler.cpp:692-705 | from any mixture of frames, however short, what reaches the protocol stages are, in order, the contents of the IPv4 frames with a good verdict, cut to their total length; a frame not longer than its header never gets one |
| `Delivery.WantedInOctets` | Accelerated_Algorithmic_Trading/hw/tcp_udp_ip/hls/ip_handler/ip_handler.cpp:345-398 | which datagrams the host wants, in octets |
| `Delivery.EndToEnd` | Accelerated_Algorithmic_Trading/hw/tcp_udp_ip/hls/mac_ip_encode/mac_ip_encode.cpp:310-316 | through both modules, for all datagrams with a full header: exactly those whose ARP lookup hit, of version 4 and for this host, a group or broadcast, arrive, in order and with the right header checksum; for every total length it is said which octets arrive |
| `Delivery.PaddedEndToEnd` | Accelerated_Algorithmic_Trading/hw/tcp_udp_ip/hls/ip_handler/ip_handler.cpp:692-705 | the same over a wire that puts any number of padding octets behind every frame: a total length between 9 and the datagram's length cuts the padding off exactly |
| `IcmpReply.BorrowIsNew` | Accelerated_Algorithmic_Trading/hw/tcp_udp_ip/hls/icmp_server/icmp_server.cpp:89-105 | the complement, subtract, end-around borrow and complement states leave the old checksum plus the old type, with end-around carry (section 3 of RFC 1624) |
| `IcmpReply.ReplyVerifies` | Accelerated_Algorithmic_Trading/hw/tcp_udp_ip/hls/icmp_server/icmp_server.cpp:96-173 | a request whose ICMP checksum verifies has a reply whose checksum verifies again, with the addresses swapped, a time to live of 64, and everything else of the header and the data untouched |
| `IcmpReply.ReplyHeaderVerifiesIff` | Accelerated_Algorithmic_Trading/hw/tcp_udp_ip/hls/icmp_server/icmp_server.cpp:139-150 | the IP header checksum of the reply, updated for the new time to live without end-around carry, verifies again if and only if the sixteen bits neither underflow nor overflow |
| `IcmpCheck.CheckIcmpChecksumStage.Step` | Accelerated_Algorithmic_Trading/hw/tcp_udp_ip/hls/icmp_server/icmp_server.cpp:86-196 | one call of `check_icmp_checksum`: pending word, four compute states, or one input word; the echo counter counts acceptable requests whether answering is enabled or not |
| `IcmpCheck.ComputedState` | Accelerated_Algorithmic_Trading/hw/tcp_udp_ip/hls/icmp_server/icmp_server.cpp:88-121 | after the three arithmetic states the sum register tells whether the message verifies and the checksum register, if it was loaded, holds the new checksum |
| `IcmpCheck.CheckPacket` | Accelerated_Algorithmic_Trading/hw/tcp_udp_ip/hls/icmp_server/icmp_server.cpp:86-196 | each packet of 1 to 65536 words leaves with time to live, addresses and type changed as far as it reaches, with one verdict, and with one checksum exactly when it is an acceptable echo request; packets of one or two words never are |
| `IcmpCheck.ContentIsOctets` | Accelerated_Algorithmic_Trading/hw/tcp_udp_ip/hls/icmp_server/icmp_server.cpp:139-190 | from 24 octets on what the stage goes by is exactly what the packet carries; in a shorter packet of three words it takes lanes that are not kept |
| `IcmpCheck.SwappedOctets` | Accelerated_Algorithmic_Trading/hw/tcp_udp_ip/hls/icmp_server/icmp_server.cpp:139-196 | with the checksum stored the swapped packet carries exactly the reply, and as many octets as the request |
| `IcmpServer.DropperStage.Step` | Accelerated_Algorithmic_Trading/hw/tcp_udp_ip/hls/icmp_server/icmp_server.cpp:220-249 | one call of `dropper`, reply counter included |
| `IcmpServer.InsertChecksumStage.Step` | Accelerated_Algorithmic_Trading/hw/tcp_udp_ip/hls/icmp_server/icmp_server.cpp:269-308 | one call of `insertChecksum` |
| `IcmpServer.ServeTraffic` | Accelerated_Algorithmic_Trading/hw/tcp_udp_ip/hls/icmp_server/icmp_server.cpp:340-342 | over any traffic of option-free ICMP packets, whatever their lengths, one packet leaves for each acceptable echo request, in order, with the next checksum of the queue stored in it unless it is right behind a request of three words; everything else is dropped whole |
| `IcmpServer.RequestInOctets` | Accelerated_Algorithmic_Trading/hw/tcp_udp_ip/hls/icmp_server/icmp_server.cpp:151-200 | what counts as a request, in octets: type 8, code 0, no multicast destination, at least 24 octets, an ICMP checksum that verifies |
| `IcmpServer.EchoesCountRequests` | Accelerated_Algorithmic_Trading/hw/tcp_udp_ip/hls/icmp_server/icmp_server.cpp:109-134 | over any traffic the request counter counts exactly the requests, answered or not |
| `IcmpServer.AnswersRightIff` | Accelerated_Algorithmic_Trading/hw/tcp_udp_ip/hls/icmp_server/icmp_server.cpp:269-342 | over any such traffic the output is the right reply to each acceptable request, in order, if and only if no answered packet of three words is followed by another answered packet |
| `IcmpServer.ServedRepliesVerify` | Accelerated_Algorithmic_Trading/hw/tcp_udp_ip/hls/icmp_server/icmp_server.cpp:340-342 | in step, every packet the server sends verifies again, is an echo reply with swapped addresses and the request's data |
| `IcmpServer.ThreeWordRequestSpoilsNext` | Accelerated_Algorithmic_Trading/hw/tcp_udp_ip/hls/icmp_server/icmp_server.cpp:269-342 | for every request of three words and every request behind it, from any idle state: the second leaves with type 0 but its old checksum, and does not verify |
| `IcmpServer.QueueStaysBehind` | Accelerated_Algorithmic_Trading/hw/tcp_udp_ip/hls/icmp_server/icmp_server.cpp:269-308 | after a request of three words every longer request from the second on leaves with the checksum made for the request before it |
| `IcmpServer.SmallRequestIsAnswered` | Accelerated_Algorithmic_Trading/hw/tcp_udp_ip/hls/icmp_server/icmp_server.cpp:139-342 | a datagram of 24 octets with a valid header and the ICMP part 08 00 F7 FF is answered by the server, from every idle state, with its reply |
| `CuckooSpec.HashFlip` | Accelerated_Algorithmic_Trading/hw/tcp_udp_ip/hls/hash_table/hash_table.cpp:84-98 | flipping a key bit changes the hash by the XOR of the two random numbers of that position: every key bit enters every hash once |
| `CuckooSpec.HashIsTabulation` | Accelerated_Algorithmic_Trading/hw/tcp_udp_ip/hls/hash_table/hash_table.cpp:84-98 | bit b of the i-th hash is the parity of those of the 64 key bits whose random number in table i has bit b set |
| `CuckooSpec.FindIsContents` | Accelerated_Algorithmic_Trading/hw/tcp_udp_ip/hls/hash_table/hash_table.cpp:114-126 | under the placement invariant a lookup hits exactly the keys stored anywhere in the tables, with a value stored for them |
| `CuckooSpec.FindIsMap` | Accelerated_Algorithmic_Trading/hw/tcp_udp_ip/hls/hash_table/hash_table.cpp:114-126 | with unique keys lookup is the map that the table contents describe |
| `CuckooRuns.VictimPos` | Accelerated_Algorithmic_Trading/hw/tcp_udp_ip/hls/hash_table/hash_table.cpp:172 | the table to evict from is always a legal table number |
| `CuckooRuns.InsertConserves` | Accelerated_Algorithmic_Trading/hw/tcp_udp_ip/hls/hash_table/hash_table.cpp:154-186 | at every trial the tables and the entry in hand together hold what they held before plus the new entry; placement is kept |
| `CuckooRuns.InsertCount` | Accelerated_Algorithmic_Trading/hw/tcp_udp_ip/hls/hash_table/hash_table.cpp:132-192 | success adds exactly one entry; failure keeps the count |
| `CuckooChain.FailsIff` | Accelerated_Algorithmic_Trading/hw/tcp_udp_ip/hls/hash_table/hash_table.cpp:154-191 | an insertion fails if and only if twelve entries are in hand one after another, the new one first, none with a free slot among its nine candidates, entry k taking a slot of table `hash_{k % 9} % 8 + (victimBit + k) % 2` whose occupant is next in hand |
| `CuckooChain.FailsAfterTwelve` | Accelerated_Algorithmic_Trading/hw/tcp_udp_ip/hls/hash_table/hash_table.cpp:154-191 | what a failed insertion leaves: the tables after twelve such evictions, the last occupant dropped, the victim bit as it was |
| `CuckooChain.SucceedsAfter` | Accelerated_Algorithmic_Trading/hw/tcp_udp_ip/hls/hash_table/hash_table.cpp:154-187 | what a successful insertion leaves: after n < 12 evictions the entry in hand takes its last free candidate slot, and the victim bit has flipped n + 1 times |
| `CuckooChain.OneRelocation` | Accelerated_Algorithmic_Trading/hw/tcp_udp_ip/hls/hash_table/hash_table.cpp:154-187 | nine candidates taken and one occupant with a free slot of its own: the insertion succeeds with one relocation, and both entries are in the tables |
| `CuckooRuns.InsertExtendsMap` | Accelerated_Algorithmic_Trading/hw/tcp_udp_ip/hls/hash_table/hash_table.cpp:132-192 | inserting a key not present makes every lookup agree with the old map extended by it, however many evictions; a failed insertion in addition loses exactly the key left in hand |
| `CuckooRuns.ReinsertedKey` | Accelerated_Algorithmic_Trading/hw/tcp_udp_ip/hls/hash_table/hash_table.cpp:154-186 | a key inserted while a slot is free goes to the last free slot, and a lookup then returns the copy of the last table behind it, if there is one, or else the new value |
| `CuckooRuns.SecondInsertHidden` | Accelerated_Algorithmic_Trading/hw/tcp_udp_ip/hls/hash_table/hash_table.cpp:154-186 | for every configuration, key and two values: inserted twice into empty tables both insertions succeed and the key is found with its first value |
| `CuckooRuns.ReinsertedFound` | Accelerated_Algorithmic_Trading/hw/tcp_udp_ip/hls/hash_table/hash_table.cpp:132-192 | with or without a free slot: unless a copy of it is left in hand, an inserted key is found with the new value or one stored before, so with the new one if no other was stored |
| `CuckooRuns.RemoveErases` | Accelerated_Algorithmic_Trading/hw/tcp_udp_ip/hls/hash_table/hash_table.cpp:196-222 | removal erases every copy of its key, and no other lookup changes, duplicates or not |
| `CuckooRuns.RemoveCounts` | Accelerated_Algorithmic_Trading/hw/tcp_udp_ip/hls/hash_table/hash_table.cpp:196-222 | every other binding keeps its multiplicity |
| `CuckooRuns.RunPlaced` | Accelerated_Algorithmic_Trading/hw/tcp_udp_ip/hls/hash_table/hash_table.cpp:132-222 | across any run, duplicates and failures included, a valid entry of table i sits at the i-th hash of its key |
| `CuckooRuns.StepAgreesIff` | Accelerated_Algorithmic_Trading/hw/tcp_udp_ip/hls/hash_table/hash_table.cpp:100-222 | an operation on tables that are a map leaves them one, with the key bound, removed or dropped, if and only if it is not the insertion of a key that a lookup finds |
| `CuckooRuns.RunAgreesIff` | Accelerated_Algorithmic_Trading/hw/tcp_udp_ip/hls/hash_table/hash_table.cpp:100-222 | a run keeps the tables a map at every operation if and only if each insertion is of a key that a lookup just missed |
| `CuckooRuns.RunAgrees` | Accelerated_Algorithmic_Trading/hw/tcp_udp_ip/hls/hash_table/hash_table.cpp:100-222 | over every run that inserts only keys a lookup just missed, lookups agree with a simple map for every key |
| `HashTable.CuckooHashTable.CalculateHashes` | Accelerated_Algorithmic_Trading/hw/tcp_udp_ip/hls/hash_table/hash_table.cpp:84-98 | the nine hashes, bit loop and all |
| `HashTable.CuckooHashTable.Lookup` | Accelerated_Algorithmic_Trading/hw/tcp_udp_ip/hls/hash_table/hash_table.cpp:100-129 | the lookup loop finds the last matching table |
| `HashTable.CuckooHashTable.Trial` | Accelerated_Algorithmic_Trading/hw/tcp_udp_ip/hls/hash_table/hash_table.cpp:154-186 | one pass of the insertion loop, with the write-back of all nine slots, is one step of the eviction chain |
| `HashTable.CuckooHashTable.Insert` | Accelerated_Algorithmic_Trading/hw/tcp_udp_ip/hls/hash_table/hash_table.cpp:131-192 | insertion in place: tables, surviving victim bit, failure counter and the entry left in hand |
| `HashTable.CuckooHashTable.Remove` | Accelerated_Algorithmic_Trading/hw/tcp_udp_ip/hls/hash_table/hash_table.cpp:195-222 | removal in place; success is reported exactly when a lookup would have hit |
| `UramAddress.LocateInRange` | Accelerated_Algorithmic_Trading/hw/tcp_udp_ip/hls/uram_datamover/uram_array.hpp:54-70 | every index has a block, line and bit range inside the memory, for every element width and array size |
| `UramAddress.LocateInjective` | Accelerated_Algorithmic_Trading/hw/tcp_udp_ip/hls/uram_datamover/uram_array.hpp:259-269 | two elements never share a bit |
| `UramAddress.LocateFills` | Accelerated_Algorithmic_Trading/hw/tcp_udp_ip/hls/uram_datamover/uram_array.hpp:250-285 | element i is in slot s of line l of block b exactly so that (4096 b + l) * (72 / width) + s is i, or 4096 b + l for elements wider than a line |
| `UramAddress.BlocksNeeded` | Accelerated_Algorithmic_Trading/hw/tcp_udp_ip/hls/uram_datamover/uram_array.hpp:48-68 | the memory has as many blocks, and lines side by side, as the elements need and no more |
| `UramMemory.UramArray.MemSet` | Accelerated_Algorithmic_Trading/hw/tcp_udp_ip/hls/uram_datamover/uram_array.hpp:210-248 | every element becomes the given value, cache included |
| `UramMemory.UramArray.Write` | Accelerated_Algorithmic_Trading/hw/tcp_udp_ip/hls/uram_datamover/uram_array.hpp:250-285 | exactly one element of the array changes, and the newest cache entry stays coherent |
| `UramMemory.UramArray.Read` | Accelerated_Algorithmic_Trading/hw/tcp_udp_ip/hls/uram_datamover/uram_array.hpp:287-325 | a read returns the element, from the cache or the lines, for every width and cache depth |
| `UramMemory.UramArray.Replay` | Accelerated_Algorithmic_Trading/hw/tcp_udp_ip/hls/uram_datamover/uram_array.hpp:210-325 | any history of `memSet` and `write` on an array leaves the plain array that the history describes |
| `UramMemory.UramArray.ReadBack` | Accelerated_Algorithmic_Trading/hw/tcp_udp_ip/hls/uram_datamover/uram_array.hpp:210-325 | a read after any history of calls on an array returns the value last stored at its index, or what was there before |
| `UramMemory.ReadsLastStored` | Accelerated_Algorithmic_Trading/hw/tcp_udp_ip/hls/uram_datamover/uram_array.hpp:210-325 | element i of the plain array a history describes is the last value stored there |
| `DataMoverSpec.RightShifts` | Accelerated_Algorithmic_Trading/hw/tcp_udp_ip/hls/uram_datamover/uram_datamover.cpp:63-81 | the three-stage right shifter shifts by n octets |
| `DataMoverSpec.LeftShifts` | Accelerated_Algorithmic_Trading/hw/tcp_udp_ip/hls/uram_datamover/uram_datamover.cpp:83-101 | the three-stage left shifter shifts by n octets |
| `DataMoverSpec.RealignedBytes` | Accelerated_Algorithmic_Trading/hw/tcp_udp_ip/hls/uram_datamover/uram_datamover.cpp:222-232 | joining the shifted neighbours selects eight consecutive octets of the two words |
| `DataMoverSpec.ReadCount` | Accelerated_Algorithmic_Trading/hw/tcp_udp_ip/hls/uram_datamover/uram_datamover.cpp:196-210 | the loop fetches one word more than the words to put out, for every offset and length inside a session buffer |
| `DataMoverSpec.ReadIsExact` | Accelerated_Algorithmic_Trading/hw/tcp_udp_ip/hls/uram_datamover/uram_datamover.cpp:196-244 | for every offset and length inside a session buffer the burst has ceil(length/8) words, `last` on the final one only, and its kept octets are exactly those addressed; except exactly for an empty read from an unaligned address |
| `DataMoverSpec.SessionsThatFit` | Accelerated_Algorithmic_Trading/hw/tcp_udp_ip/hls/uram_datamover/uram_datamover.cpp:144-150 | a session, bits 16 to 23 of the address, has its region inside the memory exactly when its number is below 4, and is refused exactly when it is 32 or more |
| `DataMoverWrite.RegionOctet` | Accelerated_Algorithmic_Trading/hw/tcp_udp_ip/hls/uram_datamover/uram_datamover.cpp:144-155 | octet p of a transfer is octet (saddr + p) % 8 of the memory word that bits 16 to 23 of the address, as bits 16 up, and bits 3 to 15 of the address + p name |
| `DataMoverWrite.WriteFrame` | Accelerated_Algorithmic_Trading/hw/tcp_udp_ip/hls/uram_datamover/uram_datamover.cpp:257-327 | no write, aligned or not, changes a word outside the words that the raw address names |
| `DataMoverWrite.OtherSessionUnchanged` | Accelerated_Algorithmic_Trading/hw/tcp_udp_ip/hls/uram_datamover/uram_datamover.cpp:257-327 | reads at any address that differs in bits 16 to 23 see the same octets after any write |
| `DataMoverWrite.WriteAligned` | Accelerated_Algorithmic_Trading/hw/tcp_udp_ip/hls/uram_datamover/uram_datamover.cpp:275-322 | an aligned write replaces exactly the words addressed by the input words |
| `DataMoverWrite.ReadsWhatWasWritten` | Accelerated_Algorithmic_Trading/hw/tcp_udp_ip/hls/uram_datamover/uram_datamover.cpp:216-322 | after an aligned write of any length, any read inside it returns the octets written |
| `DataMoverWrite.DeliversIffNoSpill` | Accelerated_Algorithmic_Trading/hw/tcp_udp_ip/hls/uram_datamover/uram_datamover.cpp:257-327 | a write delivers its octets, for every content, exactly when there are none or it does not reach into a word behind its last input word |
| `DataMoverFrame.KeepsOthersIffBounded` | Accelerated_Algorithmic_Trading/hw/tcp_udp_ip/hls/uram_datamover/uram_datamover.cpp:257-327 | a write of any length changes no octet outside its transfer, for every memory and input, exactly when it ends with a word and starts with one or in the first word of its buffer |
| `DataMoverFrame.WritesExactly` | Accelerated_Algorithmic_Trading/hw/tcp_udp_ip/hls/uram_datamover/uram_datamover.cpp:257-327 | every octet of a transfer after any write: what the input says up to the end of the last input word; behind it the octet eight places before, or zero if there is none |
| `DataMoverFrame.WriteOctet` | Accelerated_Algorithmic_Trading/hw/tcp_udp_ip/hls/uram_datamover/uram_datamover.cpp:257-327 | the whole memory after any write that is not empty, octet for octet, from the raw address: before the start and behind the end the octets of the words the byte addresses name as word indices |
| `DataMoverFrame.HeadInstance` | Accelerated_Algorithmic_Trading/hw/tcp_udp_ip/hls/uram_datamover/uram_datamover.cpp:263-303 | seven octets written at address 9 put the first octet of word 8 in place of octet 8 |
| `DataMoverFrame.TailInstance` | Accelerated_Algorithmic_Trading/hw/tcp_udp_ip/hls/uram_datamover/uram_datamover.cpp:265-322 | three octets written at address 0 put the fourth octet of the input in place of octet 3 |
| `DataMover.UramDataMover.ReadLoop` | Accelerated_Algorithmic_Trading/hw/tcp_udp_ip/hls/uram_datamover/uram_datamover.cpp:216-244 | the read loop over the array puts out the specified burst |
| `DataMover.UramDataMover.AlignedLoop` | Accelerated_Algorithmic_Trading/hw/tcp_udp_ip/hls/uram_datamover/uram_datamover.cpp:275-307 | the write loop over the array stores the specified words |
| `DataMover.UramDataMover.WriteLoop` | Accelerated_Algorithmic_Trading/hw/tcp_udp_ip/hls/uram_datamover/uram_datamover.cpp:257-327 | the WRITE state leaves the specified memory |
| `DataMover.LegalInBits` | Accelerated_Algorithmic_Trading/hw/tcp_udp_ip/hls/uram_datamover/uram_datamover.cpp:144-155 | the commands the model covers, in address bits |
| `DataMover.UramDataMover.Step` | Accelerated_Algorithmic_Trading/hw/tcp_udp_ip/hls/uram_datamover/uram_datamover.cpp:172-338 | one call of the command state machine: read served at once, write accepted, refused sessions, status |
| `Decimal.ShiftDoubles` | Accelerated_Algorithmic_Trading/hw/orderEntry/orderentry.cpp:603-607 | a pass of the digit stages doubles the number and adds the incoming bit, except for a carry out of the top digit |
| `Decimal.NoCarryOut` | Accelerated_Algorithmic_Trading/hw/orderEntry/orderentry.cpp:603-607 | the top digit does not carry out while the number is below half its range |
| `Decimal.BcdDigitiser` | Accelerated_Algorithmic_Trading/hw/orderEntry/orderentry.cpp:619-656 | a digit stage yields a digit of at most 9, its remainder and its carry |
| `Decimal.ConvertBit` | Accelerated_Algorithmic_Trading/hw/orderEntry/orderentry.cpp:595-608 | one pass of the outer loop, through the carry and digit registers |
| `Decimal.BitConverted` | Accelerated_Algorithmic_Trading/hw/orderEntry/orderentry.cpp:592-608 | after i passes the digits in base 10 are the top i bits |
| `Decimal.Uint32ToAscii` | Accelerated_Algorithmic_Trading/hw/orderEntry/orderentry.cpp:572-617 | the result is the ten-character zero-padded decimal form of any 32-bit input |
| `Decimal.ParseRoundTrip` | Accelerated_Algorithmic_Trading/hw/orderEntry/orderentry.cpp:572-617 | reading the ten characters gives the input back, and all are digits |
| `OrderMessage.MessageText` | Accelerated_Algorithmic_Trading/hw/orderEntry/orderentry.hpp:138-174 | the transmitted octets are the FIX message, whatever the fields |
| `OrderMessage.FieldPositions` | Accelerated_Algorithmic_Trading/hw/orderEntry/orderentry.cpp:406-415 | where each field stands in the message: the order identifier twice, the price at an odd offset |
| `OrderMessage.MessageTotal` | Accelerated_Algorithmic_Trading/hw/orderEntry/orderentry.cpp:421-476 | the exact sum of the message: constant octets, order identifier twice, price straddling half-words |
| `OrderMessage.TemplateSumFolded` | Accelerated_Algorithmic_Trading/hw/orderEntry/orderentry.hpp:138-138 | the pre-computed template sum is the folded sum of the constant octets |
| `OrderMessage.SumMessage` | Accelerated_Algorithmic_Trading/hw/orderEntry/orderentry.cpp:421-476 | the sum handed to the TCP engine is the folded RFC 1071 sum of all 256 octets transmitted |
| `OrderEntryTcp.OperationEncode` | Accelerated_Algorithmic_Trading/hw/orderEntry/orderentry.cpp:59-88 | the encoder takes one operation and encodes its three numbers |
| `OrderEntryTcp.OrderEntry.Substitute` | Accelerated_Algorithmic_Trading/hw/orderEntry/orderentry.cpp:406-415 | whatever the previous message left in the template, it becomes this message |
| `OrderEntryTcp.OrderEntry.OperationProcessTcp` | Accelerated_Algorithmic_Trading/hw/orderEntry/orderentry.cpp:389-554 | one call: meta data with the right sum and one packet carrying exactly the message, or nothing when the connection is not ready; capture and freeze, the five counters and the status register |
| `OrderEntryTcp.CountedBalances` | Accelerated_Algorithmic_Trading/hw/orderEntry/orderentry.cpp:389-551 | the counters keep agreeing modulo 2^32: operations taken are orders sent plus drops, and an order is one metadata word and 32 data words |
| `OrderEntryTcp.CountersStand` | Accelerated_Algorithmic_Trading/hw/orderEntry/orderentry.cpp:389-551 | from reset and over any run each of the five counters is the number of operations taken, orders sent, metadata words, data words (32 to an order) or drops, modulo 2^32 |
| `OrderEntryTcp.WordsArePacket` | Accelerated_Algorithmic_Trading/hw/orderEntry/orderentry.cpp:498-521 | the 32 words are one well-formed packet with the message's octets |
| `OrderEntryTcp.RequestReadsBack` | Accelerated_Algorithmic_Trading/hw/orderEntry/orderentry.cpp:59-88 | reading the fields of the transmitted text gives the request's numbers back |
| `LineHandlerCore.LineHandler.LineArbitrator` | Accelerated_Algorithmic_Trading/hw/lineHandler/linehandler.cpp:161-469 | one call: state machine, registers, counters, and what is read from the heads of the four streams |
| `LineHandlerCore.LineHandler.Arbitrate` | Accelerated_Algorithmic_Trading/hw/lineHandler/linehandler.cpp:278-327 | the decision on a sequence number and what it does to the expected numbers, timer and missed counter |
| `ArbitratorRuns.Increasing` | Accelerated_Algorithmic_Trading/hw/lineHandler/linehandler.cpp:277-327 | between resets and below the wrap, forwarded sequence numbers of a split strictly increase, in every run |
| `ArbitratorRuns.Consecutive` | Accelerated_Algorithmic_Trading/hw/lineHandler/linehandler.cpp:277-327 | without gaps they are consecutive: after a forwarded 0 exactly 0, 1, 2, ... |
| `ArbitratorRuns.MissedCountsGaps` | Accelerated_Algorithmic_Trading/hw/lineHandler/linehandler.cpp:307-326 | the missed counter counts exactly the packets forwarded across a gap |
| `ArbitratorRuns.RestartSpacing` | Accelerated_Algorithmic_Trading/hw/lineHandler/linehandler.cpp:212-298 | two forwarded zeros, on whatever splits, are at least the loaded interval apart |
| `ArbitratorRuns.ZeroIsRestart` | Accelerated_Algorithmic_Trading/hw/lineHandler/linehandler.cpp:278-298 | a forwarded packet carries the number 0 exactly when it restarts the sequence |
| `ArbitratorRuns.DroppedIff` | Accelerated_Algorithmic_Trading/hw/lineHandler/linehandler.cpp:278-327 | in every run a packet is dropped if and only if its number is below the one due on its split since the last reset, or the restart timer runs and it would restart the sequence or skip numbers |
| `ArbitratorRuns.DuplicateWasForwarded` | Accelerated_Algorithmic_Trading/hw/lineHandler/linehandler.cpp:298-303 | a packet dropped as a duplicate is one: a number at least as high was forwarded on its split before, and the sequence not reset since |
| `ArbitratorRuns.RoundRobin` | Accelerated_Algorithmic_Trading/hw/lineHandler/linehandler.cpp:231-275 | a port is served twice in a row only when the other had nothing waiting |
| `ArbitratorFeeds.DecidesOnPacket` | Accelerated_Algorithmic_Trading/hw/lineHandler/linehandler.cpp:236-275 | over feeds of packets and split streams: whenever packet k of port p is decided, the verdict is on the k-th identifier of the split stream of p and on the number in the first four octets of the packet, the lowest first |
| `ArbitratorFeeds.PacketVerdict` | Accelerated_Algorithmic_Trading/hw/lineHandler/linehandler.cpp:278-345 | the verdict on every packet fed in, and the word written, from its own identifier and number, the numbers of the packets forwarded before it on that split since the last reset, and the restart timer |
| `ArbitratorFeeds.PacketsIncrease` | Accelerated_Algorithmic_Trading/hw/lineHandler/linehandler.cpp:277-327 | between resets and below the wrap the numbers of the forwarded packets of a split strictly increase |
| `ArbitratorPackets.Conservation` | Accelerated_Algorithmic_Trading/hw/lineHandler/linehandler.cpp:328-456 | in every run each port's received count is its forwarded plus discarded packets plus the one in flight, and the word counter is the words written |
| `ArbitratorPackets.NeverInterleaved` | Accelerated_Algorithmic_Trading/hw/lineHandler/linehandler.cpp:231-456 | the output is the concatenation of whole forwarded packets in service order plus the written part of the current one, as long as calls are quiet |
| `ArbitratorPackets.LongPacketsNeverInterleaved` | Accelerated_Algorithmic_Trading/hw/lineHandler/linehandler.cpp:231-456 | for packets of at least two words that holds in every run |
| `ArbitratorPackets.QuietIffWhole` | Accelerated_Algorithmic_Trading/hw/lineHandler/linehandler.cpp:381-456 | exactly the quiet calls keep packets whole |
| `ArbitratorPackets.AlwaysWholeIffQuiet` | Accelerated_Algorithmic_Trading/hw/lineHandler/linehandler.cpp:231-456 | in every run packets are whole at every point up to a call if and only if every call before it is quiet |
| `ArbitratorPackets.OneWordPacketSwallowsNext` | Accelerated_Algorithmic_Trading/hw/lineHandler/linehandler.cpp:381-401 | a one-word packet followed at once by a duplicate: the duplicate is forwarded unexamined |
| `IgmpTimer.RespTimeIsRfc3376` | Accelerated_Algorithmic_Trading/hw/tcp_udp_ip/hls/igmp/igmp_timer.cpp:68-75 | the decoded response time is that of section 4.1.1 of RFC 3376 although the comparison is off by one |
| `IgmpExact.PlainRespTime` | Accelerated_Algorithmic_Trading/hw/tcp_udp_ip/hls/igmp/igmp_timer.cpp:68-75 | in version 1 and 2 the response time is the code as it is |
| `IgmpExact.VersionIsRegister` | Accelerated_Algorithmic_Trading/hw/tcp_udp_ip/hls/igmp/igmp_timer.cpp:63-65 | the version in force is the last change an idle call has read |
| `IgmpTimer.SoundStep` | Accelerated_Algorithmic_Trading/hw/tcp_udp_ip/hls/igmp/igmp_timer.cpp:62-137 | no call ever gives a group a second timer, and the passes keep what they found |
| `IgmpTimer.TimeNeverRises` | Accelerated_Algorithmic_Trading/hw/tcp_udp_ip/hls/igmp/igmp_timer.cpp:84-123 | an active entry keeps its group and its time never rises |
| `IgmpTimer.PassSettles` | Accelerated_Algorithmic_Trading/hw/tcp_udp_ip/hls/igmp/igmp_timer.cpp:105-136 | a query pass ends with a timer that expires in time, or with every entry serving another group |
| `IgmpRuns.AlwaysSound` | Accelerated_Algorithmic_Trading/hw/tcp_udp_ip/hls/igmp/igmp_timer.cpp:62-137 | at every point of every run no two active entries are for one group, and the passes know what they found |
| `IgmpRuns.RunsAreSound` | Accelerated_Algorithmic_Trading/hw/tcp_udp_ip/hls/igmp/igmp_timer.cpp:42-137 | that holds in every run from reset, so no two running timers are ever for one group |
| `IgmpRuns.ActivationsReportOnce` | Accelerated_Algorithmic_Trading/hw/tcp_udp_ip/hls/igmp/igmp_timer.cpp:84-136 | in every run each activation of an entry is reported exactly once, unless it is still active |
| `IgmpRuns.ReportDue` | Accelerated_Algorithmic_Trading/hw/tcp_udp_ip/hls/igmp/igmp_timer.cpp:84-99 | an active entry is reported by decrement pass time + 1 |
| `IgmpRuns.ReportedInTime` | Accelerated_Algorithmic_Trading/hw/tcp_udp_ip/hls/igmp/igmp_timer.cpp:62-137 | a query that matches an entry or finds a free one leads to a report for its group by decrement pass maxRespTime + 1, whatever else arrives |
| `IgmpExact.QueryPassEffect` | Accelerated_Algorithmic_Trading/hw/tcp_udp_ip/hls/igmp/igmp_timer.cpp:66-136 | what a query pass does to the whole table: the timer of its group lowered, or else one started in the first free entry with the time asked for, or else nothing because the table is full |
| `IgmpExact.ReportedExactly` | Accelerated_Algorithmic_Trading/hw/tcp_udp_ip/hls/igmp/igmp_timer.cpp:62-137 | the exact time: until another query for the group is accepted, its group is reported in decrement pass time + 1 and in no other, where time is what the query asks for if it starts a timer, and the least of that and the time left if it matches one |
| `IgmpRuns.FullTableIgnores` | Accelerated_Algorithmic_Trading/hw/tcp_udp_ip/hls/igmp/igmp_timer.cpp:124-136 | a full table without the group leaves the query unanswered and is not changed |
| `IgmpRuns.QueryPassEnds` | Accelerated_Algorithmic_Trading/hw/tcp_udp_ip/hls/igmp/igmp_timer.cpp:105-136 | a query pass is over after at most 33 calls |
| `IgmpProcess.IgmpTimerTable.ProcessTimer` | Accelerated_Algorithmic_Trading/hw/tcp_udp_ip/hls/igmp/igmp_timer.cpp:42-139 | one call on the table, the pass registers and the streams, keeping groups distinct |
| `TimeSeries.TimeSeriesBuffer.Insert` | Accelerated_Algorithmic_Trading/hw/pricingEngine/pricingengine.hpp:101-107 | the ring holds exactly the last min(8, n) samples of the history |
| `TimeSeries.TimeSeriesBuffer.GetLatest` | Accelerated_Algorithmic_Trading/hw/pricingEngine/pricingengine.hpp:110-116 | the newest sample of the history, 0 if there is none |
| `TimeSeries.RecentIsWindow` | Accelerated_Algorithmic_Trading/hw/pricingEngine/pricingengine.hpp:127-156 | the window is the last min(8, n, window) samples, newest first |
| `TimeSeries.TimeSeriesBuffer.WindowSum` | Accelerated_Algorithmic_Trading/hw/pricingEngine/pricingengine.hpp:127-156 | the accumulation loop sums the last min(window, count) samples and 64 bits never overflow |
| `TimeSeries.TimeSeriesBuffer.MovingAvg` | Accelerated_Algorithmic_Trading/hw/pricingEngine/pricingengine.hpp:127-141 | the average of the last min(window, count) samples, untruncated |
| `TimeSeries.TimeSeriesBuffer.MovingSum` | Accelerated_Algorithmic_Trading/hw/pricingEngine/pricingengine.hpp:144-156 | their sum modulo 2^32 |
| `TimeSeries.TimeSeriesBuffer.MovingMax` | Accelerated_Algorithmic_Trading/hw/pricingEngine/pricingengine.hpp:159-172 | their maximum |
| `TimeSeries.TimeSeriesBuffer.MovingMin` | Accelerated_Algorithmic_Trading/hw/pricingEngine/pricingengine.hpp:175-188 | their minimum |
| `TimeSeries.TimeSeriesBuffer.ExpAvg` | Accelerated_Algorithmic_Trading/hw/pricingEngine/pricingengine.hpp:191-209 | their exponentially weighted average, newest first; a window of none counts as one |
| `TimeSeries.TimeSeriesBuffer.Derivative` | Accelerated_Algorithmic_Trading/hw/pricingEngine/pricingengine.hpp:212-225 | the rate of the last two samples, with differences modulo the field widths |
| `TimeSeries.Extremes` | Accelerated_Algorithmic_Trading/hw/pricingEngine/pricingengine.hpp:159-188 | maximum and minimum are values of the window and bound all of them |
| `TimeSeries.AverageBetween` | Accelerated_Algorithmic_Trading/hw/pricingEngine/pricingengine.hpp:127-188 | minimum <= average <= maximum exactly when the window covers a sample |
| `TimeSeries.SumAppends` | Accelerated_Algorithmic_Trading/hw/pricingEngine/pricingengine.hpp:144-156 | the sum of the window is that of its samples, one by one |
| `TimeSeries.AverageIsQuotient` | Accelerated_Algorithmic_Trading/hw/pricingEngine/pricingengine.hpp:127-141 | the average is the sum divided by the number of samples, rounded down |
| `TimeSeries.StatisticsOfNothing` | Accelerated_Algorithmic_Trading/hw/pricingEngine/pricingengine.hpp:127-188 | what the queries answer for a window without samples |
| `TimeSeries.EmaRecurrence` | Accelerated_Algorithmic_Trading/hw/pricingEngine/pricingengine.hpp:191-209 | one sample is its own average, and an older one comes in with weight alpha against 255 - alpha, over 256 |
| `TimeSeries.EmaBelowMax` | Accelerated_Algorithmic_Trading/hw/pricingEngine/pricingengine.hpp:191-209 | the weighted average never exceeds the maximum, and falls short of it from the second sample on |
| `TimeSeries.EmaOfConstant` | Accelerated_Algorithmic_Trading/hw/pricingEngine/pricingengine.hpp:191-209 | a constant series is averaged to its value exactly when it has one sample or is zero |
| `TimeSeries.RateExact` | Accelerated_Algorithmic_Trading/hw/pricingEngine/pricingengine.hpp:212-225 | with time moving forward the rate is the true one exactly when the value did not fall |
| `TimeSeries.RateOfLast` | Accelerated_Algorithmic_Trading/hw/pricingEngine/pricingengine.hpp:212-225 | the rate in full: a value that fell counts as one that rose through the end of its 32 bits, no time passed counts as no change, and fewer than two samples as none |

## Left out

- The TCP offload engine: its top level only wires sub-engines, and its memory realigner is compiled out.
- `DataMover.UramDataMover.Step`: read and write commands must name a refused session, or a session whose region lies in the memory with a transfer that stays inside its 64 KiB buffer; other commands index outside the array or wrap the last address, and one call serves a whole loop, with its input words waiting.
- `DataMover.UramDataMover.ReadLoop`: runs for a command whose region lies in the memory and whose transfer stays inside its buffer, as `Step` calls it.
- `DataMover.UramDataMover.AlignedLoop`: the same.
- `DataMover.UramDataMover.WriteLoop`: the same.
- `IcmpServer.ServeTraffic`: packets without IP options and of at most 65536 words, the range of the stage's word counter.
- `IcmpCheck.CheckPacket`: packets without IP options and of at most 65536 words, the range of the stage's word counter.
- `CuckooRuns.RunAgrees`: runs that insert a key again before they remove it; `RunAgreesIff` shows that none of them keeps the tables a map.
- `CuckooRuns.ReinsertedKey`: insertions for which all nine slots are occupied; `ReinsertedFound` covers them, and `StepAgreesIff` says exactly when the tables stay a map.
- `extract_ip_address`, `send_arp` and the ARP table: the ARP replies are inputs.
- `detect_ipv4_protocol` and the protocol stages behind it, `fair_pkg_merger`, `igmp_v3_report` and the stream width converters.
- `portFilter`: the split identifier of a packet is an input of the arbitrator, available with the packet's first word.
- The feed handler, the order book, the pricing strategies and `getPrev`.
- `operationPull`, the connection state machines and the notification handlers of the order entry kernel; direction, symbol index and operation code do not enter the message.
- Packing of structures into stream words, register maps, event counters, FIFO depths, initiation intervals and clock ticks.
- The host software, device drivers, emulation scripts and console output.
