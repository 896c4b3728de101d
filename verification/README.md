# Verified model of the multipath video transport

The repository simulates a sender that cuts video frames into segments, spreads them
over several network paths, and a receiver that puts the frames together again. This
project models that logic in Dafny and proves what it is meant to guarantee: the two
schedulers that allot packets by rate and by delay, the per-path receive tables, the
bandwidth sampler and the BBR-like sender built on it, the senders and receivers of both
protocol versions, the wire format with its checksum, the load distribution over split
ratios, and the ideal pacer.

Each file is one module. Objects of the program are classes whose methods change their
fields as the program does; what they compute is tied to functions on values, about
which the theorems are lemmas. `Ordered`, `Sequences`, `Folds`, `Arithmetic`,
`Outbox`, `Bytes` and `Octets` hold what several modules share.

| part | modules |
|---|---|
| weighted round robin and proportional allotment | `Wrr`, `WrrSchedule`, `Schedule` |
| water filling | `Sfl`, `Schedule` |
| per-path receive tables | `PathReceiver` |
| sampler and sender v5 | `Sampler`, `SendLedger`, `BbrControl`, `BbrSender` |
| splitting, sending, reassembly | `Splitting`, `MpSender`, `Reassembly`, `Receiving`, `MpReceiver`, `Fidelity`, `Waiting` |
| paths in front of reassembly, end to end | `Consumption`, `PathLayer`, `Admission`, `Startup`, `Overtaking`, `Numbering`, `EndToEnd` |
| first protocol version | `PathSenderV1`, `RetransV1`, `MpSenderV1`, `MpReceiverV1` |
| wire format | `Streams`, `SegmentCodec`, `Crc`, `Messages`, `Damage` |
| split ratios and pacing | `Shares`, `Balance`, `Edcld`, `EdcldDispatch`, `Pacer` |

`Messages` follows `sim_proto.c`, lines 19 to 142, and its constants `sim_proto.h`; its rows below
cite the calls on the path receiver, which uses these functions in both directions.

Verify with `dafny verify dfyconfig.toml`.

## What the proofs brought to light

- The water-level search (`sflschedule.cc:93-104`) never ends when the step rounds to zero
  and level zero does not hold the frame, which happens for fast slowest paths
  (`Sfl.SearchEndsIff`, `Sfl.FastPathsNeverFill`). It ends for frames of every size exactly when
  some path has a rate and none of the farthest ones sends the first packet in less than a
  millisecond (`Sfl.LevelExistsIff`).
- The weighted round robin is called on an empty list when no share of the packets reaches
  half a packet (`WrrSchedule.NoServerIffNoShareRoundsUp`). The split-ratio scheduler rounds
  down, and its list is empty when no share reaches a whole packet
  (`EdcldDispatch.NoServerIffNoShareServes`): as many packets as paths are always served, fewer
  are not under every distribution (`EdcldDispatch.AllServedIff`).
- The split-ratio update means to make the costliest and the cheapest path cost the same.
  The costs of line 137 carry the interval T, the equation of the comment at lines 186 to 208
  does not: it is the right one for T = 1 ms only (`Balance.LevelsIff`, `Balance.DerivedLevelsIff`).
  The code moreover computes the linear coefficient `lambda-(2-k*s)` where the comment derives
  `lambda*(2-k*s)`. The model follows the code. Under traffic, and with some slack between the two,
  exactly one shift leaves both paths slack and levels their costs, and it is the root that the
  code's formula would give for the right equation (`Balance.LevellingShift`). When the amount
  that is moved instead does so is stated case by case (`Balance.AmountLevelsIff`). Paths with the
  same fixed costs it levels only if they were level before, or if the whole share of the worst is
  half of the slack difference (`Balance.UnlaggedLevelsIff`), and two paths that differ only in their
  shares it makes trade places (`Edcld.TwinsTradePlaces`).
- A path starts before the frame of the first packet that comes in on it, by the index of that packet
  (`pathreceiver.cc:218-221`). Over several paths the packets of a frame that a path carries are fewer than
  the index says, or the first packet may have been overtaken: a packet that the start cuts off is dropped although
  it came in undamaged, and its frame is delivered without it (`Overtaking.OvertakingCostsPiece`). While the
  ids of each path rise with the frames, this is all that can cost a frame that is not late
  (`Admission.OnlyStartsCost`), and it costs nothing when packet 1 is the first to come in on every path
  (`Startup.InOrderStartsCostNothing`).
- How long an incomplete frame is waited for is counted from when it was made only if frames are traced. Otherwise
  its stamps stay zero, and from the second second of the clock on an incomplete frame that heads the cache
  is handed over at once (`Waiting.GivenUpIsOld`, `Waiting.NoneWaitsLonger`).
- Without a registered sink the multipath receiver still drops ready frames but never
  takes their bytes off its count (`Receiving.TakeHeadGood`).
- A segment whose frame has at most 255 pieces loses the high byte of its index; segments
  cut by the sender never do (`SegmentCodec.SegmentComesBackIff`, `Reassembly.GenuineCarried`).
- The checksum notices all damage to four neighbouring bytes inside the body or inside the
  checksum, but not all that straddles the two: flipping the bits 61 d8 in the last two
  bytes of the body and f4 ee in the first two of the checksum is never noticed, and nothing
  else within four bytes goes unnoticed (`Damage.NeighbourDamageIff`, `Damage.BlindExists`).
- With several paths registered, a lost packet is sent to path 0, which is no path of the
  program, exactly when no other path has a round trip below 0xFFFFFFFF. A round trip not yet
  known is 0 in the program, and so preferred to all others (`RetransV1.ScheduleV1.RetransTarget`).
- The stale scan that stops at the head misses packets exactly when a stale one is behind
  one that passes for fresh, which takes an age wrapped past 32 bits (`RetransV1.DropStale`,
  `RetransV1.YoungStaleInFront`, `RetransV1.WrappedHidesStale`).

## Model

| member | source | states |
|---|---|---|
| `Wrr.WeightRoundRobin.AddServer` | ns3/mp-video/model/wrr.cc:3-13 | A new id with a positive weight goes to the end of the list; a known id or a zero weight changes nothing. |
| `Wrr.WeightRoundRobin.GetMaxWeight` | ns3/mp-video/model/wrr.cc:35-44 | The result is the greatest weight in the list. |
| `Wrr.WeightRoundRobin.GetServer` | ns3/mp-video/model/wrr.cc:14-31 | On a non-empty list the unbounded search ends and serves exactly the next server of the cycle still due, which starts over when it is used up. |
| `Wrr.CycleCounts` | ns3/mp-video/model/wrr.cc:14-31 | In one cycle every server is picked exactly as often as its weight says. |
| `Wrr.CycleLength` | ns3/mp-video/model/wrr.cc:14-31 | A cycle has as many picks as the weights add up to. |
| `Wrr.RestIsSuffix` | ns3/mp-video/model/wrr.cc:18-29 | In every state of the two cursors, the picks still due are a tail of the cycle. |
| `Wrr.CycleFromAnywhere` | ns3/mp-video/model/wrr.cc:14-31 | From any state, as many calls as the weights add up to pick each server exactly weight-many times, and the calls after them go on as if they had not been made. |
| `Wrr.PicksNearWeight` | ns3/mp-video/model/wrr.cc:14-31 | Among the first p picks of a fresh walk a server occurs as often as its weight, give or take the distance from p to the weight total. |
| `WrrSchedule.WrrSchedule.CollectRates` | ns3/mp-video/model/wrrschedule.cc:19-32 | Exactly the registered paths with a non-zero rate are collected, and the total is their sum. |
| `WrrSchedule.WrrSchedule.RatesRead` | ns3/mp-video/model/wrrschedule.cc:19-32 | The rates are the smoothed ones if the schedule was made to use them, and otherwise the instant ones, wherever they are not zero. |
| `WrrSchedule.RoundWeights` | ns3/mp-video/model/wrrschedule.cc:35-43 | Every usable path gets its proportional share of the packets, rounded half up. |
| `WrrSchedule.WeightNearShare` | ns3/mp-video/model/wrrschedule.cc:38-39 | A rounded weight is within half a packet of the exact share. |
| `WrrSchedule.WeightsNearPackets` | ns3/mp-video/model/wrrschedule.cc:35-43 | The weights add up to the packet number, give or take half a packet per path. |
| `WrrSchedule.BuildServers` | ns3/mp-video/model/wrrschedule.cc:44-49 | The round robin receives exactly the paths with a positive weight, each with its weight. |
| `WrrSchedule.Dispatch` | ns3/mp-video/model/wrrschedule.cc:53-59 | The packets go, in order, to the first picks of a fresh walk of the cycle. |
| `WrrSchedule.DispatchIsFair` | ns3/mp-video/model/wrrschedule.cc:33-59 | However the picks fell, each path carries a number of packets within (n + 1) / 2 of its exact share. |
| `WrrSchedule.AllotByRate` | ns3/mp-video/model/wrrschedule.cc:33-59 | Every packet is scheduled exactly once, to a usable path, and every path is within (n + 1) / 2 packets of its exact share. |
| `WrrSchedule.NoServerIffNoShareRoundsUp` | ns3/mp-video/model/wrrschedule.cc:44-55 | The server list is empty exactly when no share reaches half a packet - the guard the program does not have. |
| `WrrSchedule.EnoughPackets` | ns3/mp-video/model/wrrschedule.cc:33-49 | With at least half as many packets as usable paths, some share reaches half a packet. |
| `WrrSchedule.FiveEqualPathsGetNothing` | ns3/mp-video/model/wrrschedule.cc:33-55 | Two packets over five equal paths leave the round robin without a server. |
| `WrrSchedule.WrrSchedule.IncomingPackets` | ns3/mp-video/model/wrrschedule.cc:10-65 | Every packet is scheduled once; plain round robin for one path, one packet or no rate, and otherwise shares within (n + 1) / 2 packets. |
| `Schedule.RoundRobin` | ns3/mp-video/model/wrrschedule.cc:66-76 | Packets are scheduled once each in id order, the t-th on path t modulo the number of paths. |
| `Sfl.WaterTable.GetTotalWater` | ns3/mp-video/model/sflschedule.cc:105-120 | On a table sorted by delay every row is filled to the common level, no row gets a negative amount, and the total is returned. |
| `Sfl.WaterTable.AllocateWater` | ns3/mp-video/model/sflschedule.cc:93-104 | If the search ends, it stops at the least multiple of the step whose level holds the frame, with all rows filled to it. |
| `Sfl.SearchEndsIff` | ns3/mp-video/model/sflschedule.cc:93-104 | With a positive rate on the slowest path the search ends exactly when the step is positive or the level of zero steps already holds the frame. |
| `Sfl.LeastStepIsTight` | ns3/mp-video/model/sflschedule.cc:93-120 | The level found overshoots by less than the inflow of one step including rounding, and is at most one step above where the slowest path alone holds the frame. |
| `Sfl.StepPositiveIff` | ns3/mp-video/model/sflschedule.cc:36-45 | The step is positive exactly when the slowest path needs at least a millisecond for the first packet. |
| `Sfl.StepIsFirstPacket` | ns3/mp-video/model/sflschedule.cc:41-42 | In one step the slowest path sends no more than the first packet, and in a millisecond longer it sends more. |
| `Sfl.WaterIsDelivered` | ns3/mp-video/model/sflschedule.cc:109-117 | The water of a row is what its path delivers between its own delay and the level, but for a fraction of a byte. |
| `Sfl.FastPathsNeverFill` | ns3/mp-video/model/sflschedule.cc:34-46 | For two equally distant 10 Mbit/s paths and packets of 1030 bytes the search never ends. |
| `Sfl.LevelExistsIff` | ns3/mp-video/model/sflschedule.cc:34-46 | The search ends for frames of every size, however sorting leaves equal delays, exactly when some path has a rate and none of the farthest paths is through with the first packet in less than a millisecond. |
| `Sfl.Pour` | ns3/mp-video/model/sflschedule.cc:53-77 | Packets go out in id order along the table; a row is left only once it is drained. |
| `Sfl.RowsCarryAll` | ns3/mp-video/model/sflschedule.cc:53-77 | The loads of the rows add up to the lengths of the packets poured. |
| `Sfl.PouredWithinWater` | ns3/mp-video/model/sflschedule.cc:53-77 | A row that is not the last carries less than its water plus the last packet it was given, the one that drained it, and rows before one that is used carry at least their water. |
| `Sfl.LastWithinWater` | ns3/mp-video/model/sflschedule.cc:53-77 | If the total water covers the packets, the last row carries no more than its own water. |
| `Sfl.WaterIsTime` | ns3/mp-video/model/sflschedule.cc:105-120 | A load within a path's water, plus a slack, leaves that path by the common level, plus the slack's time. |
| `Sfl.SflSchedule.DelayTable` | ns3/mp-video/model/sflschedule.cc:16-33 | The table holds exactly the registered paths with a positive rate, once each, sorted by half their round trip. |
| `Sfl.FillAndPour` | ns3/mp-video/model/sflschedule.cc:33-77 | From a sorted table, the step is what the slowest path needs for the first packet to the millisecond, the level is the least multiple of it that holds the frame, and the greedy loop keeps within it on every path. |
| `Sfl.PouringIsBounded` | ns3/mp-video/model/sflschedule.cc:46-77 | The level computed by the search bounds what the greedy loop puts on every path: paths are used in delay order, earlier ones get at least their water, each but the last less than its water plus its last packet, and the last at most its water. |
| `Sfl.SflSchedule.IncomingPackets` | ns3/mp-video/model/sflschedule.cc:10-78 | Every packet is scheduled exactly once; outside the round-robin cases the last path of the sorted table sends at most the first packet in a step and more in a millisecond longer, the level is the least multiple of the step that holds the frame, and the loads are bounded by that level. |
| `PathReceiver.PathReceiver.OnReceiveSegment` | ns3/mp-video/model/pathreceiver.cc:209-237 | For every segment the tables stay the declarative function of the history; the segment is passed on exactly when it is new or repeats the base sequence, and an ack is made when one is due. |
| `PathReceiver.PathReceiver.UpdataLoss` | ns3/mp-video/model/pathreceiver.cc:366-376 | The arrived sequence leaves the loss table, and those skipped above the maximum join it. |
| `PathReceiver.PathReceiver.UpdataRecvTable` | ns3/mp-video/model/pathreceiver.cc:377-402 | Afterwards the base is the greatest sequence up to which everything was seen and the table is what was seen above it. |
| `PathReceiver.PathReceiver.RecvTableRemoveUntil` | ns3/mp-video/model/pathreceiver.cc:403-427 | Consuming up to a sequence restores base and table as functions of what was seen, and the base never falls. |
| `PathReceiver.PathReceiver.LossTableRemoveUntil` | ns3/mp-video/model/pathreceiver.cc:356-365 | Exactly the losses up to the given sequence are dropped. |
| `PathReceiver.PathReceiver.Consume` | ns3/mp-video/model/pathreceiver.cc:290-293 | Consuming adds everything up to the sequence to what was seen and keeps all tables exact. |
| `PathReceiver.PathReceiver.VideoRealAck` | ns3/mp-video/model/pathreceiver.cc:246-278 | An ack is sent exactly when its interval has passed; it names the base, the sequence acked and the offsets of at most 80 losses. |
| `PathReceiver.BaseUnique` | ns3/mp-video/model/pathreceiver.cc:377-402 | The history determines the base. |
| `PathReceiver.BaseMonotone` | ns3/mp-video/model/pathreceiver.cc:377-427 | A larger history has no smaller base. |
| `PathReceiver.RunSeesExactly` | ns3/mp-video/model/pathreceiver.cc:209-224 | After any run of arrivals and consumes the history holds exactly what was there, what arrived and what lies at or below a consumed sequence. |
| `PathReceiver.RunFromNothing` | ns3/mp-video/model/pathreceiver.cc:209-224 | A new path, after any run, has seen exactly the ids up to its start - before the frame of the first id above 0 that came - and what arrived or lies at or below a consumed sequence. |
| `PathReceiver.OrderDoesNotMatter` | ns3/mp-video/model/pathreceiver.cc:209-224 | Two runs with the same events, in any order and with any repetition, end in the same history, hence the same tables. |
| `PathReceiver.RunRaisesBase` | ns3/mp-video/model/pathreceiver.cc:377-427 | Over every run the base never decreases. |
| `PathReceiver.FirstArrivalMisses` | ns3/mp-video/model/pathreceiver.cc:218-222 | The first arrival starts the tables index + 1 ids before itself, so that exactly the index ids right before it are missing: the earlier pieces of its frame, if the frame has consecutive ids on this path. |
| `PathReceiver.EntryDecodesIff` | ns3/mp-video/model/pathreceiver.cc:261-273 | An offset in an ack names its sequence exactly when the distance to the base fits 16 bits. |
| `PathReceiver.AckNamesHighestMissing` | ns3/mp-video/model/pathreceiver.cc:253-273 | With all losses within 16 bits of the base, an ack names losses only, as many as fit, and the highest ones. |
| `Sampler.MySampler.OnPacketSent` | ns3/mp-video/model/congestion/sampler.cc:11-26 | The totals advance by the packet and a snapshot of them is kept, unless the number is on the books already; an idle connection restarts the reference point. |
| `Sampler.MySampler.OnPacketAcknowledged` | ns3/mp-video/model/congestion/sampler.cc:27-38 | A known packet leaves the books as acknowledged and yields the sample for its window, an unknown one yields zero; no subtraction underflows. |
| `Sampler.MySampler.OnPacketAcknowledgedInner` | ns3/mp-video/model/congestion/sampler.cc:56-110 | A sample is taken only on a round update with an ack slope of positive length, and is then the largest rate under both slopes. |
| `Sampler.MySampler.OnPacketLost` | ns3/mp-video/model/congestion/sampler.cc:39-41 | A packet given up leaves the books and counts as lost. |
| `Sampler.SlowerSlope` | ns3/mp-video/model/congestion/sampler.cc:77-108 | The smaller of the two rates is the largest rate bounded by the send slope, where used, and the ack slope. |
| `Sampler.FromBytesIsLargest` | ns3/mp-video/model/congestion/sampler.cc:79-106 | The rate of a slope is the largest whole rate that does not exceed it. |
| `Sampler.SendBalanced` | ns3/mp-video/model/congestion/sampler.cc:11-26 | After a send, bytes sent still equal bytes acked, lost or without an entry, and outstanding together. |
| `Sampler.AckBalanced` | ns3/mp-video/model/congestion/sampler.cc:27-38 | So they do after an ack. |
| `Sampler.LoseBalanced` | ns3/mp-video/model/congestion/sampler.cc:39-55 | And after a loss, which moves the packet's bytes from outstanding to lost. |
| `SendLedger.AckedFitsInSent` | ns3/mp-video/model/congestion/sampler.h:70-81 | For every packet on the books, bytes acked since its snapshot, itself included, fit into the bytes sent since the snapshot's reference, plus the restart packet if that is the reference. |
| `SendLedger.SendKeepsBooks` | ns3/mp-video/model/congestion/sampler.cc:11-26 | Sending puts one more packet on the books without disturbing the others: each snapshot's reference times are when the reference packet was sent and acknowledged, or sent if it restarted the connection, and its totals are the bytes sent and acknowledged by then. |
| `SendLedger.RecordedSample` | ns3/mp-video/model/congestion/sampler.cc:56-110 | The sample of a packet, over the sender's history instead of the sampler's fields: on a round update the largest rate that sends no more than was acknowledged since the reference packet's ack, nor, if the packet left later than the reference packet, more than was sent since that left. |
| `SendLedger.AckKeepsBooks` | ns3/mp-video/model/congestion/bbr_sender_v5.cc:98-115 | An ack removes the packets up to it, adds the acked one to the bytes acknowledged, and leaves the record of every remaining packet true. |
| `SendLedger.RoundsTakeTime` | ns3/mp-video/model/congestion/bbr_sender_v5.cc:332-339 | Over every run, any stretch of rounds lasts at least the sum of the round trips measured by the packets that started them. |
| `BbrSender.MyBbrSenderV5.OnPacketSent` | ns3/mp-video/model/congestion/bbr_sender_v5.cc:86-97 | A packet number that does not rise is ignored; otherwise the packet enters the map, the sampler and the bytes in flight alike. |
| `BbrSender.MyBbrSenderV5.OnAck` | ns3/mp-video/model/congestion/bbr_sender_v5.cc:98-147 | For acks of sent packets under a monotone clock all books stay in agreement; an old ack changes nothing; a new one settles its packet, samples it as the history of sends and acks has it, measures the time since it was sent, and then, once a round has passed, takes the one way through the mode machine that the state allows. |
| `BbrSender.MyBbrSenderV5.LoseBetween` | ns3/mp-video/model/congestion/bbr_sender_v5.cc:103-108 | Exactly the packets strictly between the last ack and this one are given up in the sampler. |
| `BbrSender.MyBbrSenderV5.RemoveUpTo` | ns3/mp-video/model/congestion/bbr_sender_v5.cc:388-397 | Exactly the packets up to the acked one leave the map, and their bytes leave the bytes in flight. |
| `BbrSender.MyBbrSenderV5.UpdateRtt` | ns3/mp-video/model/congestion/bbr_sender_v5.cc:347-386 | Minimum, back-off minimum, baseline and smoothed round trip take exactly their new values. |
| `BbrSender.MyBbrSenderV5.UpdateRttAndInflight` | ns3/mp-video/model/congestion/bbr_sender_v5.cc:344-398 | The round trip measured is the time since the acked packet, if still open, was sent; the packets in flight are afterwards those above the acked number, and their sizes add up to the bytes in flight. |
| `BbrSender.MyBbrSenderV5.UpdateRoundTripCounter` | ns3/mp-video/model/congestion/bbr_sender_v5.cc:332-339 | A round starts exactly when the ack passes the end of the last round, and it ends at the last packet sent. |
| `BbrSender.MyBbrSenderV5.CheckIfFullBandwidthReached` | ns3/mp-video/model/congestion/bbr_sender_v5.cc:152-164 | Growth by a quarter resets the count of rounds without growth; the third such round marks the bandwidth as full. |
| `BbrSender.MyBbrSenderV5.CheckIfCongestion` | ns3/mp-video/model/congestion/bbr_sender_v5.cc:165-187 | Congestion is signalled exactly in INCREASE with a known baseline exceeded by more than a fifth. |
| `BbrSender.MyBbrSenderV5.EnterIncreaseMode` | ns3/mp-video/model/congestion/bbr_sender_v5.cc:199-211 | The cycle starts at a phase other than the 0.9 one, with the gain of that phase. |
| `BbrSender.MyBbrSenderV5.MaybeEnterOrExitDecrease` | ns3/mp-video/model/congestion/bbr_sender_v5.cc:212-270 | A back-off is entered exactly on an expired minimum or congestion and left, possibly at once, exactly when drained or probed for long enough. |
| `BbrSender.MyBbrSenderV5.MaybeExitDecrease` | ns3/mp-video/model/congestion/bbr_sender_v5.cc:247-269 | Leaving a back-off restores the minimum round trip from what the probe measured, or from before it. |
| `BbrSender.MyBbrSenderV5.MaybeExitStartupOrDrain` | ns3/mp-video/model/congestion/bbr_sender_v5.cc:188-198 | START ends at full bandwidth, DRAIN ends when the bytes in flight fit the target window, and no other mode changes. |
| `BbrSender.MyBbrSenderV5.UpdateGainCyclePhase` | ns3/mp-video/model/congestion/bbr_sender_v5.cc:296-303 | The phase advances by one, modulo eight, exactly after more than the minimum round trip. |
| `BbrSender.MyBbrSenderV5.UpdateMode` | ns3/mp-video/model/congestion/bbr_sender_v5.cc:121-145 | The control state after an ack, field by field: back-off entered or left, growth counted, START and DRAIN left, phase advanced. |
| `BbrControl.ModesEnd` | ns3/mp-video/model/congestion/bbr_sender_v5.cc:121-145 | The mode after an ack: a back-off in force or just begun ends in INCREASE or goes on; START lasts until the bandwidth is full, which takes a third flat round; then, or in DRAIN, the bytes in flight decide; INCREASE stays. |
| `BbrControl.ModesStep` | ns3/mp-video/model/congestion/bbr_sender_v5.cc:121-145 | However an ack goes through the mode machine, START is not entered, DRAIN only from START, and phase 1 only from phase 0. |
| `BbrControl.ModesSteady` | ns3/mp-video/model/congestion/bbr_sender_v5.cc:121-145 | The mode machine keeps the gain that of mode and phase, the phase within the cycle, and the smoothed round trip at or above its baseline. |
| `BbrControl.MeasuredSteady` | ns3/mp-video/model/congestion/bbr_sender_v5.cc:347-386 | So does a measured round trip: smoothed, it never falls below its baseline in whole milliseconds. |
| `BbrControl.SteadyGain` | ns3/mp-video/model/congestion/bbr_sender_v5.cc:188-238 | START sends at twice the rate, DRAIN at half, a back-off at three quarters; the first phase of INCREASE at 1.11, the second at 0.9, the others at the rate. |
| `BbrControl.SmoothedIsMean` | ns3/mp-video/model/congestion/bbr_sender_v5.cc:376-383 | The smoothed round trip is nineteen parts of the sample and one of what it was, rounded down to whole milliseconds. |
| `BbrControl.WindowIsProduct` | ns3/mp-video/model/congestion/bbr_sender_v5.cc:271-284 | The target window is what the bandwidth brings in a minimum round trip, in whole bytes, and ten packets if that is nothing. |
| `BbrControl.StartOnlyAtTheStart` | ns3/mp-video/model/congestion/bbr_sender_v5.cc:121-145 | Over every run START is never entered again. |
| `BbrControl.DrainOnlyAfterStart` | ns3/mp-video/model/congestion/bbr_sender_v5.cc:121-145 | Over every run only START and DRAIN precede DRAIN. |
| `BbrControl.LowPhaseFollowsHigh` | ns3/mp-video/model/congestion/bbr_sender_v5.cc:199-211 | Over every run the 0.9 phase is preceded directly by the 1.11 phase of the same stay in INCREASE. |
| `BbrSender.SendAgrees` | ns3/mp-video/model/congestion/bbr_sender_v5.cc:86-97 | A send keeps ledger, sender and sampler in agreement. |
| `BbrSender.AckAgrees` | ns3/mp-video/model/congestion/bbr_sender_v5.cc:98-115 | An ack keeps them in agreement, and the acked packet's window bound holds. |
| `BbrSender.RoundIsCausal` | ns3/mp-video/model/congestion/bbr_sender_v5.cc:332-339 | The packet whose ack starts a round was sent after the ack that started the round before. |
| `BbrSender.BooksBalance` | ns3/mp-video/model/congestion/bbr_sender_v5.cc:86-115 | Sender and sampler hold the same packets; both add up to the bytes in flight; bytes sent equal bytes acked, lost and in flight. |
| `Splitting.FrameSplit` | ns3/mp-video/model/mpcommon.cc:3-24 | The front of the array holds the lengths of full pieces followed by what is left, one piece for an empty frame. |
| `Splitting.JoinCut` | ns3/mp-video/model/mpsender.cc:113-141 | The pieces of a frame, joined in order, are the frame. |
| `Splitting.SplitCount` | ns3/mp-video/model/mpcommon.cc:7-23 | There are as many pieces as the rounded-up quotient, and the array has room for them. |
| `Splitting.PieceOffsets` | ns3/mp-video/model/mpsender.cc:123-141 | The piece copied from the running offset with the i-th length is the i-th piece. |
| `MpSender.MultipathSender.SendVideo` | ns3/mp-video/model/mpsender.cc:102-148 | A frame becomes pending segments under consecutive schedule ids, each carrying its piece, and the scheduler is told the lengths of everything pending. |
| `MpSender.MultipathSender.SchedulePendingBuf` | ns3/mp-video/model/mpsender.cc:76-98 | The scheduler is told each pending packet's length with its header, and a size that is their sum. |
| `MpSender.MultipathSender.PacketSchedule` | ns3/mp-video/model/mpsender.cc:166-185 | The packet leaves the pending buffer and goes to the path, if that is usable; an unknown id changes nothing. |
| `MpSender.MultipathSender.RunSchedule` | ns3/mp-video/model/mpsender.cc:166-185 | A schedule that names each pending packet once on usable paths empties the buffer and hands each segment over exactly once, in order. |
| `MpSender.PieceGenuine` | ns3/mp-video/model/mpsender.cc:118-141 | Every segment sent is a genuine piece of its frame. |
| `MpSender.PieceStamped` | ns3/mp-video/model/mpsender.cc:104-141 | Each segment queued has its place, its piece and the kinds of its frame, and a timestamp that is, in 32 bits, the time from the first frame to its own. |
| `EndToEnd.PieceAccepted` | ns3/mp-video/model/mpsender.cc:118-141 | Every piece queued, whatever packet id, time and number its path writes into it, is accepted from its message as a genuine segment with that id. |
| `EndToEnd.SentIsDelivered` | ns3/mp-video/model/pathreceiver.cc:520-531 | Datagrams of the sender, lost, repeated, reordered or damaged so that the checksum tells, opened by the paths they name: each delivery is made by one event and is complete exactly if its paths had taken every piece by then; a complete frame, and one of the type that must be whole, is byte for byte the frame sent. |
| `EndToEnd.SentOverPaths` | ns3/mp-video/model/pathreceiver.cc:209-236 | Datagrams of segments handed over frame by frame and numbered by their paths: a frame is delivered complete, and as it was sent, exactly if every piece came in undamaged before and no start of a path cut it off; where paths start in order, exactly if every piece came in undamaged before. |
| `Numbering.QueueKeepsOrder` | ns3/mp-video/model/mpsender.cc:118-147 | Queueing the pieces of a frame under the next schedule ids keeps what was handed over and what is pending in the order of the frames. |
| `Numbering.ScheduleKeepsOrder` | ns3/mp-video/model/mpsender.cc:166-185 | A full schedule hands the pending pieces over in the order of the frames. |
| `Numbering.NumbersRise` | ns3/mp-video/model/pathsender.cc:342-343 | The numbers that a path gives from 1 tell its segments apart and rise with the frames. |
| `PathLayer.TakenIsDelivered` | ns3/mp-video/model/pathreceiver.cc:209-236 | Over every run of arrivals through the tables of the paths: a frame is delivered complete exactly if its paths had taken every piece by then, and then, or if it must be whole, is byte for byte the frame sent. |
| `Admission.SeenIff` | ns3/mp-video/model/pathreceiver.cc:218-224 | Over every run the tables of a path count an id as seen exactly if it is at most the start of the path, was passed on, or is at most a consumed one. |
| `Admission.RefusedIff` | ns3/mp-video/model/pathreceiver.cc:209-217 | A segment whose id was not passed on before is refused exactly if the start of the path cuts it off (the id is below the start, or is the start and the next id has been seen) or a later id of the path was consumed; one whose id was passed on before is refused unless it is the base. Refusing leaves the tables as they were. |
| `Admission.OnlyStartsCost` | ns3/mp-video/model/pathreceiver.cc:218-221 | When the ids of every path rise with the frames, a frame is delivered complete, and as it was sent, exactly if every piece came in before and was not cut off by the start of its path. |
| `Startup.InOrderStartsCostNothing` | ns3/mp-video/model/pathreceiver.cc:218-221 | When moreover the first id to come in on each path is at most one above its index, as id 1 is, a frame is delivered complete, and as it was sent, exactly if every piece came in before. |
| `Overtaking.OvertakingCostsPiece` | ns3/mp-video/model/pathreceiver.cc:214-221 | On a path where the first segment of frame 2 comes before that of frame 1, frame 1 is handed over with one of two pieces although both had come in. |
| `Overtaking.OvertakenLosesPiece` | ns3/mp-video/model/pathreceiver.cc:214-221 | The same for datagrams of a sender that hands two frames of two pieces over to two paths in order. |
| `Reassembly.CompleteIsOriginal` | ns3/mp-video/model/mpreceiver.cc:84-104 | The payload of a complete frame of genuine pieces is, byte for byte, the frame that was sent. |
| `Reassembly.GenuineCarried` | ns3/mp-video/model/sim_proto.inl:83-177 | A genuine segment is still genuine after being encoded and decoded. |
| `Receiving.TakeHeadGood` | ns3/mp-video/model/mpreceiver.cc:72-154 | Delivering the head keeps order and both counts; the byte count goes wrong exactly when no sink takes the frame. |
| `Receiving.StoreGood` | ns3/mp-video/model/mpreceiver.cc:266-322 | Storing a segment keeps slots, counts and the sums over the cache exact. |
| `Receiving.DrainGood` | ns3/mp-video/model/mpreceiver.cc:179-219 | The delivery loop keeps the books and leaves no deliverable frame at the head. |
| `Receiving.TakeGood` | ns3/mp-video/model/mpreceiver.cc:251-323 | Every arrival keeps the books, and a stored one leaves no deliverable frame at the head. |
| `Fidelity.RunGood` | ns3/mp-video/model/mpreceiver.cc:72-323 | Over every run of genuine traffic: delivered ids strictly increase, cached ids exceed the late mark, bytes equal the cached sizes with headers, and free and cached buffers equal all made. |
| `Fidelity.RunFaithful` | ns3/mp-video/model/mpreceiver.cc:251-323 | Over every run with a sink a cached frame is exactly the first arrivals for its slots, and nothing arrived for frames neither cached nor behind the late mark. |
| `Fidelity.EventDelivers` | ns3/mp-video/model/mpreceiver.cc:179-219 | Every single event only adds to what was handed over, and what it adds of a frame is exactly what had arrived of it then, the event itself included. |
| `Fidelity.RunDelivers` | ns3/mp-video/model/mpreceiver.cc:72-124 | Over every run each delivery was made by one event, and is what had arrived of its frame up to that event. |
| `Fidelity.FrameFidelity` | ns3/mp-video/model/mpreceiver.cc:72-124 | Whatever the order, duplication and paths: a frame all of whose pieces arrived before it was delivered, or of the type that must be whole, is byte for byte the frame sent; it counts as complete exactly when all had arrived. |
| `Fidelity.RunPrompt` | ns3/mp-video/model/mpreceiver.cc:179-219 | Over every run a complete frame is only ever kept back behind one that is not complete. |
| `Waiting.GivenUpIsOld` | ns3/mp-video/model/mpreceiver.cc:193-202 | Over every run, a frame handed over with pieces missing need not be whole and was more than a second old at the event that handed it over, by the stamps of its first packet; without a frame trace, when the clock reads more than a second in 32 bits. |
| `Waiting.NoneWaitsLonger` | ns3/mp-video/model/mpreceiver.cc:179-219 | Over every run, after a heartbeat or a stored packet, the frame at the head of the cache lacks pieces, and must be whole or is at most a second old. |
| `Waiting.RunTimed` | ns3/mp-video/model/mpreceiver.cc:294-301 | Over every run a cached frame carries the arrival time, first send time and timestamp of the packet that stamped it. |
| `Waiting.FirstPacketStamps` | ns3/mp-video/model/mpreceiver.cc:294-301 | The stamp of a frame is that of its first packet, unless that came in at time zero, which reads as no stamp. |
| `Waiting.AgeIsSinceMade` | ns3/mp-video/model/mpreceiver.cc:194-194 | With the stamps its sender made, the age of a frame is the time since it was made, in 32 bits. |
| `Fidelity.RunConsumes` | ns3/mp-video/model/mpreceiver.cc:125-142 | Over every run a path is only told to consume packets that came in on it, for frames at most the late mark. |
| `Fidelity.EventAbove` | ns3/mp-video/model/mpreceiver.cc:72-124 | No event lowers the late mark, and none delivers a frame that was not above it. |
| `Consumption.PathStaysSound` | ns3/mp-video/model/mpreceiver.cc:125-142 | Over every run, all that the frame layer tells a path to consume is at most the highest id noted there, as the path's tables require. |
| `MpReceiver.MultipathReceiver.RegisterDataSink` | ns3/mp-video/model/mpreceiver.cc:43-50 | A sink is present afterwards, and the answer says whether it was the first. |
| `MpReceiver.MultipathReceiver.DeliverFrame` | ns3/mp-video/model/mpreceiver.cc:72-124 | With a sink the frame's payload is handed over in index order, the byte count drops by its packets and the late mark rises; without one nothing happens. |
| `MpReceiver.MultipathReceiver.PacketConsumed` | ns3/mp-video/model/mpreceiver.cc:125-142 | The paths are told to consume exactly the frame's packets, in index order. |
| `MpReceiver.MultipathReceiver.BuffCollection` | ns3/mp-video/model/mpreceiver.cc:143-154 | As many buffers become free as the frame held packets. |
| `MpReceiver.MultipathReceiver.CheckDeliverFrame` | ns3/mp-video/model/mpreceiver.cc:179-219 | The loop takes exactly the ready frames at the head, in id order; when frames are ready is in `Waiting.GivenUpIsOld` and `Waiting.NoneWaitsLonger`. |
| `MpReceiver.MultipathReceiver.StoreSegment` | ns3/mp-video/model/mpreceiver.cc:266-321 | A wanted segment fills its slot in a new or cached frame, in a recycled buffer if there is one. |
| `MpReceiver.MultipathReceiver.DeliverToCache` | ns3/mp-video/model/mpreceiver.cc:251-323 | Late and repeated segments change nothing; any other is stored and what is then ready is delivered. |
| `MpReceiver.MultipathReceiver.Process` | ns3/mp-video/model/mpreceiver.cc:334-339 | The heartbeat delivers what is ready by now, unless stopped. |
| `PathSenderV1.PathSender.OnVideoPacket` | ns3/mp-video/model/path_sender_v1.cc:61-83 | The packet joins the end of one queue, and pending bytes stay the payload sum of both queues. |
| `PathSenderV1.PathSender.SendStreamPacket` | ns3/mp-video/model/path_sender_v1.cc:235-291 | The head of one queue leaves under the next sequence number, noted in both maps, and pending bytes stay exact. |
| `PathSenderV1.PathSender.SendPaddingPacket` | ns3/mp-video/model/path_sender_v1.cc:210-234 | Padding takes the next sequence number and is noted with packet id 0. |
| `PathSenderV1.PathSender.ProcessVideoPacket` | ns3/mp-video/model/path_sender_v1.cc:142-157 | At most one packet leaves, retransmissions before new packets, padding only when both queues are empty; none is lost or reordered. |
| `PathSenderV1.PathSender.UpdateRtt` | ns3/mp-video/model/path_sender_v1.cc:329-346 | The round trip is that of the acked sequence, if known, and exactly the entries up to it are dropped. |
| `PathSenderV1.PathSender.DetectLoss` | ns3/mp-video/model/path_sender_v1.cc:355-376 | Every sequence that a raising ack skips is reported once, with the packet behind it unless it was padding; a late ack reports nothing. |
| `PathSenderV1.PathSender.OnAck` | ns3/mp-video/model/path_sender_v1.cc:84-89 | For every ack, also one ahead of what was sent, every sequence up to the highest acked is afterwards exactly one of raised by an ack or reported lost, each once over the run; and as long as only sent sequences are acked, both maps hold exactly the sequences strictly between the highest acked one and the next to be sent. |
| `PathSenderV1.PathSender.RemoveMapLe` | ns3/mp-video/model/path_sender_v1.cc:377-406 | Dropping from the front leaves exactly the entries above the given key. |
| `PathSenderV1.RaiseClassifies` | ns3/mp-video/model/path_sender_v1.cc:355-374 | Raising the highest acked sequence keeps the classification total, exclusive and without repetition. |
| `PathSenderV1.PacketsOfIff` | ns3/mp-video/model/path_sender_v1.cc:363-371 | The packets reported are exactly those the lost sequences carried, padding aside. |
| `RetransV1.ScheduleV1.RegisterPath` | ns3/mp-video/model/interface_v1.cc:34-41 | A path is listed once. |
| `RetransV1.ScheduleV1.UnregisterPath` | ns3/mp-video/model/interface_v1.cc:42-53 | The path is gone and all others stay. |
| `RetransV1.ScheduleV1.RetransTarget` | ns3/mp-video/model/interface_v1.cc:5-27 | With one path the origin is chosen; otherwise the first other path of least round trip below 0xFFFFFFFF - an unknown round trip counts as 0 - and path 0 exactly when there is none. |
| `RetransV1.BestIsNearest` | ns3/mp-video/model/interface_v1.cc:5-27 | What the search finds is a path other than the origin, below 0xFFFFFFFF, with no other path nearer; or it is path 0 and all other paths are out of reach. |
| `RetransV1.DropStale` | ns3/mp-video/model/mp_sender_v1.cc:134-146 | Looking only at the head removes stale packets only, leaves a fresh head, and removes all of them exactly when no stale packet is behind one that passes for fresh. |
| `RetransV1.YoungStaleInFront` | ns3/mp-video/model/mp_sender_v1.cc:134-146 | While ages fit 32 bits, and are monotone in id, no stale packet is behind one that passes for fresh. |
| `RetransV1.WrappedHidesStale` | ns3/mp-video/model/mp_sender_v1.cc:134-146 | A buffer of two packets of which the older, its age wrapped past 32 bits, passes for fresh and hides the stale one behind it. |
| `RetransV1.HeadVouchesIff` | ns3/mp-video/model/video_proto.cc:28-35 | A packet that is not stale vouches for all younger ones exactly when its true age has not wrapped past 32 bits. |
| `RetransV1.LengthsAddUp` | ns3/mp-video/model/mp_sender_v1.cc:97-115 | The lengths told to the scheduler add up to the frame size told with them. |
| `RetransV1.IndexedPacketsJoin` | ns3/mp-video/model/mp_sender_v1.cc:93-112 | Put at their indices, as many packets of a frame as each says there are join to the frame, byte for byte. |
| `MpSenderV1.Sender.OnVideoFrame` | ns3/mp-video/model/mp_sender_v1.cc:78-116 | A frame becomes pending packets under consecutive ids, and the scheduler is told their data sizes and their sum. |
| `MpSenderV1.Sender.PacketSchedule` | ns3/mp-video/model/mp_sender_v1.cc:147-162 | While running, the packet leaves the pending buffer; a usable path is given it and it is kept as sent. |
| `MpSenderV1.Sender.RunSchedule` | ns3/mp-video/model/mp_sender_v1.cc:147-162 | A schedule that names each pending packet once on usable paths empties the pending buffer, and each packet enters the sent buffer and one path exactly once. |
| `MpSenderV1.Sender.PacketRetrans` | ns3/mp-video/model/mp_sender_v1.cc:174-187 | One retransmission is queued exactly when the packet is still kept and the path usable. |
| `MpSenderV1.Sender.OnPacketsLost` | ns3/mp-video/model/mp_sender_v1.cc:131-133 | For every lost sequence the packet it carried, if still kept, is queued again, in order, on one path, which is usable if another path is eligible; with one path it is the origin, and with several and none eligible it is path 0, and nothing is queued if the path is not usable. |
| `MpSenderV1.Sender.AckOnPath` | ns3/mp-video/model/path_sender_v1.cc:84-89 | One ack leads, for every sequence it reveals as lost, to one retransmission of the packet behind it, if that is no padding, still kept, and the path chosen usable. |
| `MpSenderV1.Sender.CheckStalePacket` | ns3/mp-video/model/mp_sender_v1.cc:134-146 | The head-only scan keeps the buffers consistent and removes stale packets only - all of them exactly when none is behind one that passes for fresh, as while ages fit 32 bits. |
| `MpSenderV1.FrameBuffersOk` | ns3/mp-video/model/mp_sender_v1.cc:97-112 | New packets have higher ids and are no older than all packets before, so age stays monotone in id. |
| `MpReceiverV1.Receiver.OnVideoPacket` | ns3/mp-video/model/mp_receiver_v1.cc:20-50 | Any packet in time joins its frame, whatever total it gives; frames stay exact images of what arrived, with the total of their first packet. |
| `MpReceiverV1.Receiver.CheckDeliverable` | ns3/mp-video/model/mp_receiver_v1.cc:57-77 | Frames leave from the head in strictly rising order, each with as many packets as its first packet's total or without a new packet for over 300 ms, until the head is neither. |
| `MpReceiverV1.CompleteIff` | ns3/mp-video/model/video_proto.cc:107-126 | Where senders agree on a frame's total, it leaves as complete exactly when every one of its packets had come in. |
| `MpReceiverV1.PacketMirrored` | ns3/mp-video/model/video_proto.cc:107-126 | A packet, new or repeated, keeps indices, count, completion and the time of the last new packet exact. |
| `Streams.BinStream.constructor` | ns3/mp-video/model/cf_stream.c:23-56 | A new stream is empty and has the default size. |
| `Streams.BinStream.Rewind` | ns3/mp-video/model/cf_stream.c:94-103 | Reading starts over, with everything written still there or, on reset, nothing. |
| `Streams.BinStream.AvailableRead` | ns3/mp-video/model/cf_stream.c:105-110 | The number of unread bytes. |
| `Streams.BinStream.Resize` | ns3/mp-video/model/cf_stream.c:112-129 | The buffer doubles until the request fits, to less than twice the request, and nothing written or read is lost. |
| `Streams.BinStream.Reduce` | ns3/mp-video/model/cf_stream.c:136-147 | A buffer of more than twice the default size is replaced by an empty default one; any other is untouched. |
| `Streams.BinStream.Move` | ns3/mp-video/model/cf_stream.c:149-168 | The unread bytes stay the same; they move to the front exactly when all was read or space runs out with more than half read. |
| `Streams.BinStream.Write1` | ns3/mp-video/model/cf_stream.c:170-176 | The byte is appended, growing the buffer if needed. |
| `Streams.BinStream.Write2` | ns3/mp-video/model/cf_stream.c:208-214 | Two bytes are appended, most significant first. |
| `Streams.BinStream.Write4` | ns3/mp-video/model/cf_stream.c:248-254 | Four bytes are appended, most significant first. |
| `Streams.BinStream.WriteData` | ns3/mp-video/model/cf_stream.c:328-337 | The low 16 bits of the length and then all bytes are appended. |
| `Streams.TooShort` | ns3/mp-video/model/cf_stream.c:178-274 | From too few bytes every read yields 0, and leaves them unread. |
| `Streams.BinStream.Read1` | ns3/mp-video/model/cf_stream.c:178-187 | The next unread byte, or 0 without advancing when there is none. |
| `Streams.BinStream.Read2` | ns3/mp-video/model/cf_stream.c:216-226 | The next two unread bytes as a number, or 0 without advancing when too few are left. |
| `Streams.BinStream.Read4` | ns3/mp-video/model/cf_stream.c:256-266 | The next four unread bytes as a number, or 0 without advancing when too few are left. |
| `Streams.BinStream.ReadData` | ns3/mp-video/model/cf_stream.c:339-353 | The length-prefixed block, or an error that costs only the prefix when it is too long or cut short. |
| `Bytes.Get2Put2` | ns3/mp-video/model/cf_stream.c:376-393 | Reading back two written bytes gives the number. |
| `Bytes.Get4Put4` | ns3/mp-video/model/cf_stream.c:395-414 | Reading back four written bytes gives the number. |
| `Streams.BlockBack` | ns3/mp-video/model/cf_stream.c:328-353 | A block within the limit is read back whole, whatever follows it. |
| `SegmentCodec.SegmentEncode` | ns3/mp-video/model/sim_proto.inl:83-126 | The encoder appends exactly the segment form. |
| `SegmentCodec.SegmentDecode` | ns3/mp-video/model/sim_proto.inl:128-177 | For any unread bytes, well formed or not, the decoder yields the declared fields and leaves the declared rest. |
| `SegmentCodec.SegmentRoundTrip` | ns3/mp-video/model/sim_proto.inl:83-177 | Decoding an encoded segment followed by anything yields what the form carries and leaves exactly what followed. |
| `SegmentCodec.SegmentComesBackIff` | ns3/mp-video/model/sim_proto.inl:83-177 | A segment comes back whole exactly when its frame type is at most 1, its remb is 0 or 0xff and its index fits a byte in a short frame. |
| `SegmentCodec.SegmentFits` | ns3/mp-video/model/sim_proto.inl:83-126 | Header and segment never exceed the header size senders account for plus the data. |
| `SegmentCodec.AckEncode` | ns3/mp-video/model/sim_proto.inl:179-188 | The encoder appends exactly the ack form. |
| `SegmentCodec.AckDecode` | ns3/mp-video/model/sim_proto.inl:190-201 | The decoder reads base, acked id and at most 80 offsets, whatever the count byte says. |
| `SegmentCodec.AckRoundTrip` | ns3/mp-video/model/sim_proto.inl:179-201 | Every ack with at most 80 offsets comes back whole, whatever follows it. |
| `Messages.EncodeMsg` | ns3/mp-video/model/pathreceiver.cc:279-289 | The stream holds header, body and the checksum of both, and nothing else. |
| `Messages.DecodeHeader` | ns3/mp-video/model/pathreceiver.cc:496-504 | The header is read exactly when the last four bytes are the checksum of all others; otherwise nothing is consumed. |
| `Messages.ReceiveMsg` | ns3/mp-video/model/pathreceiver.cc:496-530 | A datagram is damaged, of another kind, or yields header and body with the declared rest unread. |
| `Messages.MessageRoundTrip` | ns3/mp-video/model/pathreceiver.cc:279-289 | A message that arrives as sent is accepted with the header and body the form carries, only its checksum left unread. |
| `Messages.DamageNoticed` | ns3/mp-video/model/pathreceiver.cc:501-502 | Damage to at most four neighbouring bytes of header and body is always rejected. |
| `Messages.TrailerDamageNoticed` | ns3/mp-video/model/pathreceiver.cc:501-502 | Damage confined to the checksum is always rejected. |
| `Damage.ChecksumDifference` | ns3/mp-video/model/cf_crc32.c:56-68 | How far two checksums are apart depends on the bits in which the summed bytes differ only. |
| `Damage.NeighbourDamageIff` | ns3/mp-video/model/pathreceiver.cc:501-502 | Damage to at most four neighbouring bytes anywhere in a message is rejected, unless it flips just 61 d8 in the last two bytes of the body and f4 ee in the first two of the checksum. |
| `Damage.BlindExists` | ns3/mp-video/model/pathreceiver.cc:501-502 | For every message the one damage that is not noticed exists. |
| `Crc.TableEntry` | ns3/mp-video/model/cf_crc32.c:10-54 | Every one of the 256 table entries is eight division steps of its index. |
| `Crc.TableTurn` | ns3/mp-video/model/cf_crc32.c:64-65 | One turn of the loop divides the eight bits of one byte. |
| `Crc.Crc32` | ns3/mp-video/model/cf_crc32.c:56-68 | The table-driven loop computes the remainder of bit-by-bit division by the reflected polynomial 0xEDB88320, for every start value and byte string (section 8 of RFC 1952). |
| `Crc.ChecksumAppend` | ns3/mp-video/model/cf_crc32.c:56-68 | Summing in pieces is summing the whole: crc(crc(c, a), b) = crc(c, a ++ b). |
| `Crc.BurstDetected` | ns3/mp-video/model/cf_crc32.c:56-68 | Bit strings that differ only inside a window of 32 bits have different remainders. |
| `Crc.DamageDetected` | ns3/mp-video/model/cf_crc32.c:56-68 | Damage to at most four neighbouring bytes always changes the checksum. |
| `Shares.InitialIsDistribution` | ns3/mp-video/model/edcldschedule.cc:31-44 | The first shares are non-negative and add up to one. |
| `Shares.ShiftKeepsTotalIff` | ns3/mp-video/model/edcldschedule.cc:261-270 | The two writes keep the sum exactly when the paths differ or the amount is zero. |
| `Balance.CostsEqualIff` | ns3/mp-video/model/edcldschedule.cc:137-137 | Two paths cost the same exactly when the lag k is T times the difference of their inverse slacks. |
| `Balance.BacklogDrains` | ns3/mp-video/model/edcldschedule.cc:136-137 | The backlog is the time in which the path, at its rate, sends exactly the pending bits. |
| `Balance.CostIsDelay` | ns3/mp-video/model/edcldschedule.cc:137-137 | A cost is half the minimum round trip, the weighted wait behind the packets of the interval, and the weighted time for the pending bytes. |
| `Balance.LevelsIff` | ns3/mp-video/model/edcldschedule.cc:186-208 | The shifts that make both costs the same are exactly the roots of the comment's equation with T as a factor of its linear and constant part. |
| `Balance.LevellingShift` | ns3/mp-video/model/edcldschedule.cc:177-208 | Under traffic, and with some slack between the two, exactly one shift leaves both paths slack and makes their costs the same: the root that the code's own formula gives for the equation with T. |
| `Balance.NoIntervalLevelsIff` | ns3/mp-video/model/edcldschedule.cc:137-137 | With T = 0 a shift changes nothing: both costs are the same exactly if the lag is nothing. |
| `Balance.RootsLevelIff` | ns3/mp-video/model/edcldschedule.cc:177-208 | Whatever slack they leave, the shifts that make both costs the same are the two roots of that equation. |
| `Balance.DerivedLevelsIff` | ns3/mp-video/model/edcldschedule.cc:186-208 | A root of the equation as the comment has it makes both costs the same exactly when T is 1 ms or the shift leaves both paths the same slack. |
| `Balance.SolvedBesideDerived` | ns3/mp-video/model/edcldschedule.cc:203-231 | The equation the code solves differs from the comment's in the linear part only, where the load is reduced by what should multiply it. |
| `Balance.SolvedLevelsIff` | ns3/mp-video/model/edcldschedule.cc:226-231 | A root of the equation the code solves makes both costs the same exactly if it is the one point at which that equation and the right one can vanish together; with equal linear parts, exactly if T is 1 ms or the slacks are equal. |
| `Balance.OneShiftLevels` | ns3/mp-video/model/edcldschedule.cc:137-137 | While both paths keep some slack, at most one shift makes their costs the same. |
| `Balance.AmountLevelsIff` | ns3/mp-video/model/edcldschedule.cc:226-263 | The amount the code moves makes both costs the same exactly if: everything is moved and the share is one of the two levelling shifts; nothing is moved and the costs were tied; or both equations share the root taken, by their coefficients alone. |
| `Balance.UnlaggedLevelsIff` | ns3/mp-video/model/edcldschedule.cc:226-263 | Between paths with the same fixed costs the update makes both costs the same exactly if they were so already, or if all of the worst share happens to be half of the slack difference. |
| `Balance.SelfMovesNothing` | ns3/mp-video/model/edcldschedule.cc:225-263 | A path compared with itself, as when all costs are tied, lags by nothing, and nothing is moved. |
| `Edcld.EdcldSchedule.CountPackets` | ns3/mp-video/model/edcldschedule.cc:22-25 | The average length times the packet count is the old product plus the frame, rounded down to a whole average. |
| `Edcld.EdcldSchedule.Start` | ns3/mp-video/model/edcldschedule.cc:31-46 | The first frame sets shares in proportion to the rates, adding up to one. |
| `Edcld.TotalRate` | ns3/mp-video/model/edcldschedule.cc:53-63 | The total is the sum of all rates. |
| `Edcld.EdcldSchedule.UpdateCosts` | ns3/mp-video/model/edcldschedule.cc:105-140 | Every path is priced with its own slack, the offered rate being smoothed once more before each. |
| `Edcld.EdcldSchedule.Extremes` | ns3/mp-video/model/edcldschedule.cc:152-173 | A path of least and one of greatest cost are found; they coincide exactly when all costs are equal. |
| `Edcld.EdcldSchedule.Update` | ns3/mp-video/model/edcldschedule.cc:105-272 | With non-zero divisors, and whatever the square root returns, shares stay non-negative and keep their sum; the amount of the equation moves from the costliest to the cheapest path, and none when they coincide. What paths cost is in `Edcld.UpdatePrices`. |
| `Edcld.UpdatePrices` | ns3/mp-video/model/edcldschedule.cc:120-138 | A path costs half its minimum round trip, the weighted time its slack takes for the packets of the interval, and the weighted time in which it sends its pending bytes. |
| `Edcld.LaterIsDearer` | ns3/mp-video/model/edcldschedule.cc:120-138 | Of two paths with the same slack an update finds the one dearer whose half minimum round trip and weighted drain time together are later. |
| `Edcld.LaterGives` | ns3/mp-video/model/edcldschedule.cc:137-173 | The later of two such paths is never the cheapest nor the earlier the costliest; if there are no others, share moves from the later to the earlier. |
| `Edcld.SmoothedIsMean` | ns3/mp-video/model/edcldschedule.cc:126-135 | The first rate offered is taken as it is; after that the smoothed rate goes 17 parts in 20 of the way to each new one. |
| `Edcld.EdcldSchedule.ReadingIs` | ns3/mp-video/model/edcldschedule.cc:105-130 | An update reads the time since the last one in 32 bits, the rate at which the bytes of the frame came in it, and the average packet. |
| `Edcld.TwinsDefined` | ns3/mp-video/model/edcldschedule.cc:111-139 | An update of two paths under load, with the weights the repository uses, meets no zero divisor. |
| `Edcld.TwinsTradePlaces` | ns3/mp-video/model/edcldschedule.cc:225-271 | Two paths alike with a quarter and three quarters of the traffic: moving a quarter would level the costs, the update moves over a half, and the cheaper path becomes the dearer. |
| `EdcldDispatch.NoServerIffNoShareServes` | ns3/mp-video/model/edcldschedule.cc:75-97 | The round robin is left without a server exactly when no path's share of the packets comes to one packet. |
| `EdcldDispatch.AllServedIff` | ns3/mp-video/model/edcldschedule.cc:75-97 | Every distribution over m paths gives n packets a server exactly when n is at least m. |
| `EdcldDispatch.EvenServesNobody` | ns3/mp-video/model/edcldschedule.cc:75-97 | Fewer packets than paths, evenly shared, leave the round robin without a server. |
| `EdcldDispatch.WorthsSum` | ns3/mp-video/model/edcldschedule.cc:77-89 | The rounded-down weights add up to the packets, less than one packet per path short. |
| `EdcldDispatch.DispatchNearShare` | ns3/mp-video/model/edcldschedule.cc:75-100 | However the picks fell, a path gets less than one packet short of its exact share, and exceeds it by less than the number of paths. |
| `EdcldDispatch.WeightRoundRobinSchedule` | ns3/mp-video/model/edcldschedule.cc:75-100 | If some share comes to a packet, every packet goes out once, in id order, to a path whose share does, and with shares that are a distribution every path is near its share. |
| `Pacer.NextIsLatestWindow` | ns3/mp-video/model/idealpacer.cc:16-22 | The next send time is the least time by which every window of packets sent has had its transfer time. |
| `Pacer.PacedIffConforms` | ns3/mp-video/model/idealpacer.cc:16-32 | A run sends only when allowed exactly when, for any two sends, the transfer times between them sum to at most the time between them plus 1 ms. |
| `Pacer.WaitIsEnough` | ns3/mp-video/model/idealpacer.cc:27-32 | Waiting as long as told is enough, and waiting less by more than the granularity is not. |
| `Pacer.IdealPacingSender.OnPacketSent` | ns3/mp-video/model/idealpacer.cc:16-22 | The stored time stays the function of all packets sent. |
| `Pacer.IdealPacingSender.TimeUntilSend` | ns3/mp-video/model/idealpacer.cc:27-32 | Zero within the granularity of the next send time, and the full distance otherwise. |
| `Pacer.IdealPacingSender.SendIfAllowed` | ns3/mp-video/model/idealpacer.cc:16-32 | Sending only when allowed keeps the run paced. |

## Left out

- Integer width: byte totals, sequence numbers, frame ids and the products of the water
  filling are unbounded integers. Where the program's wrap-around decides something (message
  fields, ack offsets, millisecond differences) it is written out.
- Floating point: rates, weights, gains and shares are exact rationals or reals; the
  square root of the split-ratio update is an arbitrary function.
- Edcld.EdcldSchedule.Update: divisions by zero, which give infinities in the program, are excluded by the
  precondition that no divisor is zero.
- The libquic arithmetic not in the repository: the bandwidth filter enters as the estimate
  before and after a sample, transfer times and random numbers as parameters.
- The control fields of sender v5 - round-trip estimates, modes, gains - are one field of the model's class that holds
  a record of them (`BbrControl.Control`).
- `CalculatePacingRate` of sender v5, its unused congestion counters and trace callbacks.
- Ordered maps and queues of the program are Dafny maps and sequences; `std::sort` is an
  insertion sort, of which only its being an ordered arrangement is used.
- Calls from one object on another (sink, paths, schedulers) are returned or recorded as
  lists in call order instead of being made; packet buffers are counted, not recycled as objects.
- Path objects held by the senders: the senders record the calls they make on paths, and each
  path is modelled on its own.
- BbrSender.MyBbrSenderV5.OnAck: acks for packets that were never sent, which the program does not check for,
  and a clock that runs backwards are outside the contract.
- MpReceiver.MultipathReceiver.DeliverToCache: segments whose index is beyond the total of their frame, for
  which the program writes out of bounds, are outside the contract.
- Messages.DecodeHeader: datagrams shorter than a checksum, for which the program reads before its buffer, are not
  modelled.
- Messages.ReceiveMsg: likewise, only datagrams that can hold a checksum.
- EndToEnd.SentIsDelivered: damage that leaves the checksum right (`Damage.NeighbourDamageIff`) and frame types
  above 1, of which the wire form carries one bit, are outside the hypothesis; each path number stands for one path,
  and stays what it is.
- EndToEnd.SentOverPaths: likewise, and path ids reaching 2^32.
- Message kinds other than segments and segment acks, and the pad, ping, feedback and connection
  bodies; they add only shorter encodings of the same kind.
- The serialised form of the first protocol version, whose writers are not in the repository.
- Timers, sockets, node set-up, congestion controllers and pacers of WebRTC: time is a
  parameter and events are method calls.
- Near-copies: sender versions 2 to 4, `sfl_v1`, `waterfillingschedule`, `edcld_v1`, `idealschedule`,
  and the mock senders and receivers.
- `ScaleSchedule`, whose shares all use the first path's rate, and changing the path set after the split-ratio
  scheduler has started, which leaves old shares in its table.
- The retransmission buffer of the plain path sender, whose filling is commented out, and setting the used
  size of a stream from outside.
- Frame ids reaching 2^32 and a second sink registration after frames were already dropped.
