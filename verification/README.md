# Wind tunnel: verified models

The wind tunnel drives an AD4M executor and its media servers from the outside and turns what it sees
into verdicts: is memory leaking, did every call get its answer, which speaker reached which listener,
who landed on which SFU node. The processes it starts are out of reach of a proof. The algorithms and
small protocols that produce those verdicts are not, and this project models them in Dafny and proves
what they promise, for every input and every interleaving.

| file | what it models |
|---|---|
| `Reals.dfy`, `Complex.dfy` | exact reals and complex numbers, as far as the tone detector needs them |
| `Goertzel.dfy` | the two-register tone detector and the Fourier bin it computes |
| `Tones.dfy` | exact tones and the bins they light up |
| `Fingerprinter.dfy` | the buffering fingerprinter, the synthetic tone source, and the two end to end |
| `LeastSquares.dfy`, `LeakVerdict.dfy` | the regression slope and the leak verdict built on it |
| `Monitor.dfy` | the polled timers of the steady-load phases |
| `RedirectLoops.dfy` | the three redirect-following join loops, compared on the same answers |
| `ClusterJoin.dfy` | provisioning, membership and the whole max-participants scenario |
| `Text.dfy`, `Numerals.dfy`, `Wrappers.dfy` | searching, splitting, joining and printing, and small shared shapes |
| `SseReader.dfy` | the incremental event-stream reader of the MCP client |
| `EventStreams.dfy`, `SseConformance.dfy` | event streams as the WHATWG HTML standard reads them, and which ones the reader reads alike |
| `Simulcast.dfy` | the SDP answer rewriter |
| `GroupStore.dfy` | the ActivityPub group shim |
| `RpcClient.dfy`, `Metrics.dfy` | pending requests over a WebSocket; latency books and figures |
| `Events.dfy`, `Renegotiation.dfy` | event subscriptions; the renegotiation chain |
| `Mesh.dfy` | full-mesh construction |

Code that changes state step by step is a class or a method with a loop. Where it is asynchronous,
`State`, `Event` and `Step` describe one step, each method is proved to perform exactly its step, and
`Run` folds any list of events, so a statement about `Run` covers every interleaving.

What the code does not guarantee, with the exact condition under which it does:

- A `send` that throws rejects its promise but leaves the entry in the pending map
  (`RpcClient.LeakIff`; for one, `RpcClient.ThrowingSendLeaks`).
- An `onRenegotiated` callback that throws makes its offer count as applied and as failed
  (`Renegotiation.DrainedCountsAgree`, `Renegotiation.CountersTell`; for one,
  `Renegotiation.ThrowingCallbackCountsTwice`).
- An unsubscribe closure that is stale drops a newer set of handlers, and one whose handler was subscribed
  twice takes it away from both subscriptions; every other use is faithful (`Events.FaithfulIff`, and in terms
  of the operations alone `Events.FaithfulByUseIff`; for two, `Events.StaleUnsubscribeDropsNewer` and
  `Events.SharedHandlerIsLost`).
- An activity without id is lost when an earlier explicit id is the name the shim would make up
  (`GroupStore.AnonymousIsDroppedIff`; for one, `GroupStore.AnonymousCanBeDropped`).
- `resetMetrics` while calls are running makes `totalRequests` short by those calls
  (`Metrics.BooksBalance`; for one, `Metrics.ResetLosesCalls`).
- "All nodes at capacity" is true of every overflow exactly in clusters of at most two nodes
  (`RedirectLoops.OverflowMeansFullIff`; for one with three, `RedirectLoops.ThirdNodeMayHaveRoom`).
- The reported `expectedOverflow` is the number of peers that overflow, against servers that admit while they
  can, exactly in clusters of at most two nodes or without any room (`ClusterJoin.ExpectedOverflowIff`; for
  one with three, `ClusterJoin.ThirdNodeStaysEmpty`).
- T4's hop bound never raises a false alarm, but it gives up on peers that S2's bound lands
  (`RedirectLoops.CycleAlarmIsReal`, `RedirectLoops.HopBoundsAgreeIff`; for one, `RedirectLoops.BoundsDiffer`).
- The event-stream reader departs from sections 9.2.5 and 9.2.6 of the WHATWG HTML standard: it knows no CR
  or CRLF line ends, never joins data lines and skips those with a Unicode line separator. The streams it
  reads like the standard are given exactly, for all streams by `SseConformance.ReadsAlikeIff` and for what
  a server writes by `SseConformance.EncodingReadsAlikeIff`; for some it does not,
  `SseConformance.CrlfStreamIsSilent` and `SseConformance.SplitMessageIsMissed`.
- A message that is the JSON text null makes the reader throw a type error, whatever id was asked for
  (`SseReader.OutcomeIff`, `SseReader.TypeErrorIff`; for one, `SseReader.NullThrows`).
- Two candidate frequencies on one bin of the window cannot be told apart: the earlier one is reported
  (`Fingerprinter.WindowIsRecognisedIff`; for two, `Fingerprinter.NeighbourIsReported`).
- A layer name with a line end breaks the rewritten answer into other lines, one with a semicolon the
  simulcast line (`Simulcast.InjectionCanBeUndoneIff`, `Simulcast.SimulcastLineListsRidsIff`).

## Model

| member | source | states |
|---|---|---|
| Goertzel.Power | src/peer.ts:78-96 | for every sample window and every unit rotation, the value under the square root is the squared modulus of the Fourier bin, hence never negative; 0 for an empty window |
| Goertzel.RecurrenceStep | src/peer.ts:90-94 | one pass of the recurrence multiplies the complex number held by the two registers by the rotation and adds the sample |
| Goertzel.RegistersNorm | src/peer.ts:95 | the closing expression in s1, s2 is the squared modulus of that number |
| Goertzel.HornerTurnsDft | src/peer.ts:78-96 | what the registers accumulate is the Fourier sum turned by whole samples, for any number of samples |
| Tones.GeometricTelescopes | src/peer.ts:78-96 | (w - 1) times the sum of the powers of w is w^n - 1 |
| Tones.RootsCancel | src/peer.ts:78-96 | the powers of a non-trivial n-th root of unity sum to zero |
| Tones.ToneDft | src/peer.ts:346-361 | the Fourier bin of any tone, at any amplitude and phase, as two geometric sums |
| Tones.WholeTurnIff | src/peer.ts:85-86 | a power of a primitive n-th root of unity is 1 exactly at the multiples of n |
| Tones.RotationsAgreeIff | src/peer.ts:85-86 | two bins rotate alike exactly when they differ by whole windows, in opposite directions exactly when they add up to whole windows |
| Tones.ToneSpectrum | src/peer.ts:78-96 | orthogonality: an exact tone reads as (n/2)^2 (a^2 + b^2) on its own bin and its aliases and as exactly 0 on every other bin, for every n, amplitude and phase |
| Fingerprinter.LoudestIsFirstMaximum | src/peer.ts:151-160 | the reported frequency is a candidate no other exceeds and no earlier one reaches; 0 is reported with magnitude 0 exactly when every magnitude is 0 |
| Fingerprinter.AudioFingerprinter.constructor | src/peer.ts:114-127 | starts empty and without a result |
| Fingerprinter.AudioFingerprinter.OnData | src/peer.ts:128-138 | a delivery is copied and buffered until a result exists and ignored afterwards; reaching the threshold analyses at once |
| Fingerprinter.AudioFingerprinter.Analyse | src/peer.ts:141-161 | the result is the first loudest candidate of the concatenated buffer, which is emptied |
| Fingerprinter.AudioFingerprinter.Concatenate | src/peer.ts:142-148 | copying the chunks in place at a running offset gives their concatenation in order and fills the array exactly |
| Fingerprinter.AudioFingerprinter.ResetAll | src/peer.ts:172-176 | forgets everything heard so far |
| Fingerprinter.RunSettles | src/peer.ts:114-176 | over every sequence of deliveries and resets: below the threshold everything since the reset is buffered in order and there is no result; from then on the result is the one analysis of the shortest prefix that reaches it |
| Fingerprinter.EnoughIsUnique | src/peer.ts:131-137 | that prefix is unique, so the analysis happens once per reset |
| Fingerprinter.ToneSource.Tick | src/peer.ts:348-353 | a frame is the next 480 samples of one unbroken sine, the clock carried from frame to frame |
| Fingerprinter.WindowIsTone | src/peer.ts:348-353 | wherever the stream is cut, the window is a tone at some phase |
| Fingerprinter.WindowSpectrum | src/peer.ts:346-361 | any window of a tone sent on bin j reads (n/2)^2 times the squared amplitude on bin j and its aliases and 0 on every other |
| Fingerprinter.WindowIsReported | src/peer.ts:141-161 | for any candidates, any window of a tone on a bin is reported as the first candidate on that bin with the tone's full power, and as 0 if there is none |
| Fingerprinter.BinIsNearest | src/peer.ts:85 | a candidate is looked for on the bin nearest to its frequency, the higher one of two |
| Fingerprinter.ToneOnBin | src/peer.ts:85-86 | a tone whose frequency is that of its bin turns, sample by sample, as the bin does |
| Fingerprinter.WindowIsRecognisedIff | src/peer.ts:151-160 | the tone of a candidate whose frequency falls on a bin is reported as that candidate exactly when no earlier candidate of another frequency shares the bin |
| Fingerprinter.NeighbourIsReported | src/peer.ts:85 | the tone of 442 Hz, which falls on a bin, is reported as 441 Hz when that is listed first |
| Fingerprinter.EvenCandidatesSeparate | src/peer.ts:85 | distinct even frequencies below half the sample rate share no bins of the half-second window, not even as aliases |
| Fingerprinter.SpeakerIsReported | src/peer.ts:114-181 | after any history, a reset and at least 50 frames of a speaker's tone, the first candidate on the speaker's bin is reported, whatever the other candidates are |
| Fingerprinter.SpeakerIsRecognised | src/peer.ts:114-181 | with distinct candidates that is the speaker exactly when no earlier one shares the speaker's bin, so always with even ones below half the sample rate, as the scenarios use them |
| LeastSquares.LinearSlope | src/scenarios/s9-neighbourhood-memory-leak.ts:112-119 | the accumulator loop returns the slope whose properties follow; the loop of S15 is the same |
| LeastSquares.SumsGrowByPairs | src/scenarios/s9-neighbourhood-memory-leak.ts:115-118 | numerator and denominator each grow by the spread of the earlier points around the new one: they are sums over pairs of points |
| LeastSquares.DenominatorSign | src/scenarios/s9-neighbourhood-memory-leak.ts:117 | the denominator is never negative and is 0 exactly when all times are equal |
| LeastSquares.SlopeMinimisesError | src/scenarios/s9-neighbourhood-memory-leak.ts:112-119 | no line has a smaller sum of squared residuals; with two distinct times no line of another slope has an equal one |
| LeastSquares.SlopeOfSameX | src/scenarios/s9-neighbourhood-memory-leak.ts:118 | without two distinct times the slope is 0 |
| LeastSquares.CollinearSlope | src/scenarios/s15-leak-attribution.ts:76-83 | points on a line with two distinct times, in any order, give back its slope exactly |
| LeastSquares.SlopeAtLeast | src/scenarios/s9-neighbourhood-memory-leak.ts:112-119 | a lower bound on the rate between neighbouring samples is a lower bound on the fitted slope |
| LeastSquares.SlopeAtMost | src/scenarios/s9-neighbourhood-memory-leak.ts:112-119 | and so is an upper bound |
| LeastSquares.SlopeOfAffine | src/scenarios/s15-leak-attribution.ts:76-83 | moving the clock changes nothing, scaling the values scales the slope |
| LeakVerdict.ReleaseIsNeverALeak | src/scenarios/s9-neighbourhood-memory-leak.ts:121-130 | memory that never rises during a phase is judged stable or insufficient data, never growth or a leak, however irregular the sampling |
| LeakVerdict.SteadyGrowthIsALeak | src/scenarios/s9-neighbourhood-memory-leak.ts:391-404 | four samples or more at two distinct times, rising at least 1 MB/min between neighbours, are always judged a leak |
| LeakVerdict.SteadyRateIff | src/scenarios/s9-neighbourhood-memory-leak.ts:121-130 | memory climbing at one rate: stable exactly up to 0.25 MB/min, slow growth exactly between that and 1, a leak exactly from 1 on, insufficient data exactly below four samples; the reported rates are that rate to the nearest KB and hundredth of a MB |
| LeakVerdict.VerdictInBand | src/scenarios/s9-neighbourhood-memory-leak.ts:121-130 | irregular samples whose rates between neighbours stay in the band of stable, or of slow growth, are judged so |
| LeakVerdict.OtherPhasesDoNotCount | src/scenarios/s9-neighbourhood-memory-leak.ts:391-396 | a sample of another phase changes nothing that is reported for this one |
| LeakVerdict.OwnPhaseCounts | src/scenarios/s9-neighbourhood-memory-leak.ts:391 | samples of one phase all count for it |
| LeakVerdict.VerdictIgnoresClockOffset | src/scenarios/s9-neighbourhood-memory-leak.ts:391-404 | starting the clock earlier or later changes no reported figure and no verdict |
| Monitor.MonitorLoop | src/scenarios/s9-neighbourhood-memory-leak.ts:349-372 | the loop runs exactly while the guard reads less than the duration; each of its three timers fires as if it were polled alone and, if its interval is positive, is paced and fires at most as often as intervals fit in, plus one |
| Monitor.TimersArePaced | src/scenarios/s15-leak-attribution.ts:186-204 | the k-th firing comes no earlier than k intervals (counted from 0), firings are an interval apart, and no poll is an interval or more away from the firing before it |
| Monitor.FiringsAreBounded | src/scenarios/s15-leak-attribution.ts:216-240 | a timer fires at most as often as whole intervals fit into the last reading, plus one |
| Monitor.PacedLogIsUnique | src/scenarios/s9-neighbourhood-memory-leak.ts:353-372 | those promises leave no freedom: only the firings of the loop keep them |
| RedirectLoops.SeenSetLoop | src/scenarios/t3-sfu-cascade-2node.ts:127-155 | for every server the loop ends after at most one join per node: landed where an answer carried no redirect, or at the first repeated target, or at the first unknown one |
| RedirectLoops.HopLoop | src/scenarios/t4-sfu-cascade-3node.ts:102-126 | for every server the loop ends within the bound: landed, at an unknown target, or when the bound is used up |
| RedirectLoops.SeenSetResultIsUnique | src/scenarios/t3-sfu-cascade-2node.ts:127-155 | the answers decide the outcome of the seen-set loop |
| RedirectLoops.HopResultIsUnique | src/scenarios/t4-sfu-cascade-3node.ts:102-126 | and of the hop-counter loop |
| RedirectLoops.TrailFits | src/scenarios/t3-sfu-cascade-2node.ts:127-135 | pigeonhole: joins without a repeat are no more than the nodes |
| RedirectLoops.SeenSetLandingAgrees | src/scenarios/s2-sfu-cascade-4node.ts:103-123 | on the same answers, whenever the seen-set loop lands a peer, a hop-counter loop with a bound of at least the number of nodes lands it on the same node after the same joins |
| RedirectLoops.HopLandingAgreesIff | src/scenarios/t4-sfu-cascade-3node.ts:102-126 | a hop-counter landing is the seen-set outcome exactly when no node was joined twice; otherwise the seen-set loop had given up earlier |
| RedirectLoops.CycleAlarmIsReal | src/scenarios/t4-sfu-cascade-3node.ts:110-113 | "cycle detected" is never a false alarm: some node was named twice |
| RedirectLoops.HopBoundsAgreeIff | src/scenarios/s2-sfu-cascade-4node.ts:107-110 | two bounds give the same outcome exactly unless as many answers as the tighter allows all redirect to cluster nodes; T4 gives up where S2 lands exactly when then the next answer carries no redirect |
| RedirectLoops.BoundsDiffer | src/scenarios/s2-sfu-cascade-4node.ts:107-110 | on one list of answers T3 and T4 give up and S2 lands the peer |
| RedirectLoops.OverflowMetFullNodes | src/scenarios/s3-max-participants.ts:104-112 | against servers that redirect only when full, an overflowed peer met only full nodes |
| RedirectLoops.OverflowMeansFullIff | src/scenarios/s3-max-participants.ts:104-112 | "all nodes at capacity" is true of every overflow, against all such servers, exactly if there are at most two nodes, or one if a node may name itself |
| RedirectLoops.ThirdNodeMayHaveRoom | src/scenarios/s3-max-participants.ts:104-112 | a three-node run in which it is false |
| ClusterJoin.ProvisionClusterPeers | src/users.ts:173-222 | succeeds exactly when every account on every node is created, gets a token and gets connected, and then every peer holds that node's token and identity for every node |
| ClusterJoin.RegisterClusterSfuMembers | src/users.ts:245-266 | exactly the identities some session holds become members, each on every node; earlier members stay |
| ClusterJoin.RegisterEverywhere | src/users.ts:257-264 | one identity becomes a member on every node and nothing else changes |
| ClusterJoin.Cluster.CallJoin | src/scenarios/s3-max-participants.ts:122-131 | the environment: a join by a member of the node is accepted and counted, below the cap where the cap is enforced, or redirected anywhere; eager servers accept whenever they are below the cap and redirect within the cluster |
| ClusterJoin.JoinPeer | src/scenarios/s3-max-participants.ts:89-141 | the join loop against live servers has the seen-set outcome on the answers it got, at most one join per node, each through a client the peer holds and as a member there; only a landing changes a server, by one |
| ClusterJoin.TotalIsCapped | src/scenarios/s3-max-participants.ts:148 | within the cap no more than nodes times cap peers can land |
| ClusterJoin.OverflowFindsAllFull | src/scenarios/s3-max-participants.ts:104-112 | in a cluster of at most two nodes a peer overflows at eager servers only when every node is full |
| ClusterJoin.RunIsFair | src/scenarios/s3-max-participants.ts:83-142 | whole runs against eager servers keep to the cap and account for every peer, and in a small cluster nobody overflows before all nodes are full |
| ClusterJoin.OverflowIsExpected | src/scenarios/s3-max-participants.ts:148 | then exactly max(0, peers - nodes * cap) peers overflow, whatever the redirects |
| ClusterJoin.ExpectedOverflowIff | src/scenarios/s3-max-participants.ts:148 | for every number of peers and every choice of redirects that holds exactly with at most two nodes (one if a node may name itself), or with cap 0 |
| ClusterJoin.ThirdNodeStaysEmpty | src/scenarios/s3-max-participants.ts:148 | seven peers, cap three, three nodes: one overflows although none is expected to |
| ClusterJoin.MaxParticipants | src/scenarios/s3-max-participants.ts:79-150 | every peer has the seen-set outcome on the answers it got; the landed nodes and the overflowed indexes are, in order, those of exactly the peers that landed and did not; the counts are the servers' own and those of the landed peers, passed says exactly whether every server kept to the cap, overflow is at least what cannot fit, servers that enforce the cap pass, and against eager ones the joins are an eager run with, in a small cluster, exactly the expected overflow |
| ClusterJoin.RunScenario | src/scenarios/s3-max-participants.ts:65-150 | provisioning, registration and joins composed: the joins are reached exactly when every account is usable, every join is made as a member of its node, and the totals and the verdict are those of the servers |
| Text.IndexOfIsFirst | src/mcp-client.ts:87 | the index found is the first occurrence, and -1 means there is none |
| Text.JoinSplit | src/peer.ts:631-658 | joining what was split gives the text back |
| Text.SplitAppend | src/mcp-client.ts:85-89 | splitting can go on piece by piece: later text is split as if it followed the open part alone |
| Text.SplitJoin | src/peer.ts:631-658 | splitting what was joined gives the parts back, for parts that do not meet the separator early |
| Text.SplitJoinIff | src/peer.ts:631-658 | for a separator that cannot overlap itself, exactly when no part contains it |
| SseReader.ReadSseForId | src/mcp-client.ts:75-114 | for every way of cutting a stream into chunks and every number of rounds before the deadline, the outcome is that of parsing the text read at once, and the verdict on its messages |
| SseReader.CutFrames | src/mcp-client.ts:87-104 | the inner loop finds the first hit in the completed frames and otherwise leaves exactly the open frame |
| SseReader.SearchLines | src/mcp-client.ts:90-103 | the first line of a frame that answers decides |
| SseReader.OneShotAppend | src/mcp-client.ts:85-89 | text that arrives later never changes a hit and is read as if it followed the remainder alone |
| SseReader.NothingIsLost | src/mcp-client.ts:87-89 | the remainder holds no blank line, and the frames cut off plus the remainder are exactly what was read |
| SseReader.EncodedMessagesAreRead | src/mcp-client.ts:90-102 | round trip: for any list of single-line messages sent as data frames the outcome is the verdict on that list |
| SseReader.OneShotReadsMessages | src/mcp-client.ts:90-102 | the outcome is the first of the stream's data lines, as the regular expression takes them, that answers the id |
| SseReader.OutcomeIff | src/mcp-client.ts:93-102 | for every stream, over the messages alone: an RPC error with e exactly when the first message that is null or carries the id carries the id and error e; a result with r exactly when it carries the id, result r and no error; a type error exactly when it is null; no response exactly when there is none |
| SseReader.VerdictIsUnique | src/mcp-client.ts:93-102 | the messages leave only one outcome |
| SseReader.PayloadIff | src/mcp-client.ts:91 | what the regular expression captures: the text behind `data:` and at most one white space, if it holds no line terminator |
| SseReader.TypeErrorIff | src/mcp-client.ts:93-99 | a type error is thrown exactly when some message is null and every earlier one is no JSON or carries another id |
| SseReader.NullThrows | src/mcp-client.ts:95-99 | one null message is enough |
| EventStreams.EncodingIsRead | src/mcp-client.ts:74-104 | the partner: a reader after sections 9.2.5 and 9.2.6 of the WHATWG HTML standard gets back every event's data, its lines joined, for CR, LF and CRLF line ends |
| EventStreams.FieldIs | src/mcp-client.ts:91 | which lines carry data for such a reader: the bare name, and the name with a colon, behind which one space is dropped |
| SseConformance.ReadsAlikeIff | src/mcp-client.ts:74-104 | for every stream: no id and no JSON parser tells the reader from the standard exactly when their message texts agree up to empty ones and repeats |
| SseConformance.EncodedLinesAreRead | src/mcp-client.ts:87-102 | of events with any number of data lines the reader takes each line on its own: the outcome is the verdict on these lines |
| SseConformance.EncodingReadsAlikeIff | src/mcp-client.ts:87-102 | events a server writes are read as the standard reads them exactly if it writes LF and each event has one data line without line separators (or no event carries data) |
| SseConformance.OtherLineEndsReadAlikeIff | src/mcp-client.ts:87 | with CR or CRLF, for a given id and parser, exactly if there is nothing to find |
| SseConformance.SplitMessageIsMissed | src/mcp-client.ts:90-98 | a message spread over two data lines is an event of the standard and a miss of the reader |
| SseConformance.CrlfStreamIsSilent | src/mcp-client.ts:87 | nothing is ever found in a stream whose lines end in CRLF |
| SseConformance.CrlfDataLineIsMissed | src/mcp-client.ts:91 | a trailing CR hides a data line whatever it carries |
| Simulcast.MungeAnswerForSimulcast | src/peer.ts:627-659 | an answer that acknowledges simulcast, has no layers or offers no place comes back unchanged; otherwise the rid and simulcast lines follow the first direction line of a video section and nothing else changes |
| Simulcast.VideoIsAcknowledged | src/peer.ts:627-659 | line by line, for every answer with a video section: the lines `a=rid:<layer> recv` and `a=simulcast:recv <layers>` come out right behind the first `a=recvonly` or `a=sendrecv` of the first `m=video` section, and directions of earlier sections are passed over |
| Simulcast.NothingToAcknowledge | src/peer.ts:628-629 | an answer with `a=simulcast:`, without an `m=video` line or without such a direction, or no layers: nothing changes |
| Simulcast.AppendBlock | src/peer.ts:650-653 | the rid lines in order, then the simulcast line |
| Simulcast.VideoFlag | src/peer.ts:637-640 | the flag says whether the latest media line opened a video section |
| Simulcast.TargetIsUnique | src/peer.ts:645-654 | there is at most one place to insert |
| Simulcast.MungingIsIdempotent | src/peer.ts:627-659 | rewriting twice changes nothing more |
| Simulcast.OnlyTheBlockIsInserted | src/peer.ts:627-659 | for all layer names, the rewritten answer is the input with one run of text put in behind the target line |
| Simulcast.InjectionCanBeUndoneIff | src/peer.ts:627-659 | the lines of the rewritten answer are the input's with one line per layer and one more right behind the target line, exactly when no layer name contains a line end; deleting them gives back the input |
| Simulcast.SimulcastLineListsRidsIff | src/peer.ts:650-653 | the simulcast line lists the layers of the rid lines in their order, as section 5.1 of RFC 8853 asks, exactly when no layer name contains a semicolon |
| RpcClient.InstrumentedClient.constructor | src/client.ts:37-39 | starts without socket, requests or timers |
| RpcClient.InstrumentedClient.WsConnect | src/client.ts:49-51 | a new socket, not open yet; pending requests stay |
| RpcClient.InstrumentedClient.OnOpen | src/client.ts:52 | the socket opens |
| RpcClient.InstrumentedClient.WsDisconnect | src/client.ts:80-85 | the socket is dropped at once, its close event comes later |
| RpcClient.InstrumentedClient.WsCall | src/client.ts:96-111 | refused unless open; otherwise a fresh number goes on the table, with a timer if and only if the send went through |
| RpcClient.InstrumentedClient.OnMessage | src/client.ts:54-69 | settles and removes the one request it names, if pending |
| RpcClient.InstrumentedClient.OnTimeout | src/client.ts:104-109 | settles and removes its own request, if still pending |
| RpcClient.InstrumentedClient.OnClose | src/client.ts:70-75 | rejects every pending request once, in order, and empties the table |
| RpcClient.StepFate | src/client.ts:49-111 | what each event does to the promise of each call: at most one settlement, only for the call it covers |
| RpcClient.StepTable | src/client.ts:49-111 | which calls each event puts on or takes off the table |
| RpcClient.SocketIff | src/client.ts:49-85 | from the events alone: the socket is open exactly when a connection was begun, has opened, and no other one, disconnect or close of it has come since |
| RpcClient.NumbersAreCounted | src/client.ts:97-100 | numbers count the calls that found the socket open |
| RpcClient.CallIsRefusedIff | src/client.ts:97-99 | a call is refused, and changes nothing, exactly when the socket is not open |
| RpcClient.NoCallAfterClose | src/client.ts:97-99 | so it is after a disconnect or a close, until a new connection has opened |
| RpcClient.FirstEndSettles | src/client.ts:49-111 | every call of every run, from the events alone: it is settled by the first of an answer with its id, a close, and, if it was sent, its timer, with that reply and no other; until then it is on the table, and its timer runs until it fires |
| RpcClient.TimerRunsIff | src/client.ts:104-109 | after every run a timer runs exactly for each call that was sent and whose timer has not fired |
| RpcClient.TableIsInOrder | src/client.ts:24-27 | the table lists the pending calls in the order they were made |
| RpcClient.CloseRejectsInOrder | src/client.ts:70-75 | a close rejects exactly the pending calls, in that order, and empties the table |
| RpcClient.EveryRunIsAccounted | src/client.ts:49-111 | in every interleaving each call is unissued and untouched, pending and unsettled, or settled once and gone, save for calls whose send threw; timers run only for calls whose send went through |
| RpcClient.CallKeepsInv | src/client.ts:100-102 | a new number was never issued before |
| RpcClient.TableIsExactIff | src/client.ts:96-111 | the table is exactly issued minus settled if and only if it holds no call whose send threw |
| RpcClient.LeakIff | src/client.ts:101-103 | a call is on the table although settled exactly when its send threw and neither a close nor a message with its id came since |
| RpcClient.NoSendFailsNoLeak | src/client.ts:96-111 | if no send throws, the table is exact and every call is settled at most once |
| RpcClient.ThrowingSendLeaks | src/client.ts:101-103 | one throwing send is enough to break that |
| RpcClient.SettledStaysSettled | src/client.ts:57-67 | once gone from the table a call is never touched again by late answers, its timer or a close, and its number is never reused |
| RpcClient.EverySettlementHasACause | src/client.ts:57-75 | each settlement comes from a message with that id, that call's timer, its failed send, or a close |
| RpcClient.TimerAndCloseSettle | src/client.ts:70-109 | in every run, the timer of a call that was sent, and a close, leave the call settled and off the table, whatever comes before or after |
| Metrics.InstrumentedMetrics.Begin | src/client.ts:113-116 | a call is counted when it starts |
| Metrics.InstrumentedMetrics.End | src/client.ts:117-129 | its duration and, on failure, its error are booked when it ends, and the books still balance |
| Metrics.InstrumentedMetrics.ResetMetrics | src/client.ts:231-233 | all books are cleared, calls in flight run on |
| Metrics.InstrumentedMetrics.GetStats | src/client.ts:235-251 | count and errors are those of the calls that ended, and failed, since the latest reset; the exact mean; attained bounds of all latencies; p50, p95 and p99 stand at their rank, in order; all 0 without latencies |
| Metrics.DescriptionIsExact | src/client.ts:235-251 | no other figures meet that description |
| Metrics.BooksBalance | src/client.ts:113-130 | in every interleaving the total duration is the sum of the latencies, errors are no more than latencies, and the request counter is exact if and only if the latest reset found no call in flight |
| Metrics.BooksTell | src/client.ts:113-130 | in every interleaving, from the events alone: requests are the starts since the latest reset, latencies the calls that ended since, errors those of them that failed |
| Metrics.LatenciesAreInOrder | src/client.ts:119-127 | the latencies are the durations of those calls in the order in which they ended |
| Metrics.ResetLosesCalls | src/client.ts:231-233 | one reset during one call leaves a latency that no request was counted for |
| Metrics.SortKeeps | src/client.ts:236 | sorting gives an ascending permutation with the same sum |
| Metrics.SortedFigures | src/client.ts:236-250 | the entries of the sorted copy at those indexes have those ranks among the unsorted latencies |
| Events.EventsClient.Subscribe | src/events.ts:70-76 | adds the handler to the type's set, made on first use, and hands out the closure that remembers that set |
| Events.EventsClient.Unsubscribe | src/events.ts:77-82 | removes the handler from the remembered set and drops the type when that set is empty |
| Events.EventsClient.OnMessage | src/events.ts:50-60 | a frame goes to the handlers of its type in order of subscription |
| Events.EventsClient.Disconnect | src/events.ts:85-91 | forgets every type; sets held by closures live on |
| Events.StepKeepsStructure | src/events.ts:70-91 | however closures are used, no set serves two types, a captured set is in use under its own type only, and no set in use is empty |
| Events.OffIsExactIff | src/events.ts:77-82 | after any run, running any closure removes just its handler from just its type exactly when the closure is not stale; a stale one silences every handler of the type |
| Events.FaithfulIff | src/events.ts:43-91 | for every run of subscriptions, repeated closure calls and disconnects: frames always go to exactly the handlers with a subscription in force, in order, if and only if no closure run was stale or shared its handler with another one in force |
| Events.HarmfulIffUntimely | src/events.ts:70-91 | while nothing has gone wrong, harmful closures are told by the caller's own operations: the closure's period is over, it is the last of it to be taken out and a later one is under way, or another subscription in force has its handler |
| Events.FaithfulByUseIff | src/events.ts:43-91 | the same theorem over the operations alone: frames always go to the right handlers if and only if no closure is run at such a time |
| Events.WhoIsCalled | src/events.ts:50-91 | from the operations alone: unless a closure is run at such a time, a frame calls exactly the handlers that some operation still in force subscribed to its type, each once, in the order of their first subscription in force |
| Events.SharedHandlerIsLost | src/events.ts:76-82 | one handler subscribed twice is gone after the first of its two closures |
| Events.StaleUnsubscribeDropsNewer | src/events.ts:77-82 | subscribe, unsubscribe, subscribe another, unsubscribe the first again: nobody is left |
| Events.DisciplinedRunsAreFaithful | src/events.ts:43-91 | closures run at most once, before any disconnect and not on a shared handler are never harmful |
| Renegotiation.RenegotiationWire.OnFrame | src/renegotiation.ts:57-62 | a frame hangs a waiting link on the chain while subscribed |
| Renegotiation.RenegotiationWire.StopListening | src/renegotiation.ts:81-82 | no frame joins any more |
| Renegotiation.RenegotiationWire.Resume | src/renegotiation.ts:57-78 | one turn of any link: it waits for the link before, skips on its rejection, begins its next operation, or runs its catch, counted as the code counts it |
| Renegotiation.RunKeepsInv | src/renegotiation.ts:53-78 | in every schedule a started link finds all earlier ones settled, the log fits the links, nothing is rejected, and the counters match the frames dealt with |
| Renegotiation.OffersNeverInterleaveIff | src/renegotiation.ts:57-78 | for every schedule at most one offer is under way and the operations begun are whole offers in arrival order, if and only if links are chained by then; none counts as applied without its post |
| Renegotiation.NeverRejectedIff | src/renegotiation.ts:58-61 | no link is ever rejected, in any schedule, if and only if the handler ends in the catch |
| Renegotiation.LaterOffersAreTriedIff | src/renegotiation.ts:57-62 | once drained every applicable offer was tried, whichever ones failed, if and only if failures are caught or nothing is chained |
| Renegotiation.DrainedCountsAgree | src/renegotiation.ts:76-77 | once drained, applied + failed is the number of matching frames exactly when no callback threw |
| Renegotiation.CountersTell | src/renegotiation.ts:57-78 | in every schedule `count()` is the number of frames whose four operations all succeeded; once drained `failures()` is the number of frames for this wire whose offer could not be parsed, or of which an operation failed or the callback threw |
| Renegotiation.OwnFramesCount | src/renegotiation.ts:65-78 | once drained, every frame of this neighbourhood and room with an offer is one or the other, and no other frame is |
| Renegotiation.OwnOffersAreAnsweredIff | src/renegotiation.ts:64-71 | no operation is ever begun for a frame of another neighbourhood or room or without a readable offer; once drained one was begun for every other |
| Renegotiation.LinksAreArrivals | src/renegotiation.ts:57-62 | the chain has one link for each frame that came before detach, in their order |
| Renegotiation.ThrowingCallbackCountsTwice | src/renegotiation.ts:76-77 | one offer with a throwing callback is counted as applied and as failed |
| Renegotiation.SomeLinkMoves | src/renegotiation.ts:57-62 | while any link is unsettled some link can move, whatever comes of it |
| Renegotiation.ChainDrains | src/renegotiation.ts:81-89 | every schedule of turns that change something is finite, within the turns left to take |
| Renegotiation.DetachDrainsIff | src/renegotiation.ts:81-89 | awaiting the last link is awaiting all of them, if and only if links are chained |
| Renegotiation.NothingStartsAfterDetach | src/renegotiation.ts:81-91 | once detach returns, nothing starts again whatever still arrives |
| GroupStore.GroupShim.Touch | infra/ap-group-shim.mjs:37-44 | the group of that name, made empty on first use |
| GroupStore.GroupShim.Reflect | infra/ap-group-shim.mjs:86-94 | files a new activity in all three indexes and ignores a known id |
| GroupStore.GroupShim.Handle | infra/ap-group-shim.mjs:102-195 | the answer to every request and the whole store after it: which group comes into being, and that no content changes except by a delivery |
| GroupStore.StoreIsTouched | infra/ap-group-shim.mjs:37-44 | after every history the groups that exist are exactly those some request touched |
| GroupStore.HealthCountsGroups | infra/ap-group-shim.mjs:106-109 | the health check reports the number of different groups touched so far |
| GroupStore.ReachableIsConsistent | infra/ap-group-shim.mjs:37-94 | after every history the order lists each stored key once and nothing else, and the diff index holds the latest accepted activity of each diff id and nothing else |
| GroupStore.OutboxStep | infra/ap-group-shim.mjs:133-172 | one request appends exactly the delivered activity if it is new to its group; Follow, Undo, re-delivery, every GET and every error change nothing |
| GroupStore.OutboxOnlyGrows | infra/ap-group-shim.mjs:160-172 | an earlier outbox is a prefix of every later one |
| GroupStore.OutboxIsServed | infra/ap-group-shim.mjs:160-172 | after every history GET outbox returns exactly what was posted to the group, in order, without Follow, Undo and whatever repeats the name of an earlier activity |
| GroupStore.ItemsAreKept | infra/ap-group-shim.mjs:86-94 | that is what the group holds |
| GroupStore.DeliveryIff | infra/ap-group-shim.mjs:120-147 | an activity is filed exactly by a POST of it to the inbox path of the group, if it is no Follow and no Undo |
| GroupStore.MembershipIsNotContent | infra/ap-group-shim.mjs:141-150 | Follow and Undo are acknowledged and file nothing anywhere |
| GroupStore.SubRoutes | infra/ap-group-shim.mjs:133-195 | the answers below a group, path by path: 202 or 400 for a POST to the inbox, 405 for any other verb but GET, an empty collection of followers, 404 for unknown names; and which of these requests bring the group into being |
| GroupStore.GroupRoute | infra/ap-group-shim.mjs:190-192 | the group itself is answered with its actor document, and is not brought into being |
| GroupStore.NoRoute | infra/ap-group-shim.mjs:120-130 | 404 for every other path, and without a group id |
| GroupStore.DiffTouches | infra/ap-group-shim.mjs:183-184 | asking for a diff brings the group into being |
| GroupStore.SummaryTells | infra/ap-group-shim.mjs:111-117 | the summary lists the groups touched so far with the size of each outbox and the number of different diffs in it |
| GroupStore.RedeliveryIsIgnored | infra/ap-group-shim.mjs:89 | an activity with an id is never taken twice, whatever happened in between |
| GroupStore.AnonymousIsDroppedIff | infra/ap-group-shim.mjs:88-89 | an activity without id is dropped exactly when an earlier explicit id is the name made up for it |
| GroupStore.AnonymousIsKept | infra/ap-group-shim.mjs:88-89 | if no explicit id starts with the reserved prefix, every anonymous activity is kept |
| GroupStore.AnonymousCanBeDropped | infra/ap-group-shim.mjs:88-89 | an explicit "__anon-1" makes the second, anonymous activity disappear |
| GroupStore.DiffUrlRoundTrip | infra/ap-group-shim.mjs:46-83 | the path of a diff url segments back into its group and diff id, and the diff id is found in the url |
| GroupStore.DiffIdIff | infra/ap-group-shim.mjs:78-83 | an activity id names a diff exactly if it ends in `/diffs/` and one more segment |
| GroupStore.FetchReturnsLatest | infra/ap-group-shim.mjs:183-188 | after any history a GET of a diff url returns the latest accepted activity with that diff id, and 404 exactly when there is none |
| GroupStore.InboxDelivers | infra/ap-group-shim.mjs:120-146 | a POST to a group's inbox url reaches that group |
| GroupStore.PostedDiffIsFetched | infra/ap-group-shim.mjs:133-188 | a new activity posted under its own diff url is what the next GET of that url returns |
| Numerals.DecimalIsInjective | src/client.ts:100 | different numbers print differently |
| Numerals.DecimalReadsBack | src/client.ts:100 | a printed number reads back and has no leading zeros |
| Mesh.MeshHost.GetPeer | src/mesh.ts:38-45 | the connection towards a host, made once and kept |
| Mesh.PairPeers | src/peer.ts:667-686 | the first side offers, the second answers |
| Mesh.ConnectPair | src/mesh.ts:112-114 | two hosts that do not know each other get one connection each, offerer and answerer, and keep all others |
| Mesh.PairingIsProgress | src/mesh.ts:110-116 | every pairing of the nested loops is between hosts not yet connected and extends the mesh by exactly that pair |
| Mesh.ConnectRow | src/mesh.ts:111-115 | the inner loop pairs one host with every later one |
| Mesh.ConnectAll | src/mesh.ts:108-118 | from fresh hosts with distinct ids: n(n-1)/2 pairings, each host ends with exactly the other ids as keys, and every connection was used once, in one role |
| Mesh.ConnectionsAreDistinct | src/mesh.ts:38-45 | all connections of a full mesh are distinct objects |

## Left out

- Processes, Docker, network, files, reporters, configuration and the scenarios that only time calls: input and output without an algorithm of their own.
- The SFU servers: an environment that accepts or redirects as it likes (`ClusterJoin.Cluster`, `reply` in `RedirectLoops`); link languages, the waker and the sync back ends are other repositories.
- Floating point: numbers are exact reals, so rounding, the 16-bit quantisation of samples and the accumulated error of `t += 1 / sampleRate` are not modelled; percentile indexes are exact integer quotients.
- Fingerprinter.WindowIsReported: magnitudes are compared squared, without `Math.sqrt`, and `Math.cos` is a table of primitive n-th roots of unity, each a power of the finer ones, whose existence is taken from analysis; candidate frequencies are whole and not negative.
- Fingerprinter.SpeakerIsReported: the tone sent falls exactly on a bin of the window (an even frequency) that is not its own mirror image; a tone between two bins reads on both, at a level that depends on its phase. Every frame reaches the sink unaltered; codec and transport are not modelled.
- JSON and UTF-8 are opaque: `parse` is any partial function, a chunk is decoded text. The deadline of the event-stream reader is the number of rounds it allows.
- EventStreams.EncodingIsRead: of the standard's fields only `data` is kept, since the reader looks at no other; event types, ids and reconnection times are not modelled.
- URL parsing: the shim's `pathname` is taken as given, so group and diff ids are names that a URL leaves alone; response headers and the JSON-LD wrapping of collections are not modelled.
- Group objects are values in a map and reassigned, where the shim mutates one object; nothing else holds them.
- Joins that throw (a rejected `callJoin`), the redirect counters kept for reports, labels and logging. T2 to T4 keep their distribution counts the way S3 does and throw where it counts an overflow; only S3 is modelled as a whole scenario.
- Monitor.MonitorLoop: without the sleep, the work done when a timer fires, and the one sample taken after the loop; the loops of S15 are the same with two or three timers.
- S15's rounded contributions, its start and end figures and its own verdict thresholds: folds over the same slope.
- RpcClient: request parameters, error texts and the promise returned by `connect` are left out; an answer's id "" stands for a missing or falsy id.
- Renegotiation.DrainedCountsAgree: `sdpOffer` texts are parsed by any predicate; the WebSocket behind `detach` is the one of `Events`; a turn of a link stands for the microtasks between two awaits.
- Events.FaithfulIff: handlers do not subscribe or unsubscribe during a dispatch; Set objects are named by the order of their creation, and handlers that throw are logged and skipped.
- Mesh.ConnectAll: media streams, ICE candidates, statistics and closing are left out; `getPeer` runs to its end before the next call, as in the loop.
