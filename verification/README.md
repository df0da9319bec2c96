# Verified model of the MAV agent's control-safety kernel

The agent links a MAVLink autopilot to a remote operator over STOMP. This project models the parts
of it where safety hangs on ordering, time or arithmetic, and proves what they guarantee over whole
runs and for all inputs. `dafny verify dfyconfig.toml` checks everything.

| file | what it models |
|---|---|
| `Control.dfy` | the control session: gates, dead-man tick, GOTO keep-alive, connection life cycle, as a class and as a step function |
| `ControlRuns.dfy` | theorems over runs of atomic steps: authorisation, bounded response, provenance |
| `ControlSplit.dfy` | the same handlers cut at their lock sections, refinement to the atomic step, and the races |
| `SplitRuns.dfy` | runs of those sections in every interleaving: what the session remembers, the form of stops, where GOTOs come from, and the exact condition of each race |
| `SplitTiming.dfy` | by when the dead-man acts in such runs, from between or in the middle of its iterations |
| `SplitGates.dfy` | what a command that goes out in such a run has passed, and when one instant would have permitted it |
| `Pulse.dfy` | the first of a series of instants that reaches a deadline |
| `Vehicle.dfy` | the heartbeat lock, mode decoding and status history behind the eligibility test |
| `Gimbal.dfy` | the slew loop, its convergence measure, and its two-section step interleaved with commands |
| `WsStream.dfy` | the byte stream over WebSocket messages |
| `Sorting.dfy`, `Strings.dfy`, `Common.dfy` | sort.Slice by its contract and when sorting is canonical; the string functions used; durations and 64-bit wrap-around |
| `VideoModes.dfy`, `Ladder.dfy`, `AttemptList.dfy`, `ModeOrder.dfy` | camera modes, mode selection, tiers and the attempt ladder; what the list means for a configuration and camera; what the order of the modes can change |
| `TurnSelect.dfy` | the two TURN choosers |
| `Config.dfy` | defaults, validation, saving, pairing |
| `Capabilities.dfy` | the advertised capability list against the control gates |
| `LoginThrottle.dfy`, `Mailbox.dfy`, `IceRefresh.dfy` | the re-login throttle, the room mailbox with its supervisor, the ICE refresh schedule |

Objects the source updates in place are classes whose methods equate their new state with a
specification function of the old one; the theorems are about those functions and their runs.
Instants and durations are integers in nanoseconds and Go's zero time is `None`. Floats are exact
reals; integers are unbounded except where 64-bit wrap-around can be reached, and there it is explicit.

## What the proofs found

These are places where the code does not do what one would state first. Each has an exact condition
or a concrete run in the model.

- Revoking the backend policy does not silence an active GOTO: ticks consult the local flag only
  (`RevocationDoesNotCancelGoto`).
- A control that lands inside a stopping tick can be left with the failsafe flag raised, so the next
  stop comes one re-issue period after the last one instead of one timeout after the control
  (`StrayStopDelaysDeadMan`, `PromptDeadlineIff`).
- An arrival check that straddles a new GOTO drops the new one from keep-alive
  (`StaleArrivalDropsNewGoto`, `ArrivalEndsItsOwnGotoIff`); a re-send that straddles a manual control
  changes the form of the next stop (`StaleMarkChangesStopForm`, `StopFormIsRightIff`); a tick between
  the note and the mark of a GOTO sends it a second time (`NotedGotoIsSentTwice`, `SnapshotReissuesIff`).
- The gates of a control message are read one after the other, so a command can pass that no single
  instant would permit (`PatchworkIsForwarded`); at each of the three reads it is known exactly when
  that instant would have (`OneInstantIff`).
- A TURN or STUN URL whose scheme is in capitals gets a second scheme put before it
  (`CapitalSchemeIsDoubled`).
- A gimbal step shorter than half a degree never leaves centre (`LeavesCenterIff`).
- ICE credentials that live no longer than a minute, two request latencies and the time a restart
  holds the loop can expire before their replacement is applied; where latencies and hold come to a
  minute or more, five times their sum is needed (`AlwaysAliveIff`).
- If a newer room fails to start, an older one it overwrote in the channel is lost
  (`CoalescingIsInvisibleIff`); the present stream manager starts every positive room
  (pkg/stream/janusvr_sink.go:210-243).
- An empty data message reads as end of file (`EmptyMessageLooksLikeEof`).
- A Retry-After above 9223372036 seconds overflows, and the next second up is a negative wait
  (`WaitIsExactIff`, `HugeWaitIsNegative`).
- After a failed ICE fetch a forced relay revives a stored TURN URL without credentials
  (`StaleTurnRevivedIff`).
- The frame rate of a tier no preferred format has can hang on Go's map order, and with it the attempt
  list (`TierRateIsCanonicalIff`, `AttemptsAreCanonicalIff`, `OrderCanMatter`).
- The comparison in the mode sort ends in a third criterion that compares an entry with itself
  (pkg/stream/janusvr_sink.go:1635-1637); the model follows the code, which ranks by score and rate.

## Model

| member | source | states |
|---|---|---|
| ControlRuns.ForwardedIffPermitted | pkg/stomp/session.go:921-993 | over any run of atomic steps, a control message is forwarded, unchanged, exactly when the history up to its receipt permits it: latest counting heartbeat armed and in an allowed mode, local config, latest policy if any, aircraft gate, per-kind gate |
| ControlRuns.DeadManFirstStop | pkg/stomp/session.go:628-692 | with ticks at most d apart and nothing accepted since, the vehicle is stopped in [t0 + staleAfter, t0 + staleAfter + d) in the form the last control fixes, and not before |
| ControlRuns.NextAction | pkg/stomp/session.go:642-692 | every later stop, and every later GOTO re-send, repeats the one before it one period later, within d, with nothing between |
| ControlRuns.GotoKeptAlive | pkg/stomp/session.go:642-654 | an accepted GOTO is sent again to the same target in [t0 + 1 s, t0 + 1 s + d) until reached, whatever policies arrive |
| ControlRuns.BoundedResponse | pkg/stomp/session.go:621-693 | from any state with ticks at most d apart: a deadline still ahead is met less than d late, one that has passed by the very first tick, within d of the start; the action is the due one and nothing happens before |
| ControlRuns.ReconnectStopsStale | pkg/stomp/session.go:597-693 | a reconnect with control older than staleAfter is answered by one more stop of the right form at most d later, whatever was stopped before |
| ControlRuns.ReissueProvenance | pkg/stomp/session.go:642-671 | whatever a tick applies is a GOTO whose body is exactly the latitude, longitude and altitude of the latest accepted control, itself a GOTO, 0 for a missing one; a tick that starts with a GOTO active never stops |
| ControlRuns.ReissueSpacing | pkg/stomp/session.go:645-652 | with atomic handlers a re-issue is at least one second after every earlier GOTO send |
| ControlRuns.StopFitsLastControl | pkg/stomp/session.go:672-728 | with atomic handlers every stop fits the last accepted control: zero velocity after velocity or GOTO, zero thrust after attitude, else the configured throttle and steering values, each on its own channel, as they are within 1000..2000 and the nearer bound otherwise; ticks emit none before the first control |
| Control.PeriodsAreMilliseconds | pkg/stomp/session.go:600-609 | timeout and re-issue period are the configured milliseconds, 450 and 500 where nothing positive is configured, up to the 64-bit limit |
| ControlRuns.DisconnectStopsPerConnection | pkg/stomp/session.go:580-619 | a disconnect stops the vehicle twice, in that same form, and again only after a new connection |
| ControlRuns.ArrivalIff | pkg/stomp/session.go:622-668 | over any run a tick ends an active GOTO exactly when the loop runs with link and local control, the frames show a ready vehicle, and the position is a fix with 0.0 <= distance <= 2.0 metres |
| ControlRuns.ArrivalHandsOver | pkg/stomp/session.go:656-668 | once arrival is seen, the dead-man deadline is staleAfter past the latest event of the run that sent a GOTO, as a velocity stop |
| ControlRuns.RevocationDoesNotCancelGoto | pkg/stomp/session.go:625-654 | a run in which a policy denies everything and the next due tick still re-sends the GOTO |
| Control.GateIsGreatestLowerBound | pkg/stomp/session.go:260-283 | the effective gate is the greatest gate below config and policy that keeps an unpermitted aircraft uncontrolled |
| Control.GateIsMonotone | pkg/stomp/session.go:260-283 | the effective gate is monotone in config and policy, and an aircraft's is below any other's |
| Control.Session.Decide | pkg/stomp/session.go:921-945 | the receiving gate accepts exactly the permitted kinds; the reported reason is "unknown" exactly then, and otherwise names a gate that really fails |
| Control.Session.HandleControl | pkg/stomp/session.go:921-993 | one control message takes the session to the specified next state and makes exactly the specified calls |
| Control.Session.FailsafeTick | pkg/stomp/session.go:616-693 | the same for one dead-man iteration; any stop fits the last control, and an enabled iteration keeps an active GOTO exactly unless a fix is within two metres |
| Control.Session.SafeCloseStop | pkg/stomp/session.go:580-619 | the same for a disconnect, the loop's own exit stop included; both stops fit the last control |
| Control.Session.StartLoop | pkg/stomp/session.go:524-534 | the same for a new connection |
| Control.Session.SetPolicy | pkg/stomp/session.go:165-170 | the same for a policy message |
| ControlSplit.TickRefinesAtomic | pkg/stomp/session.go:621-728 | the lock sections of one dead-man iteration, run without interference, add up to the atomic tick |
| ControlSplit.ControlRefinesAtomic | pkg/stomp/session.go:921-993 | the lock sections of one control message, its three gate reads among them, add up to the atomic handler |
| SplitRuns.ReissueFromSnapshot | pkg/stomp/session.go:631-653 | under every interleaving a re-send carries the GOTO that was latest when its tick took the snapshot, and is the only one since |
| SplitRuns.AtMostOneStaleReissue | pkg/stomp/session.go:631-653 | after a cancel or retarget at most one stale re-send follows |
| SplitGates.DecidedIffPermitted | pkg/stomp/session.go:921-959 | under every interleaving a message is let through exactly when the history permits it gate by gate: the frames before the first read show a ready vehicle, those before the second its type, the policy before the third and the config allow the rest; otherwise it is gone |
| SplitGates.ForwardedWasAdmitted | pkg/stomp/session.go:921-986 | whatever is applied and is no re-send passed these three reads, each at its own later instant since its receipt, is unchanged and goes out once |
| SplitGates.OneInstantIff | pkg/stomp/session.go:921-945 | exactly when all gates hold together at each of the three reads: at the decision, when the vehicle is still ready and no type that may not fly came up; at the earlier ones, given no policy since, when type and readiness agree |
| ControlSplit.PatchworkIsForwarded | pkg/stomp/session.go:921-986 | the race in which a command goes out though every state on the way would refuse it |
| SplitRuns.ArrivalEndsItsOwnGotoIff | pkg/stomp/session.go:656-668 | the GOTO an arrival ends is the one its snapshot saw exactly when no control was noted since; otherwise it is a new GOTO nobody looked at |
| SplitRuns.CheckEndsIff | pkg/stomp/session.go:656-668 | under every interleaving an arrival check ends the active GOTO exactly at a fix with 0.0 <= distance <= 2.0 metres |
| SplitGates.LookIffReady | pkg/stomp/session.go:622-629 | an iteration gets past its first look exactly with a link, local control and frames that show a ready vehicle |
| SplitRuns.KindAfterControl | pkg/stomp/session.go:648-652 | under every interleaving the remembered kind is that of the latest noted control exactly unless a re-issue was marked since, and GOTO then |
| SplitRuns.StopFormIsRightIff | pkg/stomp/session.go:696-728 | any stop that goes out fits the control noted last when its kind was read exactly unless a re-issue was marked in between and that control wants another than a velocity stop, which goes out instead |
| SplitRuns.FlagAfterControl | pkg/stomp/session.go:688-690 | the failsafe flag is up exactly when a stop was written back after the latest noted control |
| SplitRuns.PromptDeadlineIff | pkg/stomp/session.go:676-691 | over any interleaving the deadline is staleAfter past the last activity exactly when no stop was written back since the latest noted control or the latest stop is a period older; else one re-issue period after that stop |
| SplitRuns.SnapshotStopsIffDue | pkg/stomp/session.go:631-684 | a snapshot with no GOTO active finds the vehicle to stop exactly when that deadline has come |
| SplitTiming.BoundedResponse | pkg/stomp/session.go:621-691 | from a state in which no GOTO is active and the iteration has nothing left to send, with snapshots at most d apart and each stop within e of its snapshot: the vehicle is stopped in [deadline, deadline + d + e), or within d + e if the deadline has passed, and the dead-man sends nothing before |
| SplitTiming.MidwayResponse | pkg/stomp/session.go:621-691 | from any state with no GOTO active, the middle of an iteration included: that iteration ends within d and sends at most once more, and then the first thing sent is the stop, within the longer period, d and e of that end |
| SplitTiming.DeadManWorstCase | pkg/stomp/session.go:621-728 | so for a manual control noted last, whatever the iteration under way is doing: it is answered by a stop in that time, never before staleAfter past the gates, which fits it exactly unless that iteration marked a re-issue over it and it wants another than a velocity stop |
| SplitTiming.DeadManFirstStop | pkg/stomp/session.go:621-691 | if the iteration had nothing left to send when that control was noted, the fitting stop comes in [t0 + staleAfter, t0 + staleAfter + d + e), t0 being when it passed the gates |
| SplitTiming.KeepAliveResponse | pkg/stomp/session.go:642-654 | an active GOTO is sent again in [mark + 1 s, mark + 1 s + d + e), or within d + e if that second is over or nothing was marked, with nothing sent by the dead-man before |
| SplitTiming.KeepAliveWorstCase | pkg/stomp/session.go:642-654 | the same from the middle of any iteration: it ends within d, sends at most once more, and then the target of the latest noted GOTO goes out, at least a second after the latest mark and within a second, d and e of that end |
| SplitRuns.SnapshotReissuesIff | pkg/stomp/session.go:642-654 | a snapshot re-sends the active GOTO exactly when nothing was marked since it was noted, or the latest mark is a second old |
| SplitRuns.ReissuesAreSpaced | pkg/stomp/session.go:642-654 | two re-sends are a second apart unless a GOTO was noted or marked by its stream in between |
| ControlSplit.NotedGotoIsSentTwice | pkg/stomp/session.go:961-993 | the race that sends a fresh GOTO twice at one instant, from any state |
| ControlSplit.StrayStopDelaysDeadMan | pkg/stomp/session.go:684-691 | the race that makes it late, and by how much, for every configuration |
| ControlSplit.StaleArrivalDropsNewGoto | pkg/stomp/session.go:656-668 | the race that drops a fresh GOTO from keep-alive |
| ControlSplit.StaleMarkChangesStopForm | pkg/stomp/session.go:645-653 | the race that changes the form of the next stop |
| Vehicle.LinkFollowsHistory | pkg/mavlink/mavlink.go:285-350 | over any frame sequence the lock is the first heartbeat, not from ourselves, with autopilot 3 and a type other than 6; armed, type and mode decode the latest heartbeat that counts, and the first-heartbeat requests go out at most once |
| Vehicle.LockIsSetIff | pkg/mavlink/mavlink.go:310-332 | after any history without a lock, a frame sets it exactly when it is such a heartbeat, and then to its own system and component |
| Vehicle.LockIsForever | pkg/mavlink/mavlink.go:310-330 | once locked, more frames never move the lock, and only heartbeats of the locked system change the view |
| Vehicle.StatusIsSuffix | pkg/mavlink/mavlink.go:427-437 | the kept status messages are always the last maxStatusLen of the history |
| Vehicle.EligibleInRawFields | pkg/mavlink/mavlink.go:1254-1289 | eligibility in raw heartbeat fields, through the mode tables of each vehicle family |
| Vehicle.ModesTellCodesApart | pkg/mavlink/mavlink.go:1423-1545 | within a vehicle family the decoded mode tells custom mode codes apart |
| Vehicle.MavlinkConnection.HandleFrame | pkg/mavlink/mavlink.go:223-394 | one frame takes the connection to the specified next state |
| Gimbal.AxisConverges | pkg/mavlink/mavlink.go:638-717 | an axis is at its target (or centre, inside the snap zone) after n + 1 steps for every n whose minimal steps cover the distance, despite the snap |
| Gimbal.MeasureDrops | pkg/mavlink/mavlink.go:638-717 | the measure behind it: distance plus one step while centre lies between drops by a full step each time |
| Gimbal.LeavesCenterIff | pkg/mavlink/mavlink.go:638-717 | the step-size hypothesis is exact |
| Gimbal.StuckForever | pkg/mavlink/mavlink.go:638-717 | with shorter steps an axis at centre never moves |
| Gimbal.QuietCentres | pkg/mavlink/mavlink.go:686-729 | once the UI is quiet the loop reaches exact centre and switches itself off within the steps that cover the way |
| Gimbal.CommandIsReached | pkg/mavlink/mavlink.go:668-717 | while every step comes at most 350 ms after the command or a repetition of it, both axes reach what it asks for (up to 2.0 a fraction of 90 and 45 degrees, more as degrees, 180 and 90 at most; centre within half a degree of it) in one step more than covers the way at 220 and 140 degrees a second |
| Gimbal.LiveRate | pkg/mavlink/mavlink.go:684-708 | a live step turns by exactly 220 and 140 degrees per second since the last one, a quarter second at most, and by 11 and 7 degrees the first time; the next step counts from it |
| Gimbal.SentPosesAreSlow | pkg/mavlink/mavlink.go:668-748 | under every interleaving consecutive poses sent to the mount differ by at most a quarter second at full rate plus a final snap, however late a step runs |
| Gimbal.AxisStepIsSafe | pkg/mavlink/mavlink.go:638-717 | a step stays within range, never parks inside the snap zone and never exceeds the rate but for the snap |
| Gimbal.WorldAlwaysOk | pkg/mavlink/mavlink.go:668-748 | under every interleaving of commands with the two-section step: ranges hold, a computed pose is within one slow step of the one it replaces, an inactive mount is centred, and the last command before silence is exact centre |
| Gimbal.DeactivatesOnlyWhenQuiet | pkg/mavlink/mavlink.go:719-729 | the loop switches off only more than 350 ms after the latest command, one landing mid-step included |
| Gimbal.GimbalMount.Compute | pkg/mavlink/mavlink.go:668-717 | the computed pose is the specified one and within limits |
| Gimbal.GimbalMount.DriveStep | pkg/mavlink/mavlink.go:668-748 | a whole step computes, writes back and emits the specified pose, or does nothing when inactive or unconnected |
| Gimbal.GimbalMount.ApplyGimbal | pkg/mavlink/mavlink.go:1067-1102 | a command sets the target to what it asks for, in degrees, and wakes the loop, and keeps the mount invariant |
| WsStream.ReadsConcatenate | pkg/stomp/wsconn/wsconn.go:122-136 | bytes returned so far followed by the undelivered ones are the concatenation of all data payloads, for every message and buffer sequence |
| WsStream.ReadsDeliverEverything | pkg/stomp/wsconn/wsconn.go:122-136 | without empty messages, as many reads as there are bytes return them all |
| WsStream.ReadIsFaithful | pkg/stomp/wsconn/wsconn.go:122-136 | one read's contract: conservation, progress, errors only when drained, end of file exactly at an empty data message |
| WsStream.EmptyMessageLooksLikeEof | pkg/stomp/wsconn/wsconn.go:130-135 | an empty data message ends the stream for the reader although data follows |
| WsStream.WSConn.Read | pkg/stomp/wsconn/wsconn.go:122-136 | the reader moves to the specified next state and fills exactly a prefix of the caller's buffer |
| VideoModes.Group | pkg/device/video_caps.go:91-137 | the groups are exactly the reported (format, size) pairs, with exactly the positive rates reported for each |
| VideoModes.ProbeGivesMode | pkg/device/video_caps.go:91-137 | a format line, a size line and a positive rate line in a row give a group of that format in capitals and that very size with that rate |
| VideoModes.NoSizeNoReport | pkg/device/video_caps.go:105-137 | after a format line nothing is reported before the next size line |
| VideoModes.SortRates | pkg/device/video_caps.go:149-156 | the in-place exchange sort orders the rates and loses none |
| VideoModes.Flatten | pkg/device/video_caps.go:142-159 | one mode per group with ascending rates, in an order left open |
| VideoModes.ListingsAgree | pkg/device/video_caps.go:142-159 | whatever that order, the same modes come out |
| VideoModes.BestMatch | pkg/device/video_caps.go:165-227 | the first minimiser of the score among preferred-format modes, else among all |
| VideoModes.MatchIsNearest | pkg/device/video_caps.go:165-227 | for camera sizes the match is in the preferred format if any mode is, in any case, and nearest in width, height and rate together |
| VideoModes.RealModesAreFound | pkg/device/video_caps.go:165-227 | for real camera sizes a mode is found exactly when there is one |
| VideoModes.ScoreIsExact | pkg/device/video_caps.go:175-197 | for such sizes the 64-bit score is the exact sum of squares with the nearest rate |
| VideoModes.ClosestFPS | pkg/stream/janusvr_sink.go:1643-1656 | the listed rate closest to the target, the higher of two equally close |
| VideoModes.PickBestMode | pkg/stream/janusvr_sink.go:1566-1641 | a listed mode, in the requested format if any is: the first of exactly the requested size if there is one, else one no other beats on score then rate; its rate is its closest listed one |
| VideoModes.ScoreInWords | pkg/stream/janusvr_sink.go:1607-1630 | the score is the size distance, two per frame off, and, with no format asked for, five per place in the format order |
| Ladder.CapsTiers | pkg/stream/janusvr_sink.go:1285-1327 | the tiers are exactly the usable resolutions in the allowed formats, strictly descending by area then width |
| ModeOrder.TiersAndStartAreCanonical | pkg/stream/janusvr_sink.go:1277-1357 | tiers and start index are the same for every order of the modes |
| ModeOrder.FlatteningsArePermutations | pkg/device/video_caps.go:142-159 | any two map orders of one probe give such permutations |
| Ladder.StartIndex | pkg/stream/janusvr_sink.go:1336-1357 | the first tier closest to the requested size |
| Ladder.ChooseTierFPS | pkg/stream/janusvr_sink.go:1360-1400 | the closest rate of the first mode in the first preferred format that has the resolution, else of the first mode there with rates |
| Ladder.TierRateIsCanonicalIff | pkg/stream/janusvr_sink.go:1360-1400 | a tier's rate is the same for every order of the modes exactly when a preferred format has it or all modes there agree |
| Ladder.BuildVideoAttempts | pkg/stream/janusvr_sink.go:1237-1449 | the attempts are exactly every tier from the start on, with every available encoder, raw and MJPG if enabled, at its rate, in strictly the specified order and number |
| AttemptList.AttemptedIff | pkg/stream/janusvr_sink.go:1218-1448 | over configuration, camera and elements alone: the list starts at the offered size nearest to the configured one (640 by 360 without one), and holds raw and, with a decoder, MJPG attempts with exactly the available encoders at exactly the offered sizes not above that one |
| AttemptList.ExactSizeComesFirst | pkg/stream/janusvr_sink.go:1336-1357 | a configured size on offer is attempted first and nothing above it at all |
| AttemptList.NothingToTryIff | pkg/stream/janusvr_sink.go:1402-1448 | the list is empty exactly when there is neither a VP8 encoder nor, unless VP8 alone is asked for, one of the two H.264 encoders |
| AttemptList.RateFollowsFormats | pkg/stream/janusvr_sink.go:1360-1400 | an attempt's rate is the target (15 by default, 30 at most) without a camera list, else the nearest rate in the first of MJPG if usable, the configured format, MJPG, YUYV that has the size, else of some mode of that size |
| Ladder.LadderOrder | pkg/stream/janusvr_sink.go:1402-1448 | no duplicates, H.264 before VP8, 64-bit areas never growing nor beyond the start tier's, MJPG before raw, hardware encoder before software |
| ModeOrder.AttemptsAreCanonicalIff | pkg/stream/janusvr_sink.go:1237-1448 | the whole list is the same for every order of the modes exactly when there is no encoder or every tier from the start on has its mode in a preferred format or one rate for all modes |
| ModeOrder.OrderCanMatter | pkg/stream/janusvr_sink.go:1360-1400 | a camera for which the order decides between 30 and 10 frames a second |
| TurnSelect.ChoosersAgree | pkg/stream/janusvr_sink.go:105-115 | for every backend answer the sink's list is the stored one, its choice the URL already chosen, and forcing relay changes no URL |
| TurnSelect.NormalizeIsIdempotent | pkg/config/ice_config.go:199-216 | normalising twice changes nothing |
| TurnSelect.SchemeIsWrittenOut | pkg/config/ice_config.go:199-216 | "turn:h", "turns:h" and "stun:h" become "turn://h", "turns://h" and "stun://h" |
| TurnSelect.CapitalSchemeIsDoubled | pkg/config/ice_config.go:199-216 | "TURN:h" becomes "turn://TURN:h" |
| TurnSelect.WrittenOutIsKept | pkg/config/ice_config.go:199-216 | a URL with its scheme written out is only trimmed |
| TurnSelect.AllUrlsAre | pkg/config/ice_config.go:218-256 | the URLs read from an answer are exactly the non-blank ones of its entries, normalised |
| TurnSelect.TurnListIsCanonical | pkg/config/ice_config.go:242-279 | the stored list is duplicate-free and holds exactly the answer's TURN URLs |
| TurnSelect.TurnListGrows | pkg/config/ice_config.go:242-279 | in the order of the answer: reading further only appends |
| TurnSelect.PreferredIsFirstBest | pkg/config/ice_config.go:291-318 | the chosen URL is the first of the best rank: UDP on 3478, UDP on 443, TLS over TCP on 443, others |
| TurnSelect.CredentialsAreFirst | pkg/config/ice_config.go:246-250 | user and password come from the first entry that has both |
| TurnSelect.StunIsFirst | pkg/config/ice_config.go:260-263 | the STUN URL is the first of the answer |
| TurnSelect.SelectionInWords | pkg/config/ice_config.go:274-289 | without a STUN URL the public one is selected; without a TURN URL no user and password are |
| TurnSelect.StaleTurnRevivedIff | pkg/config/ice_config.go:33-43 | after a failed fetch a forced relay leaves the empty URL alone exactly when nothing is stored |
| TurnSelect.IceSource.SelectForGStreamer | pkg/config/ice_config.go:188-327 | the stored list and the selected STUN, TURN and credentials are the specified ones |
| TurnSelect.ChooseForForceRelay | pkg/stream/janusvr_sink.go:863-887 | the streaming side's three passes pick the same preferred URL |
| TurnSelect.SetIce | pkg/stream/janusvr_sink.go:83-115 | with the override applied, a forced relay uses the preferred URL of the sink's list |
| TurnSelect.ForcedRelayUsesBest | pkg/stream/janusvr_sink.go:83-115 | the override decides on forcing, a forced relay uses the first URL of the best rank in the sink's list, and nothing else changes |
| TurnSelect.NormalizeTurnList | pkg/stream/janusvr_sink.go:838-861 | trimming, de-duplication and appending as specified |
| TurnSelect.SinkListIsCanonical | pkg/stream/janusvr_sink.go:838-861 | that list holds exactly the trimmed non-blank URLs, without repetition, the single URL last if new |
| Config.DefaultsAreIdempotent | pkg/config/config.go:167-304 | defaulting twice changes nothing, even in another environment |
| Config.CompleteIffFixpoint | pkg/config/config.go:167-304 | the fixpoints of the defaults are exactly the complete configurations |
| Config.AcceptedReloads | pkg/config/config.go:323-448 | what SaveConfig accepts reloads unchanged, whatever the environment has become, with all rate and failsafe ranges |
| Config.AcceptedIff | pkg/config/config.go:334-448 | what is accepted, in numbers and names |
| Config.SpellingIsForgotten | pkg/config/config.go:330-333 | capitals and white space in codec, encoder and profile make no difference to what is saved |
| Config.EmptyGetsDefaults | pkg/config/config.go:167-304 | every default value: RC override off, GOTO on, 450 and 500 ms, 1500 and 1500, VP8 at 2 Mbit/s, and the rest |
| Config.SetFieldsStay | pkg/config/config.go:167-304 | what is set stays, field by field |
| Config.DefaultRatesInNumbers | pkg/config/config.go:240-274 | how the default rates hang on the codec and on one another |
| Config.JanusOrder | pkg/config/config.go:290-322 | the Janus URL is the configured one, else JANUS_URL, else derived from the backend's host with wss exactly for https, else local |
| Config.ThrustModeIsOnlyIff | pkg/config/config.go:206-222 | the mode that persists is forward-only exactly for its two spellings in any case |
| Config.SaveIsIdempotent | pkg/config/config.go:323-333 | saving what was saved changes nothing |
| Config.PairingReloads | pkg/config/config.go:487-514 | a paired configuration reloads with just its pairing changed, valid or not |
| Config.Store.SaveConfig | pkg/config/config.go:323-471 | accepted exactly when written and acceptable; otherwise file and global stay, though the passed object is normalised |
| Config.Store.SavePairing | pkg/auth/pairing.go:108-118 | token and id change and missing defaults are filled in; nothing else changes exactly when none was missing; the file follows |
| Config.Store.LoadConfig | pkg/config/config.go:150-165 | loading gives a fresh object with the file's configuration defaulted, and makes it the one in use |
| Config.ConfigCell.ApplyDefaults | pkg/config/config.go:167-321 | the field-by-field defaulting computes the specified configuration |
| Config.ConfigCell.Check | pkg/config/config.go:334-448 | the checks, made one by one, refuse exactly the unacceptable configurations; the hardware-encoder envelope among them never fires |
| Capabilities.AdvertisedIffAccepted | pkg/stomp/session.go:1312-1333 | in every state a kind is accepted exactly when the heartbeat of that state lists CONTROL and, for RC override and GOTO, that capability |
| Capabilities.DetectCapabilities | pkg/device/device.go:112-150 | the list is strictly sorted and holds each of the eight names exactly under its condition |
| Capabilities.CapabilityListIsUnique | pkg/device/device.go:145-149 | that list is the only one: the map order leaves no trace |
| LoginThrottle.LoginsAreSpaced | pkg/stomp/session.go:384-393 | consecutive re-logins are at least two minutes apart over any run |
| LoginThrottle.WindowBound | pkg/stomp/session.go:384-393 | a window of length w holds at most floor(w / 120 s) + 1 of them |
| LoginThrottle.RateLimitIsHonoured | pkg/stomp/session.go:375-413 | after a 429 no attempt is made before the noted instant, whatever later answers say |
| LoginThrottle.AttemptIff | pkg/stomp/session.go:375-413 | a refused handshake leads to a login exactly two minutes or more after the latest one and not before the latest rate limit ends |
| LoginThrottle.Start | pkg/stomp/session.go:361-429 | the loop attempts exactly the specified logins |
| LoginThrottle.WaitIsExactIff | pkg/auth/auth.go:157-185 | the wait is the body's seconds, else the header's, else 15 minutes, exactly and positive up to 9223372036 seconds |
| LoginThrottle.HugeWaitIsNegative | pkg/auth/auth.go:157-185 | one second more gives a negative wait |
| Mailbox.MailboxAlwaysOk | pkg/stomp/session.go:329-353 | under every interleaving nothing is dropped, received values are a subsequence of the enqueued, and after an enqueue the newest value is in the channel or was the last consumed |
| Mailbox.RoomChannel.EnqueueLatest | pkg/stomp/session.go:329-353 | without a receiver in between the channel ends up holding the new value |
| Mailbox.SupervisorIsInLastGood | cmd/mavagent/main.go:270-322 | the supervisor is in the room of the last received command that took effect, whatever the manager reports as running |
| Mailbox.CoalescingIsInvisibleIff | cmd/mavagent/main.go:297-322 | no interleaving leaves another room than processing every command would, exactly when the newest command takes effect or no room can be started |
| IceRefresh.DelayFits | cmd/mavagent/main.go:517-532 | 60 s up to a lifetime of two minutes, a minute before expiry up to five, 80% from there on, 720 s for an absent TTL; at least 60 s and before expiry exactly above a minute for every 64-bit TTL |
| IceRefresh.NeverExpired | cmd/mavagent/main.go:507-560 | over any run at the times the loop itself sets, with answers within a latency and restarts within a hold, and lifetimes above what the margin of these needs, at every instant the latest answer is applied and within its lifetime since issue |
| IceRefresh.AlwaysAliveIff | cmd/mavagent/main.go:507-560 | an answer survives until replaced in every such run exactly when its lifetime exceeds what m = two latencies and a hold need: a minute and m, or 5 m from a minute on (m up to three years) |
| IceRefresh.SlackIff | cmd/mavagent/main.go:517-532 | the delay leaves a margin m exactly for lifetimes above a minute and m, or above 5 m from a minute on, for every 64-bit TTL and m up to three years |
| IceRefresh.RefreshIn | cmd/mavagent/main.go:517-532 | the loop's arithmetic computes the specified delay |

## Left out

- Stream manager life cycle, GStreamer pipelines, Janus signalling, SDP handling, device probing, web UI, HTTP, STOMP and MAVLink transport: no model; the supervisor sees the manager as a room setter that can start a fixed set of rooms.
- `sysID == 0` in ApplyControl and the FailSafeStop helpers: the control model records the calls the session makes on the MAVLink connection, not the frames written; the gimbal model has the test.
- Command bodies other than GOTO and GIMBAL (RC, velocity, attitude): PWM mapping, type masks and quaternions are not modelled, nor is the POSITION kind, which no control stream delivers.
- Great-circle distance: a parameter of each tick, measured to the target in its snapshot.
- ShareGpsCoords and telemetry publishing: not part of the control decisions.
- The split model covers one connection: connects and disconnects appear in the atomic model only. Reading the position and ending a GOTO is one section.
- The split timing takes as given how far apart snapshots come (d, the interrupted iteration included) and how soon a send follows its snapshot (e); the ticker's own period is 100 ms (pkg/stomp/session.go:599).
- The ICE schedule takes the latency, the time a restart holds the loop and the age of the first answer as bounds; the HTTP client's limit of 6 s is at pkg/config/ice_config.go:127.
- Camera sizes are 32-bit unsigned, as V4L2 reports them; the size parser itself would take larger ones.
- Two streams of one kind, or a dead-man loop outliving its connection: not modelled; the close-and-stop of a disconnect is one atomic step.
- Draining of the room channel by a reconnect, and an old command handler still enqueueing beside a new one: the mailbox has one producer.
- auth.Login and its revoked-token exit: a login result is an input; the exit ends the run.
- String case is changed for ASCII letters only; no other letter can change the outcome of the URL and codec tests modelled.
- url.Parse, JSON, regular expressions and file-system errors other than a failed write: inputs, or the identity.
- Environment, clocks and map iteration order: parameters or open choices.
- Euclidean distance in pickBestMode: an arbitrary function, so the result holds for it whatever it is.
- Logging, and policyEqual, which only decides what is logged.
- NextIceRefreshDelay and keyIntForFps: plain clamps that would only add easy members.
