# A verified model of RustDesk's stateful kernels

RustDesk has no single large algorithm. It has a set of small kernels that keep
state between calls, are shared between threads or hosts, and rely on facts that
the code never states. This project models fifteen of them and proves what they
promise, for every input, every run and every interleaving.

Code that works in place is modelled by classes and loops, and each method is
proved equal to a function of the inputs or of the old state. The main results
are lemmas about these functions and about runs of them. Time is an integer
that never decreases. A `select!` is a free choice of the next step. The order
of a hash map is arbitrary. Library pieces (ring buffer, JSON reader, signature
check, compression, key-code translation) are parameters with a contract.

| file | part of the program |
|---|---|
| `audio_buffer.dfy`, `audio_runs.dfy` | jitter buffer with a drop rule that works on a histogram; its runs with packets of one size |
| `strings.dfy`, `lang.dfy` | renaming "RustDesk" in translations by three replace passes |
| `base64url.dfy`, `license_json.dfy`, `custom_server.dfy`, `host_name.dfy` | server settings in the installer's file name |
| `mediator.dfy` | registration timer, backoff and latency average |
| `id_conflict.dfy` | id-conflict repair shared by several rendezvous hosts |
| `keyboard.dfy` | keys held at the peer, exit shortcut, release of everything |
| `clipboard.dfy` | wire format and echo suppression between two ends |
| `rgba.dfy` | single-slot hand-off of decoded frames |
| `sessions.dfy` | registry of peers and UI sessions |
| `server.dfy` | which connection receives from which service |
| `port_forward.dfy` | login, then bytes both ways |
| `punch_udp.dfy`, `throttle.dfy`, `str2color.dfy` | punch pacing, throttled interval, colour hash |
| `video_handler.dfy` | decoding failures and unsupported codecs |

## What the proofs found

Some expectations that the code or its comments raise hold only under a
condition. Each is stated with that condition, and with an input that breaks it.

- **Three replace passes.** They equal one pass over the text for exactly those
  app names that do not begin with a proper ending of "RustDesk"
  (`PassesAgreeIff`). The guard against the full placeholder is not enough for
  texts with '#': half a placeholder directly before the app name also breaks
  the passes, and nothing else does (`PassesAgree`). `RebrandIff` states this for
  the whole closure, with and without a captured value.
- **Printed file names.** `naming.rs` prints "rustdesk-custom_serverd-...". That
  separator is not one the parser knows, so the parser reads no printed name
  back, unless the text happens to carry a signed message
  (`PrintedNameIsLost`). The round trip holds for the parser's own separators.
- **Written-out names.** Without a final comma a relay that ends in ".exe" loses
  that ending with the extension; otherwise the settings are read back
  (`HostNameRoundTripIff`).
- **Audio frames.** Rounding the dropped amount to an even number keeps frames
  whole at every sample rate for one and two channels only (`KeepsFramesIff`).
  For a given device and packet size, `DeviceKeepsFramesIff` says exactly when;
  44100 Hz with six channels and packets of 10 ms is not among those that keep
  them (`SurroundLosesFrames`).
- **Audio drops.** The comment "will not drop if buffered data is less than
  600ms" holds for a window exactly if its fullest tenth of a second lies below
  600 ms, or its occupancy once fell below 200 ms, or it never fell below 300 ms
  and the fullest tenth lies at 800 ms or more (`WindowSpares600Iff`). A stereo
  device at 48000 Hz with packets of 10 ms has a run in which 175 of 550 ms are
  dropped (`DropsBelow600Milliseconds`).
- **Latency.** A response without an outstanding timer request counts as a
  latency of zero and lowers every average but zero (`UntrackedResponse`).
- **Id conflict.** `register_peer` checks and sends in separate steps, so a
  `RegisterPeer` can leave after another host has begun a repair. While nothing
  else withdraws a confirmation, this is excluded if and only if there is no
  second host (`AlwaysConfirmedIff`). A repair makes another host register anew
  exactly if the key was still confirmed at its reset, or that host's key was not
  (`RegistersAnewIff`): `set_key_confirmed(false)` does nothing to the host keys
  when the key is already unconfirmed. `OldKeyOutlivesRepair` is a run in which
  that happens.
- **Held keys.** TO_RELEASE remembers one event for each key, so it covers
  everything that the peer holds, and releasing everything leaves nothing held,
  if and only if the codes of each key mean the same to the peer
  (`AlwaysRememberedIff`, `AlwaysReleasesIff`). On Windows they do not: with
  AltGr a left Ctrl of its own is reported, whose code has no translation for a
  Windows peer. It takes a Ctrl that is really held out of TO_RELEASE, and
  `release_remote_keys` leaves that Ctrl held (`AltGrLosesControl`). The
  modifier flags agree with TO_RELEASE in every run (`FlagsAgreeInRun`).
- **Exit shortcut.** Leaving relative mouse mode by Ctrl+Alt swallows the Ctrl
  release, so the peer holds Ctrl until everything is released
  (`ExitShortcutLeavesCtrlHeld`). Over whole runs, a key that is up is held by the
  peer exactly if a release of it was withheld since its last delivered press and
  nothing made up for it (`HeldWhileUpIff`).
- **Clipboard.** A special format that does not shrink under compression is sent
  with its name in place of its bytes (`WireRoundTripIff`).
- **Sessions.** The registry lock is released between the two halves of a
  removal. The second half loses exactly the sessions that joined the peer in
  the gap and are still there (`DropLosesExactly`).
- **Port forwarding.** A failed send is logged and skipped. The byte stream is
  complete if and only if all failed sends were empty (`UpInOrderIff`).
- **Unsupported codecs.** Two threads may mark one format each and then both send
  the list of both (`SameListTwice`); the last message still lists all marks once
  none is due (`PeerHasAllMarks`).

UDP punching needs no condition: every timer branch waits for a sleep that begins
after the time limit started to run, so no schedule sends more than 104 packets,
and one sends 104 (`BoundIff`).

## Model

| member | source | states |
|---|---|---|
| AudioBuffers.AudioBuffer.Resize | src/client.rs:1217-1225 | a new capacity empties the ring and sets capacity and rate together; the same capacity changes nothing; `capacity == 3 * rate` and the bound on the content are kept |
| AudioBuffers.AudioBuffer.AppendPcm2 | src/client.rs:1292-1306 | all branches leave the newest samples of content plus input, at most a capacity of them; the result is the new occupancy |
| AudioBuffers.AudioBuffer.TakeMark | src/client.rs:1250-1277 | the in-place loop computes both water marks of the old histogram and leaves all 30 bins zero |
| AudioBuffers.AudioBuffer.Drop | src/client.rs:1279-1286 | exactly the even amount for the mark leaves the front, and only if three times as much is buffered |
| AudioBuffers.AudioBuffer.TryShrink | src/client.rs:1227-1287 | records the occupancy; drops and clears when the window of the common clock closes, otherwise changes nothing else |
| AudioBuffers.AudioBuffer.AppendPcm | src/client.rs:1311-1314 | append, then shrink by the occupancy that the append returned |
| AudioBuffers.AudioBuffer.Play | src/client.rs:1487-1528 | the callback hands out the oldest samples in order, then silence, and removes exactly those |
| AudioBuffers.LeadingIsFirstFilled | src/client.rs:1254-1257 | the counter of the loop is the number of empty bins before the first filled one |
| AudioBuffers.ModeIsFirstLargest | src/client.rs:1259-1264 | the winner of the clearing loop is the first largest bin, with bin 0 counted as empty |
| AudioBuffers.ModeIsTheFullest | src/client.rs:1254-1277 | bin 0 loses its comparison unfairly, but then nothing is dropped; otherwise the winner is the fullest of all bins |
| AudioBuffers.DropNeedsHighWater | src/client.rs:1268-1283 | a drop needs a most frequent occupancy of at least 600 ms and an occupancy that never fell below 200 ms in the window |
| AudioBuffers.MarkCases | src/client.rs:1266-1277 | which water marks give no drop, which a mark of at least eight, and that marks 1 to 3 and 5 never occur |
| AudioBuffers.BinMeans | src/client.rs:1231-1235 | bins are tenths of a second, the last one everything from 2.9 seconds on |
| AudioBuffers.Spares600Iff | src/client.rs:1268-1286 | a mark never drops from less than 600 ms, at any rate, if and only if it drops nothing or three times its amount reaches there |
| AudioBuffers.WindowSpares600Iff | src/client.rs:1250-1286 | the same by the window's two water marks: fullest tenth below 600 ms, or some occupancy below 200 ms, or fullest tenth from 800 ms and no occupancy below 300 ms |
| AudioBuffers.DropBound | src/client.rs:1231-1283 | the drop less one is at most two thirds of every occupancy in the histogram, scaled between the rates |
| AudioBuffers.AppendKeeps | src/client.rs:1292-1306 | appending keeps the ring a suffix of everything appended, and all other parts of the run invariant |
| AudioBuffers.TakeKeeps | src/client.rs:1487-1528 | playing keeps the run invariant and advances by what was played |
| AudioBuffers.ShrinkKeeps | src/client.rs:1227-1287 | shrinking keeps the run invariant, including that every recorded occupancy has a filled bin |
| AudioBuffers.WindowDrop | src/client.rs:1239-1286 | in every run, closing a window clears the histogram and drops an even amount, less than a third of the content and at most one more than two thirds of every occupancy recorded in that window |
| AudioBuffers.WindowClosesIff | src/client.rs:1239-1272 | the histogram is cleared, and only then can anything be dropped, exactly 12000 ms or more after the clock was last set, which then or at the start is set anew |
| AudioBuffers.ResizeMeans | src/client.rs:1217-1225 | any buffer, at any time, becomes a ring of three seconds of the device's samples and channels; the same size changes nothing |
| AudioBuffers.FirstResize | src/client.rs:1205-1225 | a new buffer becomes the one for its first device |
| AudioBuffers.PlayedInOrder | src/client.rs:1279-1306 | in every run the ring is the newest part of the input, within capacity, and what was played is an in-order subsequence |
| AudioBuffers.NextStaysAligned | src/client.rs:1227-1314 | a step with whole frames keeps the next sample at the start of a frame, if drops are whole frames |
| AudioBuffers.RunStaysAligned | src/client.rs:1227-1314 | the same for every run between two resizes |
| AudioBuffers.RoundRatesKeepFrames | src/client.rs:1282-1284 | sample rates divisible by 80 keep frames whole for any number of channels |
| AudioRuns.RunShows | src/client.rs:1227-1314 | in every run of packets and playback that fits, window, occupancy, histogram and samples gone are those of a small gauge machine |
| AudioRuns.FilledUp | src/client.rs:1227-1314 | a first window fills the buffer packet by packet and closes with an empty histogram and without a drop |
| AudioRuns.StayThenDip | src/client.rs:1227-1314 | a second window that stays high and dips once ends with its fullest bin at the stay and its lowest at the dip |
| AudioRuns.DropsBelow600Milliseconds | src/client.rs:1268-1286 | a run of a stereo device at 48000 Hz with packets of 10 ms in which 550 ms are buffered and 175 of them are dropped |
| AudioRuns.MarkReached | src/client.rs:1227-1287 | for a device with three or more channels and packets of any one size up to about a tenth of a second, every mark that can occur is reached by a run of such packets that drops its amount |
| AudioRuns.KeepsFramesOfAnySize | src/client.rs:1217-1306 | runs of packets of one size of whole frames are among the runs of whole frames |
| AudioRuns.DeviceKeepsFramesIff | src/client.rs:1217-1306 | for a device and its packet size, frames stay whole in all runs that begin with its resize and go on with such packets, and in all of whole frames, if and only if every reachable mark drops whole frames |
| AudioRuns.SurroundLosesFrames | src/client.rs:1282-1284 | six channels at 44100 Hz lose their place in some run of packets of 10 ms |
| AudioRuns.KeepsFramesIff | src/client.rs:1217-1306 | frames stay whole in all runs at all sample rates if and only if there are at most two channels |
| Lang.FirstTwoPasses | src/lang.rs:202-213 | hiding the app name and replacing the word equals one walk that hides kept names |
| Lang.PlaceholderAhead | src/lang.rs:202-213 | after these passes a placeholder starts at a copied character exactly when half of one stands before an app name |
| Lang.ThirdPass | src/lang.rs:202-213 | restoring placeholders gives the one walk if and only if the text has no half placeholder directly before the app name |
| Lang.PassesAgree | src/lang.rs:202-213 | under the code's own guard, three passes equal one rewriting if and only if that pattern is absent |
| Lang.OverlapBreaks | src/lang.rs:202-213 | an app name that begins with a proper ending of "RustDesk" has a text without '#' on which the passes differ from the rewriting |
| Lang.PassesAgreeIff | src/lang.rs:202-213 | the passes equal the rewriting on every text without '#' if and only if the name does not overlap the word |
| Lang.NothingBareLeft | src/lang.rs:202-213 | after the rewriting every "RustDesk" is part of a kept app name |
| Lang.UnchangedIfNothingBare | src/lang.rs:202-213 | a text without a bare "RustDesk" is left alone |
| Lang.OnePassIdempotent | src/lang.rs:202-213 | rewriting twice is rewriting once, so no suffix is doubled |
| Lang.OnePassLengthens | src/lang.rs:202-213 | renaming a bare word always lengthens the text, so a text with one is changed |
| Lang.RebrandIff | src/lang.rs:188-221 | the whole closure, with any captured value, is the one rewriting if and only if, by its guard, nothing bare is left alone or no half placeholder stands before the app name |
| Lang.SubstitutedMeans | src/lang.rs:190-192 | the captured value stands in place of every "{}", between the same pieces |
| Lang.RebrandPlain | src/lang.rs:193-201 | for an app name without "RustDesk" the text's pieces around "RustDesk" are joined by the name, for every text, value and key but the excluded ones |
| Lang.RebrandLeaves | src/lang.rs:193-197 | under the program's own name, and for the excluded keys, the text is only substituted |
| Strings.ReplaceIsJoin | src/lang.rs:200 | replacing joins the pieces around the pattern by the new text |
| Strings.SplitLosesNothing | src/custom_server.rs:61 | the pieces of a text, joined by the separator, are the text |
| Strings.PiecesAreFree | src/custom_server.rs:61 | no piece holds the separator |
| Lang.RebrandIsOnePass | src/lang.rs:188-221 | so it is for every text that has no '#' after the substitution |
| Lang.RebrandOnce | src/lang.rs:188-221 | for "RustDesk" plus any suffix without '#' and any captured value: the closure is the rewriting, leaves nothing bare, and is idempotent |
| Base64Url.PackCut | src/naming.rs:5-8 | regrouping bytes into six-bit numbers and back is the identity |
| Base64Url.CutPack | src/custom_server.rs:28 | the strict decoder accepts only one sequence of numbers for given bytes |
| Base64Url.DecodeEncode | src/naming.rs:5-8 | decoding undoes unpadded base64url encoding |
| Base64Url.EncodeDecode | src/custom_server.rs:28 | encoding undoes decoding: only one text decodes to given bytes |
| Base64Url.SymbolsAreTheTable | src/naming.rs:6 | the 64 characters are those of table 2 of section 5 of RFC 4648, in order |
| Base64Url.GroupValue | src/naming.rs:6 | the four numbers of a group are its 24 bits, highest first |
| Base64Url.ShortGroupValue | src/naming.rs:6 | a short last group is filled up with zero bits |
| Base64Url.DashPositions | src/naming.rs:5-8 | in the encoding of ASCII bytes a dash stands only at an index that is 3 modulo 4 |
| LicenseJson.JsonTextAscii | src/naming.rs:6 | the printed settings are ASCII text between braces |
| LicenseJson.PlainJsonText | src/naming.rs:6 | the printed text in full, member by member, for settings without special characters |
| LicenseJson.EscapeForms | src/naming.rs:6 | how quotes, backslashes and control characters are written |
| LicenseJson.ReadPrintedText | src/naming.rs:6 | all four fields, escapes included, can be read off the printed text |
| LicenseJson.SomeReaderReadsServers | src/custom_server.rs:29-31 | the contract assumed of the JSON reader is met by an actual reader |
| CustomServers.GetCustomServerFromString | src/custom_server.rs:39-108 | the loops compute the specified parse: last field for each tag, or the first piece that is a configuration |
| CustomServers.ReadSettings | src/custom_server.rs:59-86 | the loop over the parts keeps the last text of each tag |
| CustomServers.ReadPart | src/custom_server.rs:67-83 | one part sets the fields whose tag it has |
| CustomServers.FindConfig | src/custom_server.rs:97-101 | the first part around the parentheses that is a configuration |
| CustomServers.FindLicense | src/custom_server.rs:87-106 | the nested loops find the first piece that is a configuration, pieces of marked names included |
| CustomServers.GenNameIsGood | src/naming.rs:5-8 | a printed name is plain, its dashes are never adjacent, and its ends are known characters |
| CustomServers.ParseGenName | src/custom_server.rs:21-37 | parsing a printed configuration gives the server back |
| CustomServers.ParseSigned | src/custom_server.rs:29-36 | signed data that is no configuration itself is read like its content |
| CustomServers.TrimMeans | src/custom_server.rs:94-98 | trimming takes the blanks at both ends and nothing else |
| Strings.SpellsLower | src/custom_server.rs:40-82 | lower-casing recognises exactly the spellings of a word in small and capital letters |
| Strings.MentionsLower | src/custom_server.rs:59 | and finds it exactly where some spelling of it stands |
| CustomServers.NormalizeName | src/custom_server.rs:88-91 | the three replacements turn any known separator into "--" and leave the name alone |
| CustomServers.SplitNormalized | src/custom_server.rs:92 | splitting isolates the printed name with at most a copy mark |
| CustomServers.ReadStripped | src/custom_server.rs:88-105 | a name without extension, with any suffix, gives the server back |
| CustomServers.FileNameRoundTrip | src/custom_server.rs:39-108 | for every ASCII server, every known separator, any copy mark or "--..." suffix that does not spell "host=", and every spelling of ".exe", parsing gives the printed server back |
| CustomServers.PrintedNameIsLost | src/naming.rs:16-22 | the file name that the tool prints parses to nothing but a signed message it may happen to carry |
| HostNames.SplitJoin | src/custom_server.rs:61 | splitting at commas undoes joining |
| HostNames.HostPartsRead | src/custom_server.rs:59-86 | behind a front that does not spell "host=", with a part that does first, each setting is the text of the last part with its tag |
| HostNames.LastFieldStep | src/custom_server.rs:68-83 | the last part that spells a tag is the one read for it |
| HostNames.LastPartCut | src/custom_server.rs:40-46 | a doubled extension is cut off the last part only |
| HostNames.BareNameRead | src/custom_server.rs:40-86 | without a further part the settings are read back, a relay in ".exe" without that ending |
| HostNames.HostNameRoundTripIff | src/custom_server.rs:40-86 | in every spelling of the four tags and of ".exe", settings without commas are read back from the written-out name if and only if some untagged part follows or the relay does not end in ".exe" |
| RegistrationTimer.Mediator.UpdateLatency | src/rendezvous_mediator.rs:182-208 | a response resets the timer, moves the average if in range, and publishes what the specification of a response says |
| RegistrationTimer.Mediator.TimerTick | src/rendezvous_mediator.rs:225-264 | when a registration is sent, how the timeout backs off, and what is published after how many failures |
| RegistrationTimer.TickKeeps | src/rendezvous_mediator.rs:225-264 | a tick keeps the bounds of the timeout and the spacing of requests |
| RegistrationTimer.NextKeeps | src/rendezvous_mediator.rs:182-264 | every event keeps the whole invariant of timer and history |
| RegistrationTimer.RunKeeps | src/rendezvous_mediator.rs:181-265 | so does every run |
| RegistrationTimer.BackoffSumClosed | src/rendezvous_mediator.rs:232-236 | k linear backoffs sum to 3000 k (k + 1) / 2 up to k = 10 |
| RegistrationTimer.BackoffInEveryRun | src/rendezvous_mediator.rs:168-264 | the timeout is exactly the linear backoff of the timed-out ticks that backed off, up to 30000; if all did, k requests take at least the sum of backoffs; a response delays the next request by the interval |
| RegistrationTimer.SendsIff | src/rendezvous_mediator.rs:229-239 | in every run a tick sends exactly if the last request is out for its backoff, or none is out and no response was ever received or the last one is the interval ago |
| RegistrationTimer.FailuresPublish | src/rendezvous_mediator.rs:240-258 | what failures publish: nothing at the first in a row, 0 at the second and third, -1 from the fourth on |
| RegistrationTimer.ChecksIff | src/rendezvous_mediator.rs:245-254 | the address is checked exactly at a fourth or later failure in a row more than 60 seconds after the last check, so checks are that far apart |
| RegistrationTimer.AverageBounds | src/rendezvous_mediator.rs:193-198 | the integer average stays between the minimum rounded down to a multiple of 30 and the maximum |
| RegistrationTimer.PublishedLatency | src/rendezvous_mediator.rs:182-208 | after every in-range response of every run the published latency is within the tolerance of the average, which is within the range of all samples |
| RegistrationTimer.PublishesIff | src/rendezvous_mediator.rs:191-207 | in every run an in-range response publishes, and then the average, if and only if nothing or 0 is on record since the start or published failures, or the average differs from the record by more than 3000 and a fifth of itself; others never do |
| RegistrationTimer.SuccessivePublications | src/rendezvous_mediator.rs:199-207 | two successive publications without published failures between are further apart than that |
| RegistrationTimer.RestingAverage | src/rendezvous_mediator.rs:197 | exactly which averages a steady latency leaves at rest, and that all others move towards them |
| RegistrationTimer.SteadyComesToRest | src/rendezvous_mediator.rs:197 | every average comes to rest under a steady latency of at least 30 microseconds |
| RegistrationTimer.UntrackedResponse | src/rendezvous_mediator.rs:187-197 | with nothing outstanding a response lowers the average by a thirtieth, rounded up; it is unchanged if and only if it is zero |
| IdConflict.NextKeeps | src/rendezvous_mediator.rs:278-299 | every step of every host keeps the invariant of lock, solver and undisturbed hosts |
| IdConflict.InvInRun | src/rendezvous_mediator.rs:278-299 | it holds in every interleaving |
| IdConflict.NoDirectHandOver | src/rendezvous_mediator.rs:697-710 | the solving host never changes from one to another directly |
| IdConflict.SolverStays | src/rendezvous_mediator.rs:697-710 | after a regeneration its host stays the solver until a registration is accepted or everything restarts |
| IdConflict.RegenerationsSeparated | src/rendezvous_mediator.rs:697-710 | regenerations by two different hosts have an accepted registration or a restart between them |
| IdConflict.RegisterPeerConfirmed | src/rendezvous_mediator.rs:712-740 | an undisturbed RegisterPeer leaves with global and host key confirmed and no other host solving |
| IdConflict.CalmMeans | src/rendezvous_mediator.rs:712-740 | undisturbed means: no repair step and no withdrawn confirmation since the check |
| IdConflict.RegisterPeerMayBeLate | src/rendezvous_mediator.rs:712-740 | an interleaving in which a RegisterPeer leaves while another host is solving |
| IdConflict.SingleHostConfirmed | src/rendezvous_mediator.rs:712-740 | without a second host and without withdrawals by others, every RegisterPeer is sent confirmed |
| IdConflict.AlwaysConfirmedIff | src/rendezvous_mediator.rs:712-740 | without withdrawals by others, in all runs every RegisterPeer is sent with both keys confirmed and no other host solving, if and only if there is at most one host |
| IdConflict.HostKeyMeans | libs/hbb_common/src/config.rs:1031-1055 | in every run a host key is confirmed if and only if a registration with its prefix was accepted and not withdrawn since, by itself or with the key |
| IdConflict.ClearedHasAccepted | src/rendezvous_mediator.rs:718-724 | a host that passes its checks, or whose key is confirmed again, after the key was gone has an accepted registration in between |
| IdConflict.RegistersAnewIff | src/rendezvous_mediator.rs:697-710 | after the reset of a repair another idle host with a prefix of its own registers anew before its next RegisterPeer, in every continuation, if and only if the key was confirmed or that host's key was not |
| IdConflict.OldKeyOutlivesRepair | src/rendezvous_mediator.rs:288-291 | a run in which the key is lost amid an accepted registration, so that a host key outlives the reset of the next repair |
| IdConflict.BusyEndsInMessage | src/rendezvous_mediator.rs:697-740 | a host that has begun a check or a repair becomes idle again only by a RegisterPeer, a RegisterPk or an error of sending |
| IdConflict.CheckDecides | src/rendezvous_mediator.rs:718-740 | a check that misses a confirmation leads to a RegisterPk, one that finds both to a RegisterPeer |
| IdConflict.RepairRegisters | src/rendezvous_mediator.rs:697-710 | a finished repair leads to a RegisterPk, with its host as the solver |
| IdConflict.AcceptanceFrees | src/rendezvous_mediator.rs:288-291 | an accepted registration and a restart let every host check again |
| Keyboards.KeyboardState.ProcessEvent | src/keyboard.rs:131-140 | long presses are dropped; otherwise flag, TO_RELEASE and the translated event change together |
| Keyboards.KeyboardState.ShouldBlockRelativeMouseShortcut | src/keyboard.rs:382-421 | exactly which events are swallowed and what that does to the shortcut flag |
| Keyboards.KeyboardState.ReleaseKey | src/keyboard.rs:543-559 | one key is released, Alt with another stroke, and exactly its code is let go of |
| Keyboards.KeyboardState.ReleaseRemoteKeys | src/keyboard.rs:543-559 | in any map order: TO_RELEASE empty, all eight flags false, and the peer holds exactly the codes that no remembered event stands for |
| Keyboards.ProcessHeld | src/keyboard.rs:1056-1123 | what one event does to the codes that the peer holds |
| Keyboards.ProcessKeeps | src/keyboard.rs:725-762 | every event, whatever its code, keeps: a flag is set exactly when its key is in TO_RELEASE, which holds presses of their keys |
| Keyboards.ProcessRemembers | src/keyboard.rs:743-762 | where the codes of a key mean the same, every event keeps all held codes remembered |
| Keyboards.ExtraStroke | src/keyboard.rs:543-559 | the extra press and release of Alt ends where it began |
| Keyboards.ReleasingNext | src/keyboard.rs:543-559 | releasing one key takes it and its code off what is still to be released |
| Keyboards.ReleasedMeans | src/keyboard.rs:543-559 | releasing everything leaves nothing held exactly if every held code was remembered |
| Keyboards.NextKeeps | src/keyboard.rs:725-780 | grabbed and direct events, hooking, leaving and mode changes keep flags and TO_RELEASE in agreement |
| Keyboards.FlagsAgreeInRun | src/keyboard.rs:725-762 | they agree in every run, with any codes and swallowed events included |
| Keyboards.HeldKeysAreRemembered | src/keyboard.rs:1056-1123 | where the codes of a key mean the same, every held code is remembered after every run |
| Keyboards.TwoCodes | src/keyboard.rs:743-762 | pressing a key with one code and releasing it with another that means something else leaves a code held that nothing remembers |
| Keyboards.AlwaysRememberedIff | src/keyboard.rs:743-762 | in all runs every held code is that of an event in TO_RELEASE, if and only if any two codes of one key mean the same to the peer |
| Keyboards.AlwaysReleasesIff | src/keyboard.rs:543-559 | releasing everything leaves nothing held after all runs, if and only if the same holds |
| Keyboards.AltGrLosesControl | src/keyboard.rs:1067-1076 | the run on Windows by which AltGr's own left Ctrl makes the client forget a Ctrl that the peer holds |
| Keyboards.ReleaseSwallowedIff | src/keyboard.rs:382-421 | a release leaves its key in TO_RELEASE exactly when the filter blocks it, and then sends nothing |
| Keyboards.ShortcutMeans | src/keyboard.rs:300-333 | Cmd+G on macOS, elsewhere any Ctrl and any Alt together, whichever came last |
| Keyboards.PressAndReleaseSwallowed | src/keyboard.rs:382-421 | a press is swallowed exactly when it completes the shortcut in relative mode of an eligible session; then one release of a key of the shortcut is, too |
| Keyboards.RepeatDroppedIff | src/keyboard.rs:528-541 | in every run a repeated press is dropped exactly for the eight modifiers |
| Keyboards.GrabMeans | src/keyboard.rs:425-505 | delivered events are processed in full, others leave keys and messages alone |
| Keyboards.InToReleaseIff | src/keyboard.rs:743-762 | in every run a key is in TO_RELEASE exactly if a delivered press of it stands, ended by no delivered release and no leaving |
| Keyboards.HeldExactly | src/keyboard.rs:743-762 | where codes mean the same for one key and different things for two, the peer holds exactly the codes in TO_RELEASE |
| Keyboards.HeldWhileUpIff | src/keyboard.rs:382-421 | in every run, the peer holds a key that is up if and only if a release of it was withheld since its last delivered press, and nothing made up for it |
| Keyboards.ExitShortcutLeavesCtrlHeld | src/keyboard.rs:382-421 | the run by which the peer still holds Ctrl when all keys are up |
| Clipboards.ClipboardContext.GetFormatsFilter | src/clipboard.rs:328-357 | marked content reads as empty unless forced; marks and empty text never pass |
| Clipboards.ClipboardContext.CheckClipboard | src/clipboard.rs:52-76 | the message, the cached copy of it, and when there is none |
| Clipboards.ClipboardContext.UpdateClipboard | src/clipboard.rs:199-232 | received formats and the mark of the side replace the content, or nothing changes |
| Clipboards.WireRoundTripIff | src/clipboard.rs:544-680 | a format survives the wire if and only if it is not a special one that fails to shrink and differs from its name |
| Clipboards.WireForm | src/clipboard.rs:544-633 | format, compression and content of each item on the wire |
| Clipboards.ListArrives | src/clipboard.rs:635-680 | a list without file names goes over the wire item by item, special formats that do not shrink as their name |
| Clipboards.CheckThenUpdate | src/clipboard.rs:52-357 | end to end: content without files and marks, checked at one end and written at the other, leaves there all its items but empty text, in order, as they arrive, and then the writer's mark; with nothing else there is no message |
| Clipboards.CopyArrives | src/client.rs:1108-1140 | a copy, its notification and the message leave the other end with the copied items |
| Clipboards.FilesGoElsewhere | src/clipboard.rs:315-326 | content with files gives no message where files have a service of their own |
| Clipboards.OwnerName | src/clipboard.rs:15 | the bytes of the owner format's name |
| Clipboards.WrittenIsNotSentBack | src/clipboard.rs:208-232 | what one end wrote is not sent back unforced, whichever side reads |
| Clipboards.FilterKeepsTheRest | src/clipboard.rs:346-356 | what is left after the filter are all items but owner marks and empty text, each as often as it was there, in order |
| Clipboards.FilterDropsMarks | src/clipboard.rs:346-356 | what passes the filter is kept content without marks |
| Clipboards.SentHasNoMark | src/clipboard.rs:346-356 | no message carries an owner mark, forced or not |
| Clipboards.NextIsQuieter | src/clipboard.rs:508-524 | no step but a user's copy increases messages plus notifications at unmarked ends |
| Clipboards.ExchangeGoesQuiet | src/client.rs:1108-1140 | after the last copy the ends send at most one message per such notification, and none if there is none |
| RgbaHandOff.FlutterHandler.OnRgbaSoftRender | src/flutter.rs:1197-1246 | the buffers are swapped unless a frame waits; exactly the entitled sessions are told; without one the frame is withdrawn |
| RgbaHandOff.FlutterHandler.GetRgba | src/flutter.rs:1088-1096 | the stored buffer if and only if it is valid |
| RgbaHandOff.FlutterHandler.NextRgba | src/flutter.rs:1098-1102 | only the flag of that display is cleared |
| RgbaHandOff.FlutterHandler.UpdateUseTextureRender | src/flutter.rs:657-661 | all slots are dropped |
| RgbaHandOff.StoredWithout | src/flutter.rs:242-248 | the multiset of stored buffers does not depend on the order of displays |
| RgbaHandOff.BuffersAreConserved | src/flutter.rs:1197-1216 | the swap neither loses nor duplicates a buffer; a first frame adds one empty buffer |
| RgbaHandOff.ValidMeansAnnounced | src/flutter.rs:1186-1245 | in every interleaving, outside a render step a valid slot was announced since it was stored |
| RgbaHandOff.ValidBytesStay | src/flutter.rs:1088-1102 | until acknowledged, withdrawn or cleared, the bytes of a valid slot stay the same |
| RgbaHandOff.WithdrawnWasNotAnnounced | src/flutter.rs:1186-1245 | a render step withdraws only frames that it announced to nobody |
| RgbaHandOff.ToldMeans | src/flutter.rs:1218-1234 | a lone session with a stream that shows at most one display, or of several those that show just this display, are told, and no others |
| RgbaHandOff.StoreMeans | src/flutter.rs:1197-1216 | a frame is stored exactly if none waits, and touches no other display |
| RgbaHandOff.InvalidateMeans | src/flutter.rs:1098-1102 | acknowledging and withdrawing keep every buffer and the other displays |
| RgbaHandOff.ValidHoldsAFrame | src/flutter.rs:1186-1245 | a valid slot holds the buffer of a frame stored there, with nothing acknowledged, withdrawn or cleared since |
| SessionRegistry.Sessions.InsertSession | src/flutter.rs:2229-2242 | creates the peer if needed and adds the session, nothing else |
| SessionRegistry.Sessions.InsertPeerSessionId | src/flutter.rs:2251-2282 | adds a session with its displays to an existing peer only, says whether there was one, and acknowledges the frame of a single display |
| SessionRegistry.Sessions.UnusedDisplaysOut | src/flutter.rs:2141-2172 | in any order of the handlers, the displays asked for are the current one and those that some other session renders |
| SessionRegistry.Sessions.TakeOut | src/flutter.rs:2098-2116 | in any order of the peers, the session leaves one owner; the peer is due for removal exactly when it was the last |
| SessionRegistry.Sessions.RemoveSessionBySessionId | src/flutter.rs:2098-2121 | returns a peer exactly when the session was its last one, removes just that, and keeps the displays that the owner's other sessions render |
| SessionRegistry.Sessions.WouldRemovePeerBySessionId | src/flutter.rs:2129-2139 | true exactly when the removal would return a peer |
| SessionRegistry.RemovedMeans | src/flutter.rs:2098-2121 | whoever owns the id, the removal is the same, and the peer goes exactly when it had one session |
| SessionRegistry.ApplyKeeps | src/flutter.rs:2098-2121 | each operation with a fresh id keeps ids unique and peers non-empty |
| SessionRegistry.RegistryInvariant | src/flutter.rs:2098-2121 | after any operations with fresh ids each id is under at most one peer and no peer is empty |
| SessionRegistry.OwnedIff | src/flutter.rs:2098-2282 | after any operations with fresh ids a session is under a peer, with the displays it was opened with, exactly if an operation put it there and none removed it since; joining needs the peer |
| SessionRegistry.KeepsRendered | src/flutter.rs:2141-2172 | after a removal exactly the displays that a remaining session renders are asked for, and nothing if there are none |
| SessionRegistry.EmptyPeersAreDue | src/flutter.rs:2098-2121 | in any interleaving an empty peer only waits for its removal |
| SessionRegistry.SessionsInTheGap | src/flutter.rs:2098-2121 | in any interleaving, between the halves of a removal the emptied peer owns exactly the sessions added since and not taken out again |
| SessionRegistry.DropLosesExactly | src/flutter.rs:2098-2121 | the second half loses exactly these sessions, and none of another peer |
| SessionRegistry.JoinInTheGapIsLost | src/flutter.rs:2098-2121 | a session that joins in the gap disappears with its peer |
| ServerSubscriptions.ServiceNameInjective | src/server/video_service.rs:239-241 | two displays never share a service name, and all such names count as video |
| ServerSubscriptions.OnSubscribeMeans | src/server/service.rs:107-117 | subscribing keeps the two subscriber sets disjoint and touches only that connection |
| ServerSubscriptions.OnUnsubscribeMeans | src/server/service.rs:119-124 | unsubscribing works exactly because the sets are disjoint |
| ServerSubscriptions.SwappedMeans | src/server/service.rs:83-88 | a snapshot ends the waiting and changes nobody's subscription |
| ServerSubscriptions.Server.Subscribe | src/server.rs:432-445 | only the named service changes, and only if its state differs from the wish |
| ServerSubscriptions.Server.AddService | src/server.rs:423-426 | a service without subscribers, in place of one with the same name |
| ServerSubscriptions.Server.SwapNewSubscribes | src/server/service.rs:83-88 | only the named service ends its waiting |
| ServerSubscriptions.Perform | src/server.rs:384-512 | any sequence of these calls leaves the services that the run of operations has |
| ServerSubscriptions.Server.AddConnection | src/server.rs:384-401 | in any order, each permitted service except foreign video is subscribed |
| ServerSubscriptions.Server.RemoveConnection | src/server.rs:403-410 | in any order, every service drops the connection |
| ServerSubscriptions.Server.CaptureDisplays | src/server.rs:486-512 | the loop over subscribe calls equals the specified map, in any order |
| ServerSubscriptions.Server.GetSubbedDisplaysCount | src/server.rs:472-484 | the size of the set of subscribed video services |
| ServerSubscriptions.CaptureMeans | src/server.rs:486-512 | the connection's video services are afterwards: the requested existing ones (both flags), old and requested existing (include), old among requested (exclude), or the old ones |
| ServerSubscriptions.CaptureFrame | src/server.rs:486-512 | services without video and other connections do not change |
| ServerSubscriptions.CapturedDisplays | src/server.rs:486-512 | by displays: with both flags exactly those asked for, of that source, that have a service |
| ServerSubscriptions.JoinedMeans | src/server.rs:384-401 | a new connection has every permitted service except video other than the primary display's |
| ServerSubscriptions.ApplyKeeps | src/server/service.rs:107-124 | every operation keeps the sets disjoint, and only some can subscribe a connection |
| ServerSubscriptions.RunValid | src/server/service.rs:107-124 | disjointness holds in every run |
| ServerSubscriptions.RemovedStaysOut | src/server.rs:403-410 | after a removal, until subscribed again, no service holds the connection, waiting for a snapshot or not |
| ServerSubscriptions.WaitsForSnapshot | src/server/service.rs:107-117 | from a service that needs a snapshot a connection gets nothing before the next one, whatever it subscribes |
| ServerSubscriptions.NobodyWaits | src/server/service.rs:107-117 | where no snapshot is needed nobody ever waits |
| ServerSubscriptions.VideoByName | src/server.rs:341-344 | exactly the names that begin with monitor or camera count as video |
| ServerSubscriptions.SomeServiceNames | src/server/video_service.rs:239-241 | names are the source and the display's number in decimal |
| PortForwarding.PortForward.ConnectAndLogin | src/port_forward.rs:124-194 | the loop follows the specified run, stops at the first event that ends the login, and hands over or drops the buffer |
| PortForwarding.PortForward.HandleMessage | src/port_forward.rs:139-163 | what each kind of message does to stage, stream and buffer; PeerInfo sends the buffer raw |
| PortForwarding.PortForward.HandleLogin | src/port_forward.rs:126-187 | what each branch of the login loop does |
| PortForwarding.PortForward.RunForward | src/port_forward.rs:197-219 | the loop follows the specified run until one side ends |
| PortForwarding.Serve | src/port_forward.rs:68-83 | login and forwarding after each other end where the run of all events ends |
| PortForwarding.StepMoves | src/port_forward.rs:124-219 | each step moves what was read and not lost, in order |
| PortForwarding.UpIsConserved | src/port_forward.rs:124-219 | bytes sent raw, pending and lost add up to the bytes read |
| PortForwarding.UpInOrderIff | src/port_forward.rs:124-219 | raw bytes plus pending buffer are all bytes read, in order, at every point, if and only if no byte was in a failed send |
| PortForwarding.DownInOrderIff | src/port_forward.rs:208-214 | the same for bytes from the peer |
| PortForwarding.NothingRawInLogin | src/port_forward.rs:124-187 | while logging in, or without PeerInfo, only frames go out and nothing comes in |
| PortForwarding.LoginBeforeBytes | src/port_forward.rs:124-194 | no raw byte before PeerInfo, and no frame after the first raw bytes |
| PortForwarding.FramesAreReplies | src/port_forward.rs:139-180 | the frames sent are exactly the replies to hashes, delay tests and the user interface before the login is over, in order |
| PortForwarding.LoginOutcome | src/port_forward.rs:126-187 | the first event that ends the login decides between forwarding, giving up and failing |
| PortForwarding.ForwardOutcome | src/port_forward.rs:197-219 | forwarding finishes exactly when one of the sides ends |
| PortForwarding.ReceivedIff | src/port_forward.rs:132-136 | the interface hears of a first message exactly when the peer sent one before the login was over |
| UdpPunch.PunchUdp | src/common.rs:2503-2551 | the loop follows the specified run: outcome and packets for every sequence of timer and receive events |
| UdpPunch.Pauses | src/common.rs:2507-2535 | the pauses are 20, 30, 45, 67, 100, 150, then 200 ms, their sum is known, and they never shrink |
| UdpPunch.PacketsPayPauses | src/common.rs:2514-2537 | in every schedule each packet but the first has waited for all pauses before it, counted from the start of the time limit, and met that limit |
| UdpPunch.PausesNeverShrink | src/common.rs:2531-2535 | the pause never shrinks in any run, interrupted or not |
| UdpPunch.AtMost104 | src/common.rs:2514-2537 | at most 104 packets, in every schedule |
| UdpPunch.PromptRun | src/common.rs:2514-2537 | the schedule without delays sends n repeated packets, up to 103, each after its own sleep |
| UdpPunch.BoundIff | src/common.rs:2503-2551 | a number bounds the packets of all schedules if and only if it is at least 104, wherever the first two clock readings lie |
| UdpPunch.Outcomes | src/common.rs:2518-2550 | the first deciding event gives the outcome: timeout, failure or success, with data only when listening; a listener goes on after an empty packet |
| Throttling.ThrottledInterval.PollTick | src/common.rs:2059-2074 | a ready poll passes if and only if the minimum interval has gone by, and only then moves it |
| Throttling.TicksAreSpaced | src/common.rs:2059-2074 | any two ticks are apart by the minimum interval times the ticks between them |
| Throttling.AllTicksPassIff | src/common.rs:2053-2074 | every ready poll passes if and only if ready polls are never closer than the minimum |
| NameColors.Str2Color | src/common.rs:2586-2599 | the wrapping loop with its masks is the polynomial modulo 2^24 with bit 15 off; the top byte is alpha |
| NameColors.HashStep | src/common.rs:2592 | shift and subtract with wrap-around is multiplication by 31 modulo 2^32 |
| NameColors.MaskClearsBit15 | src/common.rs:2596 | the bitwise mask removes bit 15 and nothing else |
| NameColors.AlphaOnTop | src/common.rs:2598 | the bitwise or of alpha and colour overlaps nowhere |
| NameColors.PolynomialIsSum | src/common.rs:2590-2593 | byte i of n counts 31 to the power n - 1 - i |
| VideoDecoding.VideoHandler.HandleFrame | src/client.rs:1586-1636 | format change, success, first failure, later failure, saturation and frames without picture |
| VideoDecoding.VideoHandler.Reset | src/client.rs:1639-1651 | counter and first-frame flag start over, the format only changes when given |
| VideoDecoding.VideoThread.Handle | src/client.rs:2845-2937 | creation of the handler, marking, and the message in a step of its own follow the specified step |
| VideoDecoding.CounterIsStreak | src/client.rs:1586-1636 | after any events the counter is the failure streak, plus 2 if it began with the first picture since the reset, saturating |
| VideoDecoding.HopelessMeans | src/client.rs:2912 | the counter reaches the limit exactly when the last three, or all pictures since the reset, failed |
| VideoDecoding.MarkedIff | src/client.rs:2909-2923 | an unmarked format is marked by a frame exactly for an invalid decoder or such failures, and nothing else is marked |
| VideoDecoding.OneMessagePerMark | src/client.rs:2909-2928 | in every interleaving of display threads: no duplicates, each mark has one message, sent or due, and each message lists all marks up to some moment, its own among them, later ones never less |
| VideoDecoding.PeerHasAllMarks | src/client.rs:2924-2928 | once no message is due, the last one lists all marks |
| VideoDecoding.SameListTwice | src/client.rs:2917-2928 | two threads that mark before either sends both send the list of both |

## Left out

- Audio on Linux through PulseAudio, resampling and rechannelling: no jitter buffer there, and floating point in external crates.
- The ring buffer, the JSON reader, signature verification, compression and key-code translation are not modelled but assumed by contract; the JSON contract is shown to be satisfiable.
- Machine integers: `usize` and `i64` counters are unbounded, except where they wrap or saturate (colour hash, failure counter).
- CustomServers.FileNameRoundTrip: ASCII file names and settings only, because lower-casing other text can change byte offsets.
- HostNames.HostNameRoundTripIff: ASCII only, for the same reason; a value with a comma cannot be written in this form.
- Lang.RebrandIff: app names contain "RustDesk" and no '#', as the comment in the program promises; texts with '#' are covered.
- Rendezvous over TCP and websocket: its latency closure has neither average nor backoff.
- DNS lookup, rebinding of the socket and the sending itself in the registration timer.
- IdConflict.RegisterPeerConfirmed: for a host not disturbed between check and send; over all runs `AlwaysConfirmedIff` says exactly when that is not needed.
- Keyboard modes other than map mode and the translation tables: large finite tables, without new state.
- Lock modes and key names in keyboard events: fields that are copied through.
- The event that tells the user interface to leave relative mouse mode: the change of the mode is a step of its own.
- Clipboard file copy, the clipboard of Android and the single-format fallback for old peers.
- Clipboard retry loops for an occupied clipboard: a read either succeeds or not.
- Texture rendering, plugin hooks and the rotation of frames: outside the hand-off.
- The version check in `insert_peer_session_id`, and its conversion of display numbers to unsigned ones.
- ServerSubscriptions.Server.AddConnection: services are values in a map, so the separate lock of each service is not captured, and the permission list is a set.
- Server options, the retina update of macOS and closing messages: no effect on subscriptions.
- PortForwarding.PortForward.ConnectAndLogin: what the interface sends in reaction to a message is a parameter, and rendezvous and encryption have happened before.
- AudioBuffers.WindowSpares600Iff: for rates that are multiples of five and at least 60; `Spares600Iff` is exact for every rate.
- AudioRuns.DeviceKeepsFramesIff: for packets of up to about a tenth of a second; with longer ones not every mark can be reached.
- UdpPunch.BoundIff: a sleep may end up to a microsecond early, which covers the rounding of its length to a 32-bit float.
- UdpPunch.PunchUdp: the payload of a received packet is reduced to its length, and failed sends count as packets, as in the program.
- Throttling.ThrottledInterval.PollTick: waking the poller again is not modelled.
- VideoDecoding.VideoThread.Handle: reading the list and sending the message are one step, because the read lock is held until the message is sent; decoder, recording, chroma and frame-rate statistics are not modelled.
- Privacy mode, file transfer, terminal, updater and platform bindings.
