# Smart Security Hub — session-state model

The Smart Security Hub is a Streamlit application. It lets a user in by face, PIN or RFID card and
controls three appliances: a light, an alarm system and a TV. It simulates a power outage with a
five-minute battery, heals itself after repeated camera faults, and keeps an event ledger and an
alert queue. Behind the widgets sits a small sequential state machine over `st.session_state` and
the saved face database. This project models that state machine in Dafny and proves what its
handlers do.

The modules:

- `Wrappers`: the `Option` type.
- `Camera`: what a scan sees. A frame is either a failed read or the faces found in it. Each face
  carries its quality score and its encoding. A camera either did not open or yields a finite run of
  frames, and a read past the end fails.
- `FaceStore`: the face database as its items in insertion order, since Python dict order decides
  which name a match reports. `database[name] = encoding` is an upsert that keeps an existing key's
  position.
- `Ledger`: how `log_event` formats an entry and how the control panel splits it back with
  `split(",", 3)` (round trip proved). The panel shows the last ten entries, lists the alerts still
  waiting for acknowledgement, and its "Ack" button flips exactly one alert.
- `Resilience`: the `system_status` record and an effect function per handler: outage, depletion
  poll, restore, self-heal, camera fault. Lemmas cover the deadline, the battery mode that
  self-healing strands, and the 0, 1, 2, 0 fault cycle.
- `Matching`: first-match selection over the stored encodings, the last recognized face of a
  frame, the intruder test, and the loop of at most 30 reads. The loop is modelled twice, as a
  recursive function and as the source's loop as a method, and the two are proved equal.
- `Enrollment`: the best-face selection of `register_face` (the earliest face with the highest
  positive score) and its uncapped scan loop. The loop stops only when at least 30 frames have been
  read and the best score exceeds 500, or on a failed read. It too is a method proved equal to a
  recursive function.
- `SecurityHub`: the class `Hub`, whose fields are the session state. Each handler is a method. Its
  `ensures` states the whole new state: status record, appliance map, ledger, alerts, store and
  login. The invariant `Valid` holds between handlers: the status record is coherent, the database
  has one entry per name, and every ledger line is a formatted entry.

One `Reading` of the clock is passed to each handler: `now` in whole seconds, plus the two
formatted time stamps. Every entry and alert a handler writes shares that reading. The face
comparator (`compare_faces` at tolerance 0.5) is a parameter `matches(stored, probe)`, and the model
assumes nothing about it.

In these places the model follows the code as written, where it differs from the documented
intent:

- Enrollment is not capped at 30 frames: with no face above 500 it reads every frame of a recorded
  run (`Enrollment.NoCapWithoutQuality`), and on a camera that never stops delivering such frames
  it never ends (`Enrollment.EndlessFeedNeverStops`).
- The outage's attempt to switch the TV off is refused, because the battery flag is already set.
  The TV keeps its value and no TV entry is written, but the warning alert is still raised.
- Depletion clears the flag before the "off" calls, so each appliance that was on gets an "off"
  entry, but the appliance map keeps its values.
- Self-healing switches the battery flag on without a deadline, so no later poll ends that battery
  mode (`Resilience.SelfHealStrandsBackup`).
- A failed read during authentication logs the fault path and then the denial too.
- The intruder test compares the label with the string "Unknown". A user enrolled under that name
  is granted access and, in the same frame, reported as an intruder
  (`Matching.EnrolledUnknownIsAlsoIntruder`).

## Model

| member | source | states |
|---|---|---|
| Camera.Read | app.py:244 | the definition of the `k`-th `video_capture.read()` of a recorded run: its frame, or a failed read past the end; used by EnrollFromStops, ScanAllStops and ObservedAt |
| Resilience.Initial | app.py:37-43 | the fresh status record: coherent, started at `now`, off battery, no faults, no deadline, no self-heal yet |
| Resilience.Outage | app.py:98-102 | the definition of the outage's effect on the status record: off battery the flag and the deadline `now + 300` are set, on battery nothing changes; characterized by OutageThenPoll and OutageIdempotent |
| Resilience.DepletionDue | app.py:114-116 | the definition of the depletion test, with Python's truth test on the deadline; characterized by OutageThenPoll and SelfHealStrandsBackup |
| Resilience.Poll | app.py:114-118 | the definition of the depletion poll's effect on the status record: the flag and deadline are cleared when the deadline has passed; characterized by OutageThenPoll, RestoreThenPoll and SelfHealStrandsBackup |
| Resilience.Restored | app.py:618-621 | the definition of the restore button's effect on the status record; characterized by RestoreThenPoll |
| Resilience.Healed | app.py:133-139 | the definition of self-heal's effect on the status record: count cleared, heal time recorded, flag set, deadline untouched; characterized by SelfHealStrandsBackup and ThirdFailureHeals |
| Resilience.Faulted | app.py:155-160 | the definition of the camera-fault handler's effect on the status record: one more fault, and a self-heal at 3; characterized by FaultCycle and ThirdFailureHeals |
| Resilience.OutageThenPoll | app.py:98-128 | an outage off battery sets the flag and the deadline `now + 300`, and the poll then fires exactly from that time on, leaving the flag and deadline cleared and the fault count unchanged |
| Resilience.OutageIdempotent | app.py:98-104 | a second outage while on battery changes nothing, so the first deadline stands |
| Resilience.SelfHealStrandsBackup | app.py:112-142 | self-heal from off battery sets the flag with no deadline; the poll then never fires and only a restore clears the flag |
| Resilience.RestoreThenPoll | app.py:618-624 | after a restore the flag is off and, if it was on, the deadline is gone; the poll then changes nothing |
| Resilience.TransitionsKeepCoherent | app.py:98-160 | outage, poll, restore, camera fault and self-heal keep the record coherent: a deadline only on battery, the count below 3 |
| Resilience.FaultCycle | app.py:153-160 | after `n` camera failures from a coherent record the count is `(faults + n) % 3` and the record stays coherent |
| Resilience.ThirdFailureHeals | app.py:153-160 | from a clean record two failures leave the count at 2, and the third counts 3 and self-heals |
| Resilience.UptimeParts | app.py:145-150 | the elapsed seconds split by floor division into hours, minutes below 60 and seconds below 60, which add back up to the elapsed time |
| FaceStore.Labels | app.py:362-363 | `list(database.keys())`: one label per entry, each the entry's name, in order |
| FaceStore.Lookup | app.py:296-299 | the dict's value for a name: none exactly when the name is not a key, otherwise an entry with that name and encoding |
| FaceStore.Upsert | app.py:298 | the definition of `database[name] = encoding` on the ordered store; characterized by UpsertLabels, UpsertLookup, UpsertKeepsUnique, UpsertTwice and UpsertSingleEntry |
| FaceStore.UpsertLabels | app.py:298 | after `database[name] = e` the key order is unchanged for a known name; a new name is appended last |
| FaceStore.UpsertLookup | app.py:298 | after the upsert the name reads the new encoding and every other name reads what it read before |
| FaceStore.UpsertKeepsUnique | app.py:298 | the upsert keeps the keys unique |
| FaceStore.UpsertTwice | app.py:298 | registering a name twice leaves only the second encoding, at the name's first position |
| FaceStore.UpsertSingleEntry | app.py:296-299 | after the upsert the store grows by at most one entry and holds the name exactly once, with the new encoding |
| Matching.FirstMatchIndex | app.py:354-363 | `matches.index(True)`: none exactly when no stored encoding matches; otherwise a matching index with no match before it |
| Matching.Recognize | app.py:354-365 | the label is none exactly when nothing matches, otherwise the name of the first matching entry in key order |
| Matching.RecognizedLabel | app.py:361-363 | a recognized name is one of the dict's keys |
| Matching.FirstInsertedWins | app.py:361-363 | when two stored encodings match, the later-inserted name is never the one reported |
| Matching.LastRecognized | app.py:352-365 | the definition of the name a frame ends with, each matching face overwriting it; characterized by LastRecognizedNone and LastRecognizedIsLastKnown |
| Matching.LastRecognizedNone | app.py:351-365 | a frame ends with no recognized name exactly when none of its faces matches |
| Matching.LastRecognizedIsLastKnown | app.py:351-365 | a frame's recognized name is that of its last face that matches |
| Matching.Shown | app.py:360-363 | the definition of a face's label: the recognized name, or "Unknown"; characterized by IntruderIffUnmatched |
| Matching.IsIntruder | app.py:374 | the definition of the intruder test as the string comparison with "Unknown"; characterized by IntruderIffUnmatched and EnrolledUnknownIsAlsoIntruder |
| Matching.IntruderIffUnmatched | app.py:360-376 | an unmatched face is labelled "Unknown" and raises the intruder path, and while no stored name is "Unknown" only unmatched faces do |
| Matching.IntruderCount | app.py:374-376 | a frame has at most as many intruders as faces |
| Matching.FaceStep | app.py:352-376 | one more face overwrites the frame's name when it matches and adds one intruder when it is labelled "Unknown" |
| Matching.ScanFrom | app.py:334-386 | the definition of the authentication loop from read `k` over the results of the reads; characterized by ScanFromStops, and the loop method AuthenticationScan is proved equal to it |
| Matching.ScanFromStops | app.py:334-386 | from read `k` the loop stops right after the first failed read or recognized frame, or after the last read; it reports that frame's outcome and adds up the intruders of every frame read |
| Matching.ObservationsUpTo | app.py:334-336 | one result per read made |
| Matching.Observations | app.py:334 | thirty results, one per read the loop may make |
| Matching.ObservedAt | app.py:335-376 | result `k` is what read `k` showed |
| Matching.ObservedUpTo | app.py:335-376 | result `k` of the first `n` reads is what read `k` showed |
| Matching.ObservedFrame | app.py:351-376 | the name and intruder count found by the face loop in read `k` are result `k` |
| Matching.ScanAll | app.py:334-386 | an authentication reads between 1 and 30 frames |
| Matching.ScanAllStops | app.py:334-386 | the scan stops right after the first frame that failed or held a recognized face, reports the last recognized face of that frame, and counts every "Unknown" face of every frame read |
| Matching.RecognizedIsStored | app.py:360-386 | a recognized user comes from a frame that was read successfully and is a stored name |
| Matching.EnrolledUnknownIsAlsoIntruder | app.py:360-376 | a user enrolled as "Unknown" who is seen is both recognized and counted as an intruder |
| Matching.ExamineFaces | app.py:352-376 | the face loop of one frame ends with the frame's last recognized name and its intruder count |
| Matching.AuthenticationScan | app.py:334-386 | the `for _ in range(30)` loop computes exactly the scan `ScanAll` describes |
| Enrollment.BestOf | app.py:275-277 | the definition of the running best face, replaced only on a strictly greater score from 0; characterized by BestOfIsEarliestMaximum and BestOfStep |
| Enrollment.Complete | app.py:289-290 | the definition of the completion test `frame_count >= 30 and best_face_score > 500`; characterized by EnrollFromStops, EnrollFromFirst and NoCapWithoutQuality |
| Enrollment.BestOfIsEarliestMaximum | app.py:275-277 | the best face is the earliest face with the highest score when that score is positive; with no positive score there is none and the score stays 0 |
| Enrollment.AllFacesStep | app.py:243-286 | reading one more frame adds its faces after those already seen |
| Enrollment.BestOfStep | app.py:275-277 | scoring one more face replaces the best only on a strictly greater score |
| Enrollment.EnrollFrom | app.py:243-290 | the scan from frame `n` ends between `n` and the last frame |
| Enrollment.EnrollFromStops | app.py:243-290 | the scan ends complete or on a failed read, never both, with the best face of the frames read by then |
| Enrollment.EnrollFromCaptured | app.py:243-249 | every frame read before the scan stops was captured |
| Enrollment.EnrollFromFirst | app.py:286-290 | no earlier point completes the scan: it stops at the first point with at least 30 frames and a score above 500 |
| Enrollment.EnrollAll | app.py:235-290 | a whole scan: the best face of the frames read, stopped at the first completing point or the first failed read, with every earlier frame captured |
| Enrollment.NoCapWithoutQuality | app.py:243-290 | with no face above 500 the scan reads every frame the camera delivers and ends on the failed read after them |
| Enrollment.AllFacesPrefix | app.py:243-286 | the faces of the frames read so far are faces of the whole run |
| Enrollment.AllFacesFromFrames | app.py:243-286 | every face seen in a run of frames is a face of one of its frames |
| Enrollment.FirstFrames | app.py:243-244 | the first `n` reads of a camera that never stops delivering frames, in order |
| Enrollment.EndlessFeedNeverStops | app.py:243-290 | on a camera that keeps delivering frames with no face above 500, the scan reads any number `n` of frames without completing, so the loop never ends |
| Enrollment.ScoreFaces | app.py:261-277 | the face loop of one frame continues the running best over that frame's faces |
| Enrollment.EnrollmentScan | app.py:235-290 | the `while not scan_complete` loop computes exactly the scan `EnrollAll` describes |
| Ledger.Entry | app.py:69-70 | the definition of the line `log_event` formats from its four columns; characterized by SplitEntry, whose round trip gives the columns back |
| Ledger.FirstCommaFinds | app.py:543 | the comma search finds the first comma, and finds none only in text without one |
| Ledger.FirstCommaAfter | app.py:543 | in `a,b` with comma-free `a` the first comma is the one after `a` |
| Ledger.Split | app.py:543 | `split(",", n)` yields between 1 and `n + 1` pieces |
| Ledger.SplitJoin | app.py:543 | joining the pieces with commas gives the line back |
| Ledger.SplitAfterCommaFree | app.py:543 | splitting `a,b` with comma-free `a` yields `a` and then the split of `b` |
| Ledger.SplitEntry | app.py:543 | an entry split with `split(",", 3)` gives back its four columns, the details verbatim even when they contain commas |
| Ledger.Recent | app.py:543 | `access_logs[-10:]`: the last `min(10, n)` entries, oldest first |
| Ledger.SplitRows | app.py:543 | one row per entry, each the entry split |
| Ledger.LogRows | app.py:543 | the table has as many rows as recent entries |
| Ledger.LogRowsAreRecentSplits | app.py:543 | row `i` of the table is recent entry `i` split |
| Ledger.EntryHasFourColumns | app.py:543-544 | a formatted line splits into exactly four columns |
| Ledger.LogRowsHaveFourColumns | app.py:543-544 | on a well-formed ledger every table row has the four named columns |
| Ledger.Entries | app.py:69-73 | line `i` written is the formatted record `i` |
| Ledger.ColumnRows | app.py:544 | row `i` holds the columns of record `i` |
| Ledger.SplitRowsOfEntries | app.py:543 | splitting the lines written for some records gives back their columns |
| Ledger.RecentEntries | app.py:543 | the last ten lines are the lines of the last ten records |
| Ledger.TableShowsRecentRecords | app.py:543-545 | a ledger written from records shows, in the table, the columns of the (at most ten) most recent records, in order |
| Ledger.WellFormedAppend | app.py:67-73 | appending a formatted entry keeps every ledger line formatted |
| Ledger.Unacknowledged | app.py:552 | the active list holds no acknowledged alert and is no longer than the queue |
| Ledger.UnacknowledgedComplete | app.py:552 | every alert still waiting for acknowledgement is in the active list |
| Ledger.ActivePosition | app.py:552-563 | the `i`-th active alert is an unacknowledged alert in the queue with exactly `i` active alerts before it |
| Ledger.AcknowledgeActive | app.py:562-563 | the definition of the queue after the `i`-th active alert is flipped; characterized by AcknowledgeRemovesOne |
| Ledger.UnacknowledgedConcat | app.py:552 | the active list of two queues one after the other is their active lists joined |
| Ledger.UnacknowledgedAround | app.py:552 | the active list seen around position `j` of the queue |
| Ledger.AcknowledgeRemovesOne | app.py:562-563 | "Ack" flips a single alert: the queue keeps its length, every other alert is unchanged, and the active list loses exactly its `i`-th element |
| SecurityHub.Repeat | app.py:374-376 | `n` copies of one entry or alert |
| SecurityHub.LogLine | app.py:67-73 | the definition of the entry `log_event(event, details)` appends with the default user "System"; LogEvent appends it and WellFormedAppend keeps the ledger formatted |
| SecurityHub.Raised | app.py:83-90 | the definition of the unacknowledged alert `send_alert(message, level)` appends; SendAlert appends it |
| SecurityHub.RfidUser | app.py:183-184 | a card logs in exactly when it is card1 or card2, as the user the database names, which is never empty |
| SecurityHub.Hub.constructor | app.py:20-45 | the initial session: logged out, appliances off, simulation mode on, empty ledger and alerts, fresh status record, the saved database |
| SecurityHub.Hub.LogTable | app.py:541-545 | the "Access Logs" table has at most ten rows and each has the four columns |
| SecurityHub.Hub.LogEvent | app.py:67-80 | exactly one formatted entry with the user "System" is appended |
| SecurityHub.Hub.SendAlert | app.py:83-92 | exactly one unacknowledged alert is appended |
| SecurityHub.Hub.ControlLight | app.py:396-410 | refused with no entry on battery; otherwise one entry and success, in either mode; the appliance map is not touched |
| SecurityHub.Hub.ControlSecuritySystem | app.py:412-422 | never refused; exactly one entry |
| SecurityHub.Hub.ControlTv | app.py:424-438 | refused with no entry on battery; otherwise one entry and success |
| SecurityHub.Hub.SimulatePowerOutage | app.py:98-109 | off battery: the flag and the five-minute deadline are set, one critical alert and one entry are written, and the TV warning is raised when the TV is on, with no TV entry because the TV call is refused; on battery nothing changes |
| SecurityHub.Hub.CheckBatteryStatus | app.py:112-128 | when the deadline has passed, the flag and deadline are cleared with a critical alert, one entry and an "off" entry per appliance that was on; otherwise nothing changes; the appliance map is never touched |
| SecurityHub.Hub.ShutDown | app.py:121-128 | off battery, each appliance that is on gets its "off" entry, in the order light, security, TV |
| SecurityHub.Hub.RestorePower | app.py:618-624 | on battery, the flag and deadline are cleared with one entry and one info alert; otherwise nothing changes |
| SecurityHub.Hub.SelfHeal | app.py:131-142 | the count is cleared and the heal time recorded, with exactly two entries; from off battery the flag is set (the deadline unchanged) with one info alert |
| SecurityHub.Hub.HandleCameraFailure | app.py:153-160 | one entry and one more fault; the third fault raises a critical alert and self-heals, which leaves the count at 0 |
| SecurityHub.Hub.HomeControl | app.py:441-508 | the depletion poll runs first; the switches then take the requested values, a light or TV change is reverted when refused on battery, and security is never reverted; one entry per change that went through |
| SecurityHub.Hub.Reconcile | app.py:499-508 | each changed switch goes through its control call, a refused light or TV change is put back, and the entries follow in the order light, security, TV |
| SecurityHub.Hub.SwitchLight | app.py:499-501 | a light change is logged and kept off battery, and is put back with no entry on battery |
| SecurityHub.Hub.SwitchSecurity | app.py:503-504 | a security change is always logged and kept |
| SecurityHub.Hub.SwitchTv | app.py:506-508 | a TV change is logged and kept off battery, and is put back with no entry on battery |
| SecurityHub.Hub.AcknowledgeAlert | app.py:562-563 | the `i`-th active alert is flipped to acknowledged |
| SecurityHub.Hub.Logout | app.py:570-576 | logged out with no current user, and exactly one entry |
| SecurityHub.Hub.SetSimulationMode | app.py:605-610 | the mode takes the toggle's value |
| SecurityHub.Hub.PinAuthentication | app.py:163-176 | the PIN 123456 logs in "Fallback User" with one entry; any other PIN leaves the login as it was, with one entry and one warning |
| SecurityHub.Hub.RfidAuthentication | app.py:178-192 | a known card logs in its user with one entry; any other card leaves the login as it was, with one entry and one warning |
| SecurityHub.Hub.CameraFault | app.py:226-233 | the entry naming the failure, then the camera-fault handler |
| SecurityHub.Hub.ScanFault | app.py:245-249 | after a scan that ended on a failed read: the failure entry and the camera-fault handler; nothing otherwise |
| SecurityHub.Hub.RegisterFace | app.py:195-304 | an empty password, or the right password with no name or no button press, changes nothing; a wrong password writes one entry; with no camera the fault path runs; otherwise the scan runs, a failed read counts a fault, and the best face (if any) is upserted under the name with its entry, or the low-quality failure is logged |
| SecurityHub.Hub.EnrollUser | app.py:235-304 | the scan of `EnrollAll`, the fault path when it ended on a failed read, then the commit of its best face |
| SecurityHub.Hub.Commit | app.py:296-304 | with a best face, only that name is upserted and "Registered new user" logged; with none, the store is unchanged and the failure logged |
| SecurityHub.Hub.AuthenticateFace | app.py:307-393 | with no camera the fault path runs and the login is unchanged; otherwise one intruder entry and critical alert per "Unknown" face, the fault path on a failed read, then the recognized user logged in with a success entry, or the denial entry and warning |
| SecurityHub.Hub.ReportIntruders | app.py:374-376 | one "Unauthorized face detected" entry and one intruder alert per unknown face |
| SecurityHub.Hub.Conclude | app.py:381-393 | a recognized name logs in with a success entry; otherwise the login is unchanged, with the failure entry and the "Authentication failed" warning |
| SecurityHub.Hub.RequestClear | app.py:631-632 | the clear prompt opens |
| SecurityHub.Hub.CancelClear | app.py:649-651 | the clear prompt closes |
| SecurityHub.Hub.ConfirmClear | app.py:634-647 | with the prompt open, the admin password empties the database, closes the prompt and writes one entry, and a wrong password writes a failure entry and keeps the prompt open; with it closed nothing happens |

## Left out

- Streamlit rendering, toasts, spinners, `st.rerun` and `time.sleep`: UI with no state logic.
- Page routing (app.py:582-598): every handler is a method callers invoke directly.
- Widget constraints: the six-character PIN field, the RFID select box limited to the two cards, and the
  disabled toggles on battery. Each handler takes any input, and the refusal path covers a change a
  disabled toggle would not offer.
- OpenCV capture, colour conversion and drawing: a camera is a datatype that either did not open or
  yields recorded frames. Exceptions other than "Camera not available" are not modelled.
- `face_locations`, `face_encodings` and `compare_faces`: a face arrives with its encoding, and the
  comparator is a parameter with no assumed properties.
- The quality-score arithmetic (face area over distance from the centre, with a square root): the
  score is a real that arrives with each face.
- Floating-point clock readings: `now` is whole seconds, and the formatted time stamps arrive in the
  `Reading`.
- `Resilience.UptimeParts`: works on whole seconds and omits the text formatting of `get_uptime`.
- Pickle load and save, the log-file append, the log export and the log-file header (app.py:48-64,
  app.py:76-80, app.py:654-665, app.py:683-686): the database and the ledger are the in-memory state.
  The "Database load failed" path is left out.
- The "Log file initialized" entry (app.py:683-686): when the log file is missing at the end of a
  page run, the source appends that System Event entry to the in-memory ledger. The model
  has no file system, so the constructor's empty ledger and the handlers' ledgers omit it.
- An endless camera feed: a recorded run of frames is finite and a read past its end fails, so
  every enrollment scan the model's `Hub.RegisterFace` performs ends. On a camera that keeps
  delivering frames with no face above 500, the source's `while not scan_complete` loop never
  returns. The model states this as `Enrollment.EndlessFeedNeverStops` over a feed `nat -> Frame`,
  but a handler that never returns is not a method in it.
- The simulation-mode branch of each control call: it writes the same entry as the device branch, so
  both are one path.
- Concurrency: the application has none.
