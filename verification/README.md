# Webshark, verified

A model in Dafny of the parts of Webshark that carry state or arithmetic worth a proof, and
the proofs. Each component has a specification by value (functions and predicates), the
operations as the source writes them (classes whose methods update their fields, loops that
scan), each proved equal to the specification, and theorems about whole runs of it. What a
specification comes to is proved besides, told by inputs and outputs alone: in `ImsSessions`,
`PoolFates`, `CaptureChoice`, `CaptureOutcomes`, `PcapngTimes`, `EspSpelling`,
`EspAssociations` and `FilterPieces`.

| component | modules | what it is |
|---|---|---|
| identities | `ImsSets`, `ImsBinding`, `ImsClosure`, `ImsRelate`, `ImsMachine`, `ImsPlugin`, `ImsWidening`, `ImsDissector`, `ImsSessions` | `plugins/ims.lua`: classes of identities merged message by message, the widening of a frame through them, and the generation counter that says when a cached widening may be used again |
| session pool | `PoolRules`, `Pool`, `PoolMachine`, `PoolSteps`, `PoolSafety`, `PoolRuns`, `PoolFates` | `src/sharkd.go`: sharkd processes shared by any number of requests at once, one step between two locks |
| capture reconciler | `CaptureOrder`, `CaptureUrl`, `CaptureNames`, `CaptureModel`, `CaptureChoice`, `CaptureReconciler`, `CaptureSafety`, `CapturePhases`, `CaptureRuns`, `CaptureRecovery`, `CaptureOutcomes` | the operator's PacketCapture controller against an API server whose calls fail, pods that come and go, and status writes that are lost |
| capture files | `PcapngFormat`, `PcapngClock`, `PcapngWalk`, `PcapngFiles`, `PcapngTimes` | `src/capture.go`: the first and last time of a pcapng file, read from either end (draft-ietf-opsawg-pcapng, sections 3.1, 3.5, 4.2 and 4.3) |
| security associations | `EspHeader`, `EspSpelling`, `EspRecords`, `EspRuns`, `EspPlugin`, `EspAssociations` | `plugins/ims_esp/packet-ims-esp.c`: ESP keys and SPIs recovered from SIP registrations (RFC 3329, section 2.2; 3GPP TS 33.203, Annexes H and I) |
| filters | `FilterLexer`, `FilterPieces`, `Requote`, `RequoteStrays`, `RequoteTwice` | `src/web/app.js`: quotes put around the values of a display filter |
| lanes | `Lanes` | `src/web/app.js`: the order of the columns of the flow diagram |
| search | `Fuzzy` | the operator page's fuzzy matcher |

`Options` and `Basics` hold what every component needs.

Where a promise turned out false of the code, the code is kept as it is, the failing case is
a lemma, and the exact condition under which the promise holds is proved:

- a paused pass can leave a target capturing: `start` takes up a capture pod it finds before
  it looks at the pause. `CapturePhases.PausedPass` says for which targets,
  `CapturePhases.PauseHolds` by what is there before the pass, and
  `CapturePhases.PausedPassAdopts` shows one;
- a failed target is not final when the message it failed with is just `paused`, the word by
  which a paused target is known. `CapturePhases.FailedRestarts` shows one that is captured
  again, its capture pod having gone; `CapturePhases.RestartsExactly` has the condition, for
  failed and completed targets alike. With any other message they never change
  (`CaptureRuns.PlacesKept`);
- the finalizer can go while capture pods of the object run on: with no namespace to look
  for them in, none is deleted. `CapturePhases.FinalizerLeavesPod` shows one left behind,
  `CapturePhases.FinalizerGoes` has the condition;
- a lost status write can lose how a capture ended: once its capture pod has gone the next
  pass calls it stopped, whatever the lost pass had made of it (`CaptureRecovery.LostEnd`, an
  if and only if), be that a failure or a good end (`CaptureRecovery.LostOutcome`) or a pause,
  which is then never resumed (`CaptureRecovery.LostPause`). What is not lost is in
  `CaptureRecovery.LostStatus`. Files are among that but for one case, of a capture pod that
  says just `paused` (`CaptureRecovery.FileKept`, an if and only if);
- the file name of a capture can be one letter too long for the image:
  `CaptureNames.FileNameLength` says when, `CaptureNames.FileNameTooLong` shows one;
- the file name does not survive an upload base with a fragment: `CaptureUrl.FileComesBack`,
  and `CaptureUrl.FileIsLost` for one;
- the two-halves time is exact for units of 2000 to 18446744073709552 a second and for no
  others: `PcapngClock.ExactWhen`, with a failing count on either side in
  `PcapngClock.TooCoarse` and `PcapngClock.TooFine`;
- a filter with a quote that is never closed can come apart differently once quotes are put
  in: `RequoteStrays.StrayQuote` shows one. `RequoteStrays.RequotedPiecesExactly` has the
  condition for every text, and `RequoteStrays.RequotedPlain` what it comes to where there
  are no backslashes;
- requoting twice is not always requoting once: `RequoteTwice.BrokenLine` shows a filter of
  two lines whose second line is quoted again. All such filters have, behind a quote left
  open, a value to quote with a backslash at the end of its line
  (`RequoteTwice.RequotedTwice`, one way only), so a filter of one line is never among them
  (`RequoteTwice.RequotedOneLine`). Any text is left as it is exactly if no value in it is
  bare that should be quoted (`RequoteTwice.Unchanged`).

Choices that hold throughout: Go, Lua, C and JavaScript strings are sequences of
characters; integers are unbounded except in `PcapngClock`, where every 64-bit step wraps as
the source's does; what a library, the network, a clock or another process answers is a
parameter. The comments of `packetcapture_controller.go` say that pausing stops the captures;
the code is followed where the two differ.

## Model

| member | source | states |
|---|---|---|
| ImsSets.IdSet.Add | plugins/ims.lua:339-351 | adding a key under a role changes the shared table as the value says, and tells whether the role was new |
| ImsBinding.TargetHas | plugins/ims.lua:533-567 | the class a message leaves behind holds exactly what it spells and what the classes it reaches held, pair by pair of key and role |
| ImsBinding.UniteKeepsPartition | plugins/ims.lua:533-567 | a key leads to a class exactly when it is in it, after every merge: none leads to an absorbed class |
| ImsBinding.UniteSame | plugins/ims.lua:533-567 | merging changes nothing exactly when the message is empty or one class already holds all it spells |
| ImsClosure.ConnectedEquivalence | plugins/ims.lua:533-567 | being connected by overlapping messages is symmetric and transitive and joins the keys of each message |
| ImsClosure.ConnectedLeast | plugins/ims.lua:533-567 | it is the least such relation |
| ImsClosure.BindIsClosure | plugins/ims.lua:533-567 | after any messages two keys share a class exactly when messages connect them, and a class holds exactly the pairs its component spelled |
| ImsClosure.BindIgnoresOrder | plugins/ims.lua:533-567 | the order of the messages, and saying one twice, makes no difference |
| ImsPlugin.Subscribers.Unite | plugins/ims.lua:533-567 | merging in place, by tables that are shared and re-pointed, is the merge by value, and `moved` is raised exactly when a class changed or the message was empty |
| ImsRelate.WidenHolds | plugins/ims.lua:585-631 | a widened set holds the frame and every class it reaches; its public identities are those neither barred nor private |
| ImsRelate.RolesDisjoint | plugins/ims.lua:585-631 | no identity is given out as private and public at once, and no barred one as public |
| ImsRelate.RelatedExactly | plugins/ims.lua:596-631 | `related` is raised exactly when a class gave an allowed pair that the frame's own kept ones lacked |
| ImsWidening.Relate | plugins/ims.lua:596-631 | the loops over shared tables compute that set and that flag |
| ImsMachine.ReadPublics | plugins/ims.lua:414-443 | the walk over public identities in the schema's order, whatever other elements stand among theirs, reads every one, and bars exactly those whose own element says so, moving `gen` exactly when the barred set changes |
| ImsDissector.Plugin.ReadUserData | plugins/ims.lua:414-443 | the walk in place is that walk |
| ImsDissector.Plugin.Reset | plugins/ims.lua:485-490 | a reset forgets everything but moves `gen` on |
| ImsDissector.Plugin.ReadDiameterFrame | plugins/ims.lua:637-694 | what a Diameter frame spells, borrows from its request and binds |
| ImsDissector.Plugin.ReadSipFrame | plugins/ims.lua:696-743 | what a SIP frame spells and binds |
| ImsDissector.Plugin.ReadMediaFrame | plugins/ims.lua:745-778 | what a media frame borrows from its setup frame, and whether anything may be missing |
| ImsDissector.Plugin.Dissect | plugins/ims.lua:819-889 | one call over the shared tables is one step of the session by value, in what it leaves and in what it shows |
| ImsMachine.CacheIsExact | plugins/ims.lua:858-865 | in every reachable state a cached widening whose stamp is `gen` is the one a fresh look would give |
| ImsMachine.ShownIsFresh | plugins/ims.lua:858-865 | so what a frame shows is always what the classes of that moment say |
| ImsMachine.RunIsClosure | plugins/ims.lua:533-567 | in every reachable state the classes are the closure of the messages bound since the last reset |
| ImsMachine.FrameOnlyGrows | plugins/ims.lua:585-631 | between resets a frame's identities and private ones only grow, and a public one goes only by being barred or turning out private |
| ImsSessions.SipBinds | plugins/ims.lua:696-743 | a SIP frame read for the first time shows just what it spells; of a REGISTER all of it is bound into one class, of anything else nothing is learnt |
| ImsSessions.SipCounts | plugins/ims.lua:533-567 | the counter stands still exactly when one class has all a REGISTER spells already, and moves by one otherwise |
| ImsSessions.RegisteredIsShown | plugins/ims.lua:585-631 | whatever comes after it in the file, a frame with any identity of a REGISTER shows all of them, the private ones as such, and is related if it lacked one of those |
| ImsSessions.DiameterBinds | plugins/ims.lua:637-679 | a Diameter frame that names anybody shows whom its AVPs and its User-Data name, bars whom that bars, is remembered for its session if it has just one, and binds exactly if it is a single command |
| ImsSessions.AnswerRecalls | plugins/ims.lua:680-691 | one that names nobody shows whom its sessions are remembered for, and is linked exactly if that is anybody |
| ImsSessions.AnswerIsStitched | plugins/ims.lua:665-691 | so an answer shows whom its request named, whatever comes between but another message of that session alone |
| ImsSessions.MediaBorrows | plugins/ims.lua:748-778 | a media frame shows whom its setup frame was between, and is kept exactly if that frame has said something |
| ImsSessions.LookedAtBefore | plugins/ims.lua:846-856 | a frame looked at before shows what it said then, and teaches nothing |
| ImsSessions.ResetForgets | plugins/ims.lua:485-490 | another capture begins with nothing known and the counter moved on |
| PoolRules.EvictsMakesRoom | src/sharkd.go:90-100 | eviction takes no session twice, as many as leave one place free and no more, and none used later than one that stays |
| Pool.Sessions.Oldest | src/sharkd.go:91-96 | the scan that starts from the empty name finds a session used no later than any other |
| Pool.Sessions.Lookup | src/sharkd.go:83-101 | the first section of `acquire`: the live session, or room made and the evicted sessions in order |
| Pool.Sessions.Publish | src/sharkd.go:108-118 | the second: the session is held unless a live one was published meanwhile |
| Pool.Sessions.Drop | src/sharkd.go:197-203 | only the session that failed is taken out |
| Pool.Sessions.CloseFile | src/sharkd.go:208-214 | what was held for the reference is taken out and handed back to be closed |
| Pool.Sessions.Reap | src/sharkd.go:230-242 | exactly the sessions last used before the cutoff go |
| Pool.Session.Do | src/sharkd.go:244-290 | one request consumes the lines up to the first answer; the session is dead after anything but an answer that parses |
| Pool.Session.Close | src/sharkd.go:292-307 | a session is torn down by the close that finds it alive |
| PoolSteps.Lookup | src/sharkd.go:83-101 | the section run under the lock is a step of the interleaving: the pool of objects stands for the next state |
| PoolSteps.Publish | src/sharkd.go:108-118 | and so is publishing |
| PoolSteps.Drop | src/sharkd.go:197-203 | and dropping, where objects are told apart by identity |
| PoolSteps.CloseFile | src/sharkd.go:208-214 | and closing a file |
| PoolSteps.Reap | src/sharkd.go:230-242 | and a tick of the reaper |
| PoolSteps.Do | src/sharkd.go:244-290 | one `do` is the turns of the interleaving from taking the mutex to letting go of it, and returns the answer they read: to its own request |
| PoolSteps.Close | src/sharkd.go:292-307 | and one close is the step that closes |
| PoolSafety.StepKeepsInv | src/sharkd.go:65-119 | every step of every request keeps the invariant that the run theorems rest on |
| PoolRuns.NoSessionLost | src/sharkd.go:83-166 | a session that has not ended is being loaded by the request that started it, or is held under its one reference, or has a close started |
| PoolRuns.HeldSessions | src/sharkd.go:83-242 | what is held changes in three ways only: a live session is published where none alive was, a failed one is dropped, or one is removed and a close started for it |
| PoolRuns.ClosedSessions | src/sharkd.go:292-307 | a closed session is held by nobody, was torn down once, and was between requests |
| PoolRuns.EndsForGood | src/sharkd.go:292-307 | a session that has ended stays ended for ever, in the one way |
| PoolRuns.LeavesForGood | src/sharkd.go:108-119 | a session that was published and is no longer held is never held again, over any run |
| PoolRuns.CloseWaitsForRequest | src/sharkd.go:244-295 | no close interrupts a request in progress |
| PoolRuns.AnswersArePaired | src/sharkd.go:244-290 | though ids are never checked, a session that is alive and idle has consumed as many answers as it sent requests, and every answer given is to the request that asked |
| PoolRuns.CapacityHolds | src/sharkd.go:83-119 | with at most C spawns at once, sessions held and spawns never pass max - 1 + C |
| PoolRuns.SerialPoolFits | src/sharkd.go:83-119 | with one spawn at a time no more than max sessions are held |
| PoolRuns.OldestGoFirst | src/sharkd.go:90-100 | every session evicted was used no later than any that stays |
| PoolFates.ReapTakesIdle | src/sharkd.go:230-242 | of the sessions held, a tick of the reaper takes exactly those last used before its cutoff, and starts a close for each |
| PoolFates.CloseEndsSession | src/sharkd.go:292-307 | a close that gets the mutex ends its session, and tears it down if nothing had ended it |
| PoolFates.AnsweredByItsOwn | src/sharkd.go:65-80 | from its arrival on a request has to do with sessions of its own reference only, and is answered by one |
| PoolFates.RequestEnds | src/sharkd.go:65-80 | a request starts two processes at most, and is given up only if none could be had, sharkd answered with an error, or two of them broke |
| PoolFates.BrokenIsRetried | src/sharkd.go:65-80 | a session that breaks is dropped for good, and after the first the request is made again |
| PoolFates.AtMostSoManyTurns | src/sharkd.go:65-80 | whatever breaks, a request takes no more than twenty-six turns |
| PoolFates.NobodyIsStuck | src/sharkd.go:65-119 | in every reachable state a request that is not done can go on, or the one whose session it waits for can |
| CaptureOrder.ListsOnce | operator/internal/controller/packetcapture_controller.go:410-415 | by namespace and name a set of pods has one order |
| CaptureReconciler.Reconciler.Targets | operator/internal/controller/packetcapture_controller.go:389-422 | whatever order the server lists pods in, those selected that run and are not on their way out come by namespace and name, as far as the limit goes |
| CaptureChoice.ListedAreChosen | operator/internal/controller/packetcapture_controller.go:389-422 | so are the pods the pass by value goes over |
| CaptureReconciler.Reconciler.Start | operator/internal/controller/packetcapture_controller.go:225-264 | adopting, waiting, refusing or creating, in the order the code asks |
| CaptureReconciler.Reconciler.Observe | operator/internal/controller/packetcapture_controller.go:270-301 | reading a capture pod back, or ending the capture |
| CaptureReconciler.Reconciler.KeepTargets | operator/internal/controller/packetcapture_controller.go:121-159 | the loop over the targets on the list, up to the first call that fails |
| CaptureReconciler.Reconciler.PickPods | operator/internal/controller/packetcapture_controller.go:165-195 | the loop over pods not on the list, up to the first there is no room for |
| CaptureReconciler.Reconciler.Counts | operator/internal/controller/packetcapture_controller.go:587-609 | the counters are the numbers of targets in each phase |
| CaptureReconciler.Reconciler.StopAll | operator/internal/controller/packetcapture_controller.go:327-347 | the finalizer's deletes, up to the first that fails |
| CaptureReconciler.Reconciler.Run | operator/internal/controller/packetcapture_controller.go:75-218 | a whole pass over what the server holds, its status written, lost or left alone, is the pass by value |
| CaptureSafety.PassOk | operator/internal/controller/packetcapture_controller.go:94-218 | a pass adds no pod twice, moves no target, changes none that is settled, and captures only what is on the list it writes |
| CaptureOutcomes.NewTargets | operator/internal/controller/packetcapture_controller.go:165-264 | every target a pass adds is of a pod selected, running and not on the list, and is just what the code gives such a pod: adopted and told as its capture pod stands, failed with the reason, or pending under a capture pod made for it with its upload URL |
| CaptureOutcomes.NoneForgotten | operator/internal/controller/packetcapture_controller.go:165-195 | with nothing paused and not too many of them, every such pod has got its target, or must wait: its capture pod's name is still taken, or it has gone |
| CaptureOutcomes.CapturesOnlyWanted | operator/internal/controller/packetcapture_controller.go:116-195 | a capture pod is made for a pod selected and running only, resumed ones too |
| CaptureOutcomes.LiveTargets | operator/internal/controller/packetcapture_controller.go:121-159 | in any pass that writes its status every capture under way is stopped if its capture pod has gone, ended with its capture pod if its pod has gone or does not run or for a pause, and otherwise goes on as that stands; and no call it needed failed |
| CaptureOutcomes.StatusCounts | operator/internal/controller/packetcapture_controller.go:197-217 | the status counts the targets of each phase and the pods selected, and the pass comes again soon exactly if a capture is under way |
| CaptureOutcomes.ReadySaysWhyNot | operator/internal/controller/packetcapture_controller.go:94-114 | a pass that does not get to the pods says why, keeps the targets as they are and captures nothing |
| CaptureOutcomes.ReadySays | operator/internal/controller/packetcapture_controller.go:200-212 | one that does says it is paused exactly if it is, that there are no pods exactly if there are none, and that there are too many if there are, or if one was left out for want of room |
| CaptureRuns.AlwaysConsistent | operator/internal/controller/packetcapture_controller.go:587-609 | at every moment: no pod twice, pending and capturing targets name their capture pod, and the four counts add up to the list |
| CaptureRuns.PlacesKept | operator/internal/controller/packetcapture_controller.go:116-195 | over any run a target keeps its index, and once it is over stays as it is, unless its message is the pause's own |
| CaptureRuns.LifetimeLimit | operator/internal/controller/packetcapture_controller.go:161-195 | while status writes land and the limit is not lowered, no more pods are ever captured than `maxTargets` |
| CaptureRuns.WaitsUntilGone | operator/internal/controller/packetcapture_controller.go:145-158 | a paused target does not restart until its capture pod, being deleted, has gone |
| CapturePhases.PassPauses | operator/internal/controller/packetcapture_controller.go:116-158 | the pass that pauses a capture leaves its capture pod marked for deletion, whatever the rest of it does |
| CaptureRuns.PausedWaits | operator/internal/controller/packetcapture_controller.go:116-195 | so from the pass that pauses it on, over any run, a target waits as long as its capture pod is there |
| CaptureRuns.RestartedOnceGone | operator/internal/controller/packetcapture_controller.go:116-195 | and where it is found otherwise its capture pod was gone at some moment in between |
| CaptureRuns.NothingAfterDelete | operator/internal/controller/packetcapture_controller.go:82-86 | once the object is being deleted no pass makes a capture pod |
| CapturePhases.PausedPass | operator/internal/controller/packetcapture_controller.go:225-246 | after a paused pass a target is pending or capturing exactly when it is new and its capture pod was found alive |
| CapturePhases.PauseHolds | operator/internal/controller/packetcapture_controller.go:225-246 | none is if no pod to capture off the list has a capture pod left alive, and only then while the list has room |
| CapturePhases.PausedPassAdopts | operator/internal/controller/packetcapture_controller.go:225-246 | such a pass |
| CapturePhases.RestartsExactly | operator/internal/controller/packetcapture_controller.go:145-158 | a target that is over, failed or completed, changes exactly when its message is the pause's, nothing is paused, its pod is listed and runs, and `start` finds a pod to adopt or can make one |
| CapturePhases.RestartNeedsName | operator/internal/controller/packetcapture_controller.go:145-158 | then no deletion of its capture pod is pending, and a new one is made only where there is none |
| CapturePhases.RestartsOnceGone | operator/internal/controller/packetcapture_controller.go:145-158 | and with no fault it starts anew, to the letter, once its capture pod has gone |
| CapturePhases.FailedRestarts | operator/internal/controller/packetcapture_controller.go:150-158 | a pass in which a failed target is captured again |
| CapturePhases.PausedMeansDeleted | operator/internal/controller/packetcapture_controller.go:286-299 | the turn that pauses a capture marks its pod for deletion |
| CapturePhases.FinalizerGoes | operator/internal/controller/packetcapture_controller.go:327-347 | with no fault the finalizer goes, and only from an object being deleted, no capture pod of another touched; it leaves every capture pod of this one marked if and only if the operator has a namespace or they were marked before |
| CapturePhases.FinalizerLeavesPod | operator/internal/controller/packetcapture_controller.go:327-347 | with no namespace it goes and a running capture pod is left |
| CaptureRecovery.LostStatus | operator/internal/controller/packetcapture_controller.go:165-264 | the pass after a lost status makes no second capture pod, names the same pod and file for every target, and gives it the same phase and message where its capture pod is as it was left |
| CaptureRecovery.LostStatusRewritten | operator/internal/controller/packetcapture_controller.go:165-264 | where nothing happened to the capture pods the lost status is written after all, to the letter |
| CaptureRecovery.FileKept | operator/internal/controller/packetcapture_controller.go:145-158 | a capture under way keeps its file, except exactly where its capture pod says just `paused`, is not being deleted and has another in its URL |
| CaptureRecovery.LostEnd | operator/internal/controller/packetcapture_controller.go:276-299 | a target the old status has under way is called stopped by the next pass exactly when its capture pod has gone, however the lost pass had ended it |
| CaptureRecovery.LostOutcome | operator/internal/controller/packetcapture_controller.go:270-303 | a failure, or a good end, that the lost pass had told becomes a stop exactly when its capture pod has gone |
| CaptureRecovery.LostPause | operator/internal/controller/packetcapture_controller.go:276-299 | so a pause that was lost settles the target exactly when its capture pod has gone |
| CaptureRecovery.LostPauseSettles | operator/internal/controller/packetcapture_controller.go:276-299 | the same of one turn of the loop |
| CaptureRecovery.NotMadeTwice | operator/internal/controller/packetcapture_controller.go:225-258 | whatever fails in either pass, and status written or lost, what one made and is still there no other makes again |
| CaptureUrl.UnescapeEscape | operator/internal/controller/packetcapture_controller.go:553-566 | any text comes back from its query escape |
| CaptureUrl.EscapedSays | operator/internal/controller/packetcapture_controller.go:564-566 | what each byte is escaped to |
| CaptureUrl.UploadedTo | operator/internal/controller/packetcapture_controller.go:564-566 | a plain file name is uploaded to the base, `/api/file?f=` and the name |
| CaptureUrl.FileComesBack | operator/internal/controller/packetcapture_controller.go:544-566 | the file name comes back from the upload URL exactly when the base has no fragment, or the name is empty |
| CaptureUrl.FileIsLost | operator/internal/controller/packetcapture_controller.go:544-566 | a base from which the name does not come back |
| CaptureNames.FileNameIsAccepted | operator/internal/controller/sniffer.go:274-305 | the name of a capture begins with a letter or digit and has only characters the image accepts |
| CaptureNames.FileNameLength | operator/internal/controller/sniffer.go:274-289 | it fits in 128 characters exactly when it is shorter than that without a letter in front, or needs none |
| CaptureNames.FileNameTooLong | operator/internal/controller/sniffer.go:274-289 | one of 129 |
| CaptureNames.FileNameSays | operator/internal/controller/sniffer.go:274-289 | of names the image accepts anyway: prefix, capture, pod and namespace in that order, and of the pod as much goes as is too much |
| PcapngClock.Halves | src/capture.go:210-214 | the two halves add up to the whole division |
| PcapngClock.ExactWhen | src/capture.go:198-215 | every 64-bit count is converted exactly, without wrapping, if and only if the unit is in 2000 to 18446744073709552 |
| PcapngClock.UnitsExact | src/capture.go:218-251 | of the units if_tsresol can give, those are 10^4 to 10^16 and 2^11 to 2^54 |
| PcapngClock.Monotone | src/capture.go:198-215 | and there a later count is never an earlier time |
| PcapngClock.Pow10 | src/capture.go:245-251 | ten to the power of the value, or of 19, in 64 bits |
| PcapngWalk.BackFrom | src/capture.go:179-193 | on any bytes a step back lands twelve bytes or more earlier, at no negative offset, on a block whose own length leads back |
| PcapngWalk.TsResol | src/capture.go:218-243 | the option walk, on any bytes, as the recursive reading of it |
| PcapngWalk.PcapngTimes | src/capture.go:108-161 | both walks over any bytes, as the recursive reading of them |
| PcapngFiles.ResolutionRead | src/capture.go:218-243 | over any serialized options the walk finds the first if_tsresol that has a value before the end of options, else microseconds |
| PcapngFiles.TimesOfFile | src/capture.go:108-161 | over any serialized file in either byte order: First is the time of the first packet with one, Last of the last packet, by the interfaces described before the first, each within 4096 blocks of its end |
| PcapngFiles.LastIsItsOwn | src/capture.go:108-161 | Last is the last packet's own time if its interface was described before the first packet, or never was |
| PcapngTimes.FirstTime | src/capture.go:108-145 | a file begins at the count of its first packet, high half first, times 1000 by the units of its interface, or by a million |
| PcapngTimes.LastTime | src/capture.go:146-159 | and ends at that of its last |
| PcapngTimes.ResolutionSays | src/capture.go:218-251 | the units are what the first if_tsresol with a value says, a power of ten or of two, and a million without one |
| PcapngTimes.BlockSays | src/capture.go:163-174 | on any bytes there is a block where its type and a length of 12 bytes to 16 megabytes in whole words are |
| PcapngTimes.BlockEndSays | src/capture.go:179-194 | and one ends where the length before it leads back to a block of that length |
| PcapngTimes.BlockSizes | src/capture.go:59-67 | what may be a block of a file at all: whole words, 16 megabytes at most |
| PcapngTimes.SectionLayout | src/capture.go:52-57 | the bytes of a section header, little-endian |
| PcapngTimes.OtherSectionLayout | src/capture.go:52-57 | and big-endian |
| PcapngTimes.PacketLayout | src/capture.go:196-207 | those of a packet |
| PcapngTimes.InterfaceLayout | src/capture.go:216-239 | and those of an interface with an option |
| PcapngFiles.WalksAgree | src/capture.go:163-193 | the backward walk stops at exactly the forward walk's boundaries, in reverse |
| PcapngFiles.BackAndForth | src/capture.go:163-193 | on any bytes, as many steps forward lead back from where steps backward got to |
| EspHeader.SplitJoins | plugins/ims_esp/packet-ims-esp.c:284-320 | parts are what lies between separators, and all of it |
| EspHeader.TrimIsTight | plugins/ims_esp/packet-ims-esp.c:196-212 | trimming takes the white space off both ends and nothing else |
| EspHeader.OfferIsFirst | plugins/ims_esp/packet-ims-esp.c:252-320 | a header says something exactly when one of its comma-separated mechanisms has a valid SPI, and then it is the first such, with its own parameters only |
| EspHeader.SpiReads | plugins/ims_esp/packet-ims-esp.c:238-257 | the SPI is spelled in eight hex digits that read back as the decimal number |
| EspHeader.Mechanism.Set | plugins/ims_esp/packet-ims-esp.c:215-234 | a parameter is noted unless one of its name has been, so that a mechanism has each by its first occurrence |
| EspHeader.ReadToken | plugins/ims_esp/packet-ims-esp.c:196-212 | the pointers that close in on a token find it trimmed and lowercased |
| EspHeader.ReadMechanism | plugins/ims_esp/packet-ims-esp.c:293-313 | the scan of one mechanism between two pointers is the split of it |
| EspHeader.ReadHeader | plugins/ims_esp/packet-ims-esp.c:284-320 | the scan of a header is the split specification, in its result and in failing |
| EspSpelling.ParamsComeBack | plugins/ims_esp/packet-ims-esp.c:293-308 | parameters written after the name of a mechanism are read back |
| EspSpelling.MechanismSays | plugins/ims_esp/packet-ims-esp.c:215-236 | a mechanism means, for each of its five names, the first value under that name |
| EspSpelling.HeaderSays | plugins/ims_esp/packet-ims-esp.c:284-320 | a header of several mechanisms means the first that has a number of 32 bits for an SPI |
| EspSpelling.TokenSays | plugins/ims_esp/packet-ims-esp.c:196-212 | a token is a text without the white space at its ends, in small letters |
| EspSpelling.SpiComesBack | plugins/ims_esp/packet-ims-esp.c:238-260 | an SPI written in decimal reads back from the hex it has in the table |
| EspRecords.KeyIsHex | plugins/ims_esp/packet-ims-esp.c:327-350 | a key is accepted exactly when it is 32 hex digits, in quotes or not, and is told in lower case |
| EspRecords.ReadKey | plugins/ims_esp/packet-ims-esp.c:327-350 | the loop over its characters agrees |
| EspRecords.KeysFit | plugins/ims_esp/packet-ims-esp.c:360-376 | 160 bits for SHA-1, 192 for triple DES, 128 otherwise and none for no encryption, each beginning with the key it is made from |
| EspRecords.Algo | plugins/ims_esp/packet-ims-esp.c:155-168 | the table search finds an entry of that name, and fails only when there is none |
| EspRecords.RecordsCount | plugins/ims_esp/packet-ims-esp.c:426-531 | a frame yields records exactly when everything has come together, one per SPI of either party and at most four |
| EspRecords.RecordsAre | plugins/ims_esp/packet-ims-esp.c:495-528 | each server SPI has a record towards the P-CSCF and each client SPI one towards the UE, and there is no other |
| EspRuns.NeverLoadedTwice | plugins/ims_esp/packet-ims-esp.c:398-419 | over any run of frames and files no record is loaded twice |
| EspRuns.KnownIsLatest | plugins/ims_esp/packet-ims-esp.c:441-461 | the keys and client SPIs known for a Call-ID are those of the latest valid frame of the file, and none when there was none |
| EspRuns.FirstReading | plugins/ims_esp/packet-ims-esp.c:426-531 | a frame yields the associations of its own Security-Server with what is known by then |
| EspRuns.ShownAgain | plugins/ims_esp/packet-ims-esp.c:534-563 | and shows the same ever after in that file |
| EspAssociations.FieldsOfLine | plugins/ims_esp/packet-ims-esp.c:519-523 | the quoted fields of a record come back from its line |
| EspAssociations.FrameShows | plugins/ims_esp/packet-ims-esp.c:455-531 | a frame shows something exactly if all there has to be is there, nothing but associations, field by field, from the UE to the P-CSCF under an SPI of the latter or back under one of the UE, and one for each SPI of either |
| EspAssociations.FrameLoads | plugins/ims_esp/packet-ims-esp.c:398-419 | and just these come into the table, but for those it refuses or has |
| EspAssociations.KeysBrought | plugins/ims_esp/packet-ims-esp.c:435-442 | a frame brings keys exactly if its IK is 32 hex digits: that, and its CK if that is |
| EspAssociations.SpisBrought | plugins/ims_esp/packet-ims-esp.c:444-450 | and SPIs exactly if its Security-Client offers some, each as it is spelled |
| EspAssociations.NewFileForgets | plugins/ims_esp/packet-ims-esp.c:595-599 | another file begins with nothing known and no frame read |
| EspAssociations.VisitedIs | plugins/ims_esp/packet-ims-esp.c:545-546 | a frame is read once in a file, when it is first dissected |
| EspPlugin.Plugin.OpenFile | plugins/ims_esp/packet-ims-esp.c:595-599 | another file: what belongs to a file is forgotten, what has been loaded is not |
| EspPlugin.Plugin.DissectFrame | plugins/ims_esp/packet-ims-esp.c:534-563 | one dissection over the maps and the table is one step by value |
| FilterLexer.LexWeaves | src/web/app.js:1424-1430 | nothing of a filter is lost between pieces and gaps |
| FilterPieces.PieceIs | src/web/app.js:1430 | a piece is what the alternatives of the pattern say, character by character |
| FilterPieces.ValueIs | src/web/app.js:1431-1455 | a value found is a bare word just after a comparison of a bare field, or in the set after an `in`, and every such word is found |
| FilterPieces.RequotedAre | src/web/app.js:1438-1469 | just the values of fields that take strings are put in quotes |
| FilterPieces.QuotedMeans | src/web/app.js:1466 | and in quotes they are a piece and mean what they meant |
| FilterLexer.RelexExactly | src/web/app.js:1424-1430 | quoting bare pieces changes those pieces and nothing else if and only if no quote left open between pieces is closed by it |
| FilterLexer.Relex | src/web/app.js:1424-1430 | as it never is with only white space in the gaps |
| Requote.FindValues | src/web/app.js:1438-1455 | the scan finds every value compared against a field, in order, and no other piece |
| Requote.RequoteText | src/web/app.js:1438-1469 | the output is the text with the values of string fields in quotes, spliced in place |
| Requote.RequotedPieces | src/web/app.js:1438-1469 | lexed again, a text with only white space between pieces has the same pieces, the cut ones quoted |
| Requote.RequotedOnce | src/web/app.js:1438-1469 | and requoting it twice is requoting it once |
| RequoteStrays.RequotedPiecesExactly | src/web/app.js:1424-1469 | any text has the same pieces, the cut ones quoted, if and only if no stray quote of it would be closed with its cut values left blank |
| RequoteStrays.RequotedPlain | src/web/app.js:1424-1469 | without backslashes: if and only if no double quote stands between pieces before a value that is cut |
| RequoteStrays.RequotedAgain | src/web/app.js:1438-1469 | and wherever it has, requoting twice is requoting once |
| RequoteTwice.RequotedTwice | src/web/app.js:1424-1469 | so it is for every text without a value to quote, behind a stray quote, whose last backslash is held over to a line end |
| RequoteTwice.RequotedOneLine | src/web/app.js:1424-1469 | in particular where no backslash ends a line, fields that take strings having none in their names |
| RequoteTwice.BrokenLine | src/web/app.js:1424-1469 | a text with one, which a second requoting changes |
| RequoteTwice.Unchanged | src/web/app.js:1418-1469 | any text is left as it is if and only if no field that takes a string is compared against a bare value |
| RequoteStrays.StrayQuote | src/web/app.js:1424-1469 | a text whose three pieces are two once it is requoted |
| Lanes.StableSorts | src/web/app.js:863-872 | the sort is by rank and keeps equals as they were |
| Lanes.SortKeepsLayout | src/web/app.js:709-720 | sorting again after more addresses puts each where the layout has it |
| Lanes.ArrangedWhicheverWay | src/web/app.js:863-872 | arranged lanes come back in their order whatever order pages bring them in |
| Lanes.MovesOne | src/web/app.js:849-857 | a lane lands where it was put and the others keep their order |
| Lanes.Diagram.Nodes | src/web/app.js:709-720 | a page of frames leaves the lanes as the layout of what has been seen, and the index their inverse |
| Lanes.PageSeen | src/web/app.js:709-720 | what has been seen is what was there and then the addresses of the page as first met, the source of a frame before its destination |
| Lanes.Diagram.Place | src/web/app.js:849-857 | a drag moves one lane and becomes the order |
| Lanes.Diagram.Rewind | src/web/app.js:1351-1357 | the lanes go and the order stays |
| Lanes.Diagram.Forget | src/web/app.js:2033-2055 | another capture: the lanes go, and the order with them |
| Fuzzy.FuzzyMatch | operator/internal/ui/web/app.js:184-192 | a word matches exactly when its letters are in the text in order, and the match is the best of the leftmost ones over every starting place |
| Fuzzy.Align | operator/internal/ui/web/app.js:199-212 | from one place: the leftmost spelling with its score, or there is none from there on |
| Fuzzy.LeftmostIsSoonest | operator/internal/ui/web/app.js:199-212 | no other spelling reaches any letter sooner |
| Fuzzy.RunScores | operator/internal/ui/web/app.js:199-212 | letters side by side score ten each, six for each two of them and eight for each word begun, less the gap before them up to twelve |
| Fuzzy.Mark | operator/internal/ui/web/app.js:252-267 | the runs join to the text, are lit exactly on the hits, and alternate |

## Left out

- identities: turning a URI or a number into a key, the order of AVPs within a frame, message and reference labels, and the subnet test; frames come with their normalized identities.
- ImsMachine.ReadPublics: covers documents in the schema's order, the barring before the identity it is about, one of each.
- RequoteTwice.RequotedTwice: one way only; a text that has such a value may still be left as it is, by what its next line happens to hold. It also takes it that a value cut is no field of strings just by having its backslashes doubled, as it is not in Wireshark, whose field names have none.
- identities: the gate that skips frames no field is wanted of, which changes nothing it lets through.
- pool: starting, killing and waiting for processes, JSON, merging files and removing the temporary ones; the dead flag is told apart by who set it.
- pool: `hierarchy`, which starts a session of its own outside the pool.
- pool: a time is read and written in one step, as under a lock.
- capture reconciler: times, conditions other than their reason, events, images and pod specs; a pass sees the cluster standing still, but for a capture pod that appears just before its own create.
- capture reconciler: `websharkURL`, of which only the answer is used, and label selectors, of which only whom they pick is; the hash in a capture pod's name is taken to tell targets apart.
- CaptureRecovery.LostStatus: takes both passes to be without faults, for a call that fails may cut either short (`NotMadeTwice` has no such condition); and takes a capture pod whose own message is just `paused` to have the file of its target in its URL, without which that file changes (`FileKept`).
- CaptureUrl.FileComesBack: says nothing of a base with a query of its own, where the last parameter swallows the path.
- PoolRuns.AnswersArePaired: rests on sharkd writing one answer line per request in order, which the source takes for granted too.
- EspAssociations.FrameShows: takes addresses to be written without quotation marks, as they are.
- capture files: the classic pcap header and files being read while they grow.
- EspHeader.ReadHeader: a number is one or more decimal digits below 2^32; what else the C library's conversion lets through (a sign after a vertical tab) is not modelled.
- security associations: which occurrence of a field the dissector reads (a frame comes with one value of each), the preference that turns the derivation off, and passes without a protocol tree.
- filters: whether a filter compiles and whether a field takes a string are answers from sharkd.
- lanes: drawing, scrolling and the page cache.
- search: `search` itself, which sums the scores of words over a name and its labels.
- `merge.go`, HTTP, the charts and the Webshark controller: plumbing or straight-line object building.
