/** What a lost status write costs (operator/internal/controller/packetcapture_controller.go). */
module CaptureRecovery {
  import opened Options
  import opened CaptureOrder
  import opened CaptureUrl
  import opened CaptureModel
  import opened CaptureSafety
  import opened CapturePhases

  /** The capture pod of a name is still the one it was, whatever it is doing now. */
  predicate EchoAt(n: string, a: Pods, b: Pods) {
    (n in a <==> n in b) && (n in a && n in b ==> a[n].deleting == b[n].deleting && a[n].url == b[n].url)
  }

  ghost predicate Echo(a: Pods, b: Pods) {
    forall n :: EchoAt(n, a, b)
  }

  /** A capture pod that says of itself just the word by which a paused target is known was
      given the file its target has. */
  predicate Told(cfg: Config, t: Target, captures: Pods) {
    var name := cfg.nameOf(t.key);
    Live(t) && name in captures && Clip(captures[name].words) == PausedMessage ==>
      FileFrom(captures[name].url, cfg.parses) == t.file
  }

  ghost predicate AllTold(cfg: Config, ts: seq<Target>, captures: Pods) {
    forall i :: 0 <= i < |ts| ==> Told(cfg, ts[i], captures)
  }

  predicate SameNames(a: Target, b: Target) {
    a.key == b.key && a.capturer == b.capturer && a.file == b.file
  }

  /** The same target, and the same in everything where its capture pod is just as it was
      left. */
  predicate Alike(cfg: Config, a: Target, b: Target, left: Pods, found: Pods) {
    SameNames(a, b) && (AgreeAt(cfg.nameOf(a.key), left, found) ==> a == b)
  }

  /** Two lists alike from a place on. */
  ghost predicate AllAlike(cfg: Config, a: seq<Target>, b: seq<Target>, from: nat, left: Pods, found: Pods) {
    |a| == |b| && forall i :: from <= i < |a| ==> Alike(cfg, a[i], b[i], left, found)
  }

  ghost predicate AllSameNames(a: seq<Target>, b: seq<Target>) {
    |a| == |b| && forall i :: 0 <= i < |a| ==> SameNames(a[i], b[i])
  }

  /** Two passes over the same pods and spec, with nothing failing, the first of them
      uploading to a base that is fit for it. */
  ghost predicate Again(c: Ctx, d: Ctx) {
    && c.cfg == d.cfg && c.spec == d.spec && c.pods == d.pods && Fair(c.sky) && Fair(d.sky)
    && Named(c.cfg) && '?' !in c.upload && '#' !in c.upload && c.cfg.parses(c.upload + "/api/file", "")
  }

  // ------------------------------------------------------------ one target --

  predicate SameStart(cfg: Config, x: (Begin, Target, Api), y: (Begin, Target, Api), b: Api) {
    && y.0 == x.0 && Alike(cfg, x.1, y.1, x.2.captures, b.captures) && y.2 == b
    && (x.0.Refused? ==> x.0.why.Other?)
  }

  /** Starting a target that another pass began to capture finds the pod that was made. */
  lemma StartAgain(c: Ctx, d: Ctx, a: Api, b: Api, key: Key)
    requires Again(c, d) && key in c.pods
    requires EchoAt(c.cfg.nameOf(key), Start(c, a, key, Fresh(key)).2.captures, b.captures)
    ensures SameStart(c.cfg, Start(c, a, key, Fresh(key)), Start(d, b, key, Fresh(key)), b)
  {
    if c.cfg.nameOf(key) in a.captures {
      AdoptAgain(c, d, a, b, key);
    } else if !c.spec.paused && c.pods[key].node != "" && c.pods[key].addressed {
      CreateAgain(c, d, a, b, key);
    }
  }

  lemma AdoptAgain(c: Ctx, d: Ctx, a: Api, b: Api, key: Key)
    requires Again(c, d) && key in c.pods && c.cfg.nameOf(key) in a.captures
    requires EchoAt(c.cfg.nameOf(key), a.captures, b.captures)
    ensures SameStart(c.cfg, Start(c, a, key, Fresh(key)), Start(d, b, key, Fresh(key)), b)
  {
  }

  lemma CreateAgain(c: Ctx, d: Ctx, a: Api, b: Api, key: Key)
    requires Again(c, d) && key in c.pods && c.cfg.nameOf(key) !in a.captures
    requires !c.spec.paused && c.pods[key].node != "" && c.pods[key].addressed
    requires EchoAt(c.cfg.nameOf(key), Start(c, a, key, Fresh(key)).2.captures, b.captures)
    ensures SameStart(c.cfg, Start(c, a, key, Fresh(key)), Start(d, b, key, Fresh(key)), b)
  {
    FileComesBack(c.upload, NewFile(c, key), c.cfg.parses);
    assert Start(c, a, key, Fresh(key)) == Create(c, a, key, c.cfg.nameOf(key), Fresh(key));
    assert Start(d, b, key, Fresh(key)).1
      == Adopt(d.cfg, c.cfg.nameOf(key), Fresh(key), b.captures[c.cfg.nameOf(key)]);
  }

  lemma KeepOneAgain(c: Ctx, d: Ctx, listed: seq<Key>, a: Api, b: Api, t: Target)
    requires Again(c, d) && TargetOk(c.cfg, t) && Told(c.cfg, t, a.captures) && Told(c.cfg, t, b.captures)
    requires KeepOne(c, listed, a, t).Some?
    requires EchoAt(c.cfg.nameOf(t.key), KeepOne(c, listed, a, t).value.1.captures, b.captures)
    ensures var again := KeepOne(d, listed, b, t);
      && again.Some? && again.value.1 == b
      && Alike(c.cfg, KeepOne(c, listed, a, t).value.0, again.value.0,
               KeepOne(c, listed, a, t).value.1.captures, b.captures)
  {
    var pod := PodOf(c, listed, t);
    if Watched(t) {
      WatchedKeepsNames(c, listed, a, t);
      WatchedKeepsNames(d, listed, b, t);
      WatchedAgain(c, d, listed, a, b, t);
    } else if Resumes(c, t, pod) {
      StartAgain(c, d, a, b, t.key);
    }
  }

  /** A turn of a capture that is on: it is resumed only where its capture pod, read back,
      has it taken for one that was paused. */
  lemma WatchedTurn(c: Ctx, listed: seq<Key>, a: Api, t: Target)
    requires Fair(c.sky) && TargetOk(c.cfg, t) && Watched(t)
    ensures var pod := PodOf(c, listed, t);
      if t.capturer !in a.captures then
        KeepOne(c, listed, a, t) == Some((t.(phase := Completed, message := "stopped"), a))
      else if StopReason(c.spec, pod) != "" then
        KeepOne(c, listed, a, t)
          == Some((t.(phase := Completed, message := StopReason(c.spec, pod)), Marked(a, t.capturer)))
      else
        var u := ObservePod(t, a.captures[t.capturer]);
        KeepOne(c, listed, a, t) == Some((if u.message == PausedMessage then TakenUp(c, a, u) else u, a))
  {
    if !c.spec.paused {
      StopsForAnotherReason(c.spec, PodOf(c, listed, t));
    }
  }

  /** What a target resumed from its own capture pod comes to. */
  function TakenUp(c: Ctx, a: Api, u: Target): Target
    requires c.cfg.nameOf(u.key) in a.captures
  {
    var pod := a.captures[c.cfg.nameOf(u.key)];
    if pod.deleting then u else Adopt(c.cfg, c.cfg.nameOf(u.key), Fresh(u.key), pod)
  }

  /** A capture that is on keeps its capture pod and its file, even if what its capture pod
      says has it taken for one that was paused. */
  lemma WatchedKeepsNames(c: Ctx, listed: seq<Key>, a: Api, t: Target)
    requires Fair(c.sky) && TargetOk(c.cfg, t) && Watched(t) && Told(c.cfg, t, a.captures)
    ensures KeepOne(c, listed, a, t).Some? && SameNames(KeepOne(c, listed, a, t).value.0, t)
  {
    WatchedTurn(c, listed, a, t);
  }

  lemma WatchedAgain(c: Ctx, d: Ctx, listed: seq<Key>, a: Api, b: Api, t: Target)
    requires Again(c, d) && TargetOk(c.cfg, t) && Watched(t)
    requires KeepOne(c, listed, a, t).Some? && KeepOne(d, listed, b, t).Some?
    requires EchoAt(t.capturer, KeepOne(c, listed, a, t).value.1.captures, b.captures)
    ensures KeepOne(d, listed, b, t).value.1 == b
    ensures AgreeAt(t.capturer, KeepOne(c, listed, a, t).value.1.captures, b.captures) ==>
      KeepOne(c, listed, a, t).value.0 == KeepOne(d, listed, b, t).value.0
  {
    WatchedTurn(c, listed, a, t);
    WatchedTurn(d, listed, b, t);
    if t.capturer in b.captures && b.captures[t.capturer].deleting {
      assert Marked(b, t.capturer) == b;
    }
  }

  /** The file of a capture that goes on is kept, but for that case, in which it is read off
      the capture pod. */
  lemma FileKept(c: Ctx, listed: seq<Key>, a: Api, t: Target)
    requires Fair(c.sky) && TargetOk(c.cfg, t) && Watched(t)
    ensures KeepOne(c, listed, a, t).Some?
    ensures KeepOne(c, listed, a, t).value.0.file == t.file <==>
      !(t.capturer in a.captures && StopReason(c.spec, PodOf(c, listed, t)) == ""
        && ObservePod(t, a.captures[t.capturer]).message == PausedMessage && !a.captures[t.capturer].deleting
        && FileFrom(a.captures[t.capturer].url, c.cfg.parses) != t.file)
  {
    WatchedTurn(c, listed, a, t);
  }

  lemma StopsForAnotherReason(spec: Spec, pod: Option<TargetPod>)
    requires !spec.paused
    ensures StopReason(spec, pod) != PausedMessage
  {
    assert "pod gone" != PausedMessage && "pod "[1] != PausedMessage[1];
    assert pod.Some? ==> ("pod " + PhaseName(pod.value.phase))[1] != PausedMessage[1];
  }

  lemma FairKeepOne(c: Ctx, listed: seq<Key>, a: Api, t: Target)
    requires Fair(c.sky)
    ensures KeepOne(c, listed, a, t).Some?
  {
  }

  // -------------------------------------------------------- the first loop --

  ghost predicate EchoFor(cfg: Config, ts: seq<Target>, a: Pods, b: Pods) {
    forall i :: 0 <= i < |ts| ==> EchoAt(cfg.nameOf(ts[i].key), a, b)
  }

  lemma {:induction false} KeepAgain(c: Ctx, d: Ctx, listed: seq<Key>, a: Api, b: Api, ts: seq<Target>)
    requires Again(c, d) && TargetsOk(c.cfg, ts) && NoRepeats(ts)
    requires AllTold(c.cfg, ts, a.captures) && AllTold(c.cfg, ts, b.captures)
    requires EchoFor(c.cfg, ts, Keep(c, listed, a, ts).api.captures, b.captures)
    ensures Keep(c, listed, a, ts).ok
    ensures Keep(d, listed, b, ts).ok && Keep(d, listed, b, ts).api == b
    ensures AllAlike(c.cfg, Keep(c, listed, a, ts).targets, Keep(d, listed, b, ts).targets, 0,
                     Keep(c, listed, a, ts).api.captures, b.captures)
    decreases |ts|
  {
    if ts != [] {
      var n := |ts| - 1;
      var init, t := ts[..n], ts[n];
      var so := Keep(c, listed, a, init);
      FairKeepOne(c, listed, so.api, t);
      KeepOneTouches(c, listed, so.api, t);
      EchoBefore(c, ts, n, so.api, Keep(c, listed, a, ts).api, b.captures);
      KeepAgain(c, d, listed, a, b, init);
      KeepLeavesOthers(c, listed, a, init, t.key);
      assert Told(c.cfg, ts[n], a.captures) && Told(c.cfg, ts[n], b.captures);
      KeepOneAgain(c, d, listed, so.api, b, t);
      KeepKeeps(c, listed, a, init);
      StillAlike(c, init, so.targets, Keep(d, listed, b, init).targets, t.key, so.api,
                 Keep(c, listed, a, ts).api, b.captures);
    }
  }

  lemma EchoBefore(c: Ctx, ts: seq<Target>, n: nat, x: Api, z: Api, b: Pods)
    requires Named(c.cfg) && n == |ts| - 1 && NoRepeats(ts) && Touches(c, ts[n].key, x, z)
    requires EchoFor(c.cfg, ts, z.captures, b)
    ensures EchoFor(c.cfg, ts[..n], x.captures, b)
  {
    forall i | 0 <= i < n ensures EchoAt(c.cfg.nameOf(ts[..n][i].key), x.captures, b) {
      assert NamesDiffer(c.cfg, ts[i].key, ts[n].key);
      assert EchoAt(c.cfg.nameOf(ts[i].key), z.captures, b);
    }
  }

  /** Targets stay alike while another's capture pod changes. */
  lemma StillAlike(c: Ctx, ts: seq<Target>, x: seq<Target>, y: seq<Target>, key: Key, a: Api, z: Api, found: Pods)
    requires Named(c.cfg) && AllAlike(c.cfg, x, y, 0, a.captures, found) && Touches(c, key, a, z)
    requires SameKeys(x, ts) && forall i :: 0 <= i < |ts| ==> ts[i].key != key
    ensures AllAlike(c.cfg, x, y, 0, z.captures, found)
  {
    forall i | 0 <= i < |x| ensures Alike(c.cfg, x[i], y[i], z.captures, found) {
      assert Alike(c.cfg, x[i], y[i], a.captures, found);
      assert NamesDiffer(c.cfg, x[i].key, key);
    }
  }

  // ------------------------------------------------------- the second loop --

  /** What a start adds to the list. */
  function Addition(x: (Begin, Target, Api)): seq<Target> {
    match x.0
    case Skipped => []
    case Begun => [x.1]
    case Refused(why) => if why.Other? then [StartFailed(x.1, why)] else []
  }

  lemma PickOneIs(c: Ctx, p: Picked, key: Key)
    requires key in c.pods
    ensures var x := Start(c, p.api, key, Fresh(key));
      PickOne(c, p, key) == Picked(p.targets + Addition(x), x.2, p.full) && x.1.key == key
  {
  }

  lemma AdditionAgain(cfg: Config, x: (Begin, Target, Api), y: (Begin, Target, Api), b: Api)
    requires SameStart(cfg, x, y, b)
    ensures AllAlike(cfg, Addition(x), Addition(y), 0, x.2.captures, b.captures)
  {
  }

  lemma PickOneAgain(c: Ctx, d: Ctx, p: Picked, q: Picked, key: Key, from: nat)
    requires Again(c, d) && key in c.pods && from <= |p.targets|
    requires AllAlike(c.cfg, p.targets, q.targets, from, PickOne(c, p, key).api.captures, q.api.captures)
    requires EchoAt(c.cfg.nameOf(key), PickOne(c, p, key).api.captures, q.api.captures)
    ensures PickOne(d, q, key).api == q.api && PickOne(d, q, key).full == q.full
    ensures AllAlike(c.cfg, PickOne(c, p, key).targets, PickOne(d, q, key).targets, from,
                     PickOne(c, p, key).api.captures, q.api.captures)
  {
    StartAgain(c, d, p.api, q.api, key);
    var x, y := Start(c, p.api, key, Fresh(key)), Start(d, q.api, key, Fresh(key));
    PickOneIs(c, p, key);
    PickOneIs(d, q, key);
    AdditionAgain(c.cfg, x, y, q.api);
    AppendAlike(c.cfg, p.targets, q.targets, Addition(x), Addition(y), from, x.2.captures, q.api.captures);
  }

  lemma AppendAlike(cfg: Config, a: seq<Target>, b: seq<Target>, x: seq<Target>, y: seq<Target>, from: nat,
                    left: Pods, found: Pods)
    requires AllAlike(cfg, a, b, from, left, found) && AllAlike(cfg, x, y, 0, left, found)
    ensures AllAlike(cfg, a + x, b + y, from, left, found)
  {
  }

  lemma PickOneTouches(c: Ctx, p: Picked, key: Key)
    requires Named(c.cfg) && key in c.pods
    ensures Touches(c, key, p.api, PickOne(c, p, key).api)
  {
    StartTouches(c, p.api, key, Fresh(key));
  }

  ghost predicate EchoOf(cfg: Config, keys: seq<Key>, a: Pods, b: Pods) {
    forall i :: 0 <= i < |keys| ==> EchoAt(cfg.nameOf(keys[i]), a, b)
  }

  /** The second loop over the same pods finds what the first time it made or found, and
      adds the same targets. Those from `from` on are alike. */
  lemma {:induction false} PickAgain(c: Ctx, d: Ctx, known: set<Key>, p: Picked, q: Picked, listed: seq<Key>)
    requires Again(c, d) && |p.targets| == |q.targets| && p.full == q.full
    requires forall k :: k in listed ==> k in c.pods
    requires forall i, j :: 0 <= i < j < |listed| ==> listed[i] != listed[j]
    requires EchoOf(c.cfg, listed, Pick(c, known, p, listed).api.captures, q.api.captures)
    ensures AllAlike(c.cfg, Pick(c, known, p, listed).targets, Pick(d, known, q, listed).targets, |p.targets|,
                     Pick(c, known, p, listed).api.captures, q.api.captures)
    ensures p.targets <= Pick(c, known, p, listed).targets && q.targets <= Pick(d, known, q, listed).targets
    ensures Pick(d, known, q, listed).api == q.api
    ensures Pick(c, known, p, listed).full == Pick(d, known, q, listed).full
    decreases |listed|
  {
    if listed != [] {
      var n := |listed| - 1;
      var init, key := listed[..n], listed[n];
      assert listed == init + [key];
      var so, all := Pick(c, known, p, init), Pick(c, known, p, listed);
      PickOneTouches(c, so, key);
      forall i | 0 <= i < n ensures EchoAt(c.cfg.nameOf(init[i]), so.api.captures, q.api.captures) {
        assert NamesDiffer(c.cfg, listed[i], key);
        assert EchoAt(c.cfg.nameOf(listed[i]), all.api.captures, q.api.captures);
      }
      PickAgain(c, d, known, p, q, init);
      if !so.full && key !in known && |so.targets| < MaxTargets(c.spec) {
        assert EchoAt(c.cfg.nameOf(listed[n]), all.api.captures, q.api.captures);
        PickAdds(c, known, p, init);
        NewlyAlike(c, so, Pick(d, known, q, init).targets, |p.targets|, key, init, all.api, q.api.captures);
        PickOneAgain(c, d, so, Pick(d, known, q, init), key, |p.targets|);
        PickOneIs(c, so, key);
        PickOneIs(d, Pick(d, known, q, init), key);
      }
    }
  }

  /** The targets added so far stay alike while the next is. */
  lemma NewlyAlike(c: Ctx, so: Picked, y: seq<Target>, from: nat, key: Key, init: seq<Key>, z: Api, found: Pods)
    requires Named(c.cfg) && AllAlike(c.cfg, so.targets, y, from, so.api.captures, found) && Touches(c, key, so.api, z)
    requires key !in init && forall i :: from <= i < |so.targets| ==> so.targets[i].key in init
    ensures AllAlike(c.cfg, so.targets, y, from, z.captures, found)
  {
    forall i | from <= i < |so.targets| ensures Alike(c.cfg, so.targets[i], y[i], z.captures, found) {
      assert Alike(c.cfg, so.targets[i], y[i], so.api.captures, found);
      assert NamesDiffer(c.cfg, so.targets[i].key, key);
    }
  }

  /** The second loop leaves alone the names of targets that were known. */
  lemma {:induction false} PickLeavesKnown(c: Ctx, known: set<Key>, p: Picked, listed: seq<Key>, key: Key)
    requires Named(c.cfg) && key in known && forall k :: k in listed ==> k in c.pods
    ensures AgreeAt(c.cfg.nameOf(key), p.api.captures, Pick(c, known, p, listed).api.captures)
    decreases |listed|
  {
    if listed != [] {
      var n := |listed| - 1;
      PickLeavesKnown(c, known, p, listed[..n], key);
      PickOneTouches(c, Pick(c, known, p, listed[..n]), listed[n]);
      assert NamesDiffer(c.cfg, key, listed[n]);
    }
  }

  // --------------------------------------------------------------- the pass --

  predicate Reaches(cfg: Config, w: World, sky: Weather) {
    !w.gone && !w.deleting && cfg.namespace != "" && Fair(sky) && sky.upload.Some?
  }

  /** A pass whose status write was lost, and the next one over the same pods and spec: no
      capture pod is made a second time, every target comes out with the capture pod and the
      file the lost status named, and with its phase and message too if its capture pod is
      just as the lost pass left it. */
  lemma LostStatus(cfg: Config, w: World, sky: Weather, w2: World, sky2: Weather)
    requires Named(cfg) && StatusOk(cfg, w.status) && Reaches(cfg, w, sky) && Reaches(cfg, w2, sky2)
    requires '?' !in sky.upload.value && '#' !in sky.upload.value
    requires cfg.parses(sky.upload.value + "/api/file", "")
    requires w2.status == w.status && w2.spec == w.spec && w2.pods == w.pods
    requires Echo(After(cfg, w, sky, false).captures, w2.captures)
    requires AllTold(cfg, w.status.targets, w.captures) && AllTold(cfg, w.status.targets, w2.captures)
    ensures var r, again := Reconcile(cfg, w, sky), Reconcile(cfg, w2, sky2);
      && r.end.Write? && again.end.Write? && again.created == {}
      && AllSameNames(r.end.status.targets, again.end.status.targets)
      && AllAlike(cfg, r.end.status.targets, again.end.status.targets, 0,
                  After(cfg, w, sky, false).captures, w2.captures)
      && again.end.status.ready == r.end.status.ready && again.world.captures == w2.captures
  {
    var c := Ctx(cfg, w.spec, w.pods, sky, sky.upload.value);
    var d := Ctx(cfg, w2.spec, w2.pods, sky2, sky2.upload.value);
    LoopAgain(c, d, w.(finalizer := true), w2.(finalizer := true));
  }

  /** So where nothing has happened to the capture pods the lost status is written after
      all, to the letter. */
  lemma LostStatusRewritten(cfg: Config, w: World, sky: Weather, w2: World, sky2: Weather)
    requires Named(cfg) && StatusOk(cfg, w.status) && Reaches(cfg, w, sky) && Reaches(cfg, w2, sky2)
    requires '?' !in sky.upload.value && '#' !in sky.upload.value
    requires cfg.parses(sky.upload.value + "/api/file", "") && sky2.upload == sky.upload
    requires w2 == After(cfg, w, sky, false)
    requires AllTold(cfg, w.status.targets, w.captures) && AllTold(cfg, w.status.targets, w2.captures)
    ensures Reconcile(cfg, w, sky).end.Write? && Reconcile(cfg, w2, sky2).end == Reconcile(cfg, w, sky).end
  {
    PassOk(cfg, w, sky);
    LostStatus(cfg, w, sky, w2, sky2);
    AlikeIsSame(cfg, Reconcile(cfg, w, sky).end.status.targets, Reconcile(cfg, w2, sky2).end.status.targets,
                w2.captures);
    SameLoops(cfg, w, sky, w2, sky2);
  }

  lemma AlikeIsSame(cfg: Config, a: seq<Target>, b: seq<Target>, captures: Pods)
    requires AllAlike(cfg, a, b, 0, captures, captures)
    ensures a == b
  {
    forall i | 0 <= i < |a| ensures a[i] == b[i] {
      assert Alike(cfg, a[i], b[i], captures, captures);
    }
  }

  /** Two passes over the same pods and spec that come to the same targets write the same. */
  lemma SameLoops(cfg: Config, w: World, sky: Weather, w2: World, sky2: Weather)
    requires Reaches(cfg, w, sky) && Reaches(cfg, w2, sky2) && w2.spec == w.spec && w2.pods == w.pods
    requires Reconcile(cfg, w, sky).end.Write? && Reconcile(cfg, w2, sky2).end.Write? && sky2.upload == sky.upload
    requires Reconcile(cfg, w, sky).end.status.targets == Reconcile(cfg, w2, sky2).end.status.targets
    requires Reconcile(cfg, w, sky).end.status.ready == Reconcile(cfg, w2, sky2).end.status.ready
    ensures Reconcile(cfg, w, sky).end == Reconcile(cfg, w2, sky2).end
  {
  }

  lemma LoopAgain(c: Ctx, d: Ctx, w: World, w2: World)
    requires Again(c, d) && StatusOk(c.cfg, w.status) && w2.status == w.status
    requires Echo(Loop(c, w).world.captures, w2.captures)
    requires AllTold(c.cfg, w.status.targets, w.captures) && AllTold(c.cfg, w.status.targets, w2.captures)
    ensures var r, again := Loop(c, w), Loop(d, w2);
      && r.end.Write? && again.end.Write? && again.created == {} && again.world.captures == w2.captures
      && AllAlike(c.cfg, r.end.status.targets, again.end.status.targets, 0, r.world.captures, w2.captures)
      && r.end.status.ready == again.end.status.ready
  {
    var listed, ts, a, b := Listed(c.spec, c.pods), w.status.targets, Api(w.captures, {}), Api(w2.captures, {});
    var kept := Keep(c, listed, a, ts);
    FairKeep(c, listed, a, ts);
    var p := Picked(kept.targets, kept.api, false);
    var all := Pick(c, KeysOf(ts), p, listed);
    assert Loop(c, w).world.captures == all.api.captures;
    forall i | 0 <= i < |ts| ensures EchoAt(c.cfg.nameOf(ts[i].key), kept.api.captures, b.captures) {
      assert ts[i] in ts;
      PickLeavesKnown(c, KeysOf(ts), p, listed, ts[i].key);
      assert EchoAt(c.cfg.nameOf(ts[i].key), all.api.captures, b.captures);
    }
    KeepAgain(c, d, listed, a, b, ts);
    KeepKeeps(c, listed, a, ts);
    ListedHasNoRepeats(c.spec, c.pods);
    var again := Keep(d, listed, b, ts).targets;
    PickAgain(c, d, KeysOf(ts), p, Picked(again, b, false), listed);
    BothAlike(c, ts, kept.targets, again, p, listed, b.captures);
    JoinAlike(c.cfg, kept.targets, again, all.targets, Pick(d, KeysOf(ts), Picked(again, b, false), listed).targets,
              all.api.captures, b.captures);
  }

  /** The targets of the first loop stay alike through the second. */
  lemma BothAlike(c: Ctx, ts: seq<Target>, x: seq<Target>, y: seq<Target>, p: Picked, listed: seq<Key>, found: Pods)
    requires Named(c.cfg) && SameKeys(x, ts) && AllAlike(c.cfg, x, y, 0, p.api.captures, found)
    requires forall k :: k in listed ==> k in c.pods
    ensures AllAlike(c.cfg, x, y, 0, Pick(c, KeysOf(ts), p, listed).api.captures, found)
  {
    forall i | 0 <= i < |x|
      ensures Alike(c.cfg, x[i], y[i], Pick(c, KeysOf(ts), p, listed).api.captures, found)
    {
      assert ts[i] in ts;
      PickLeavesKnown(c, KeysOf(ts), p, listed, x[i].key);
      assert Alike(c.cfg, x[i], y[i], p.api.captures, found);
    }
  }

  lemma JoinAlike(cfg: Config, x: seq<Target>, y: seq<Target>, a: seq<Target>, b: seq<Target>, left: Pods, found: Pods)
    requires AllAlike(cfg, x, y, 0, left, found) && x <= a && y <= b && AllAlike(cfg, a, b, |x|, left, found)
    ensures AllAlike(cfg, a, b, 0, left, found)
  {
    forall i | 0 <= i < |a| ensures Alike(cfg, a[i], b[i], left, found) {
      if i < |x| {
        assert Alike(cfg, x[i], y[i], left, found);
      }
    }
  }

  lemma {:induction false} FairKeep(c: Ctx, listed: seq<Key>, a: Api, ts: seq<Target>)
    requires Fair(c.sky)
    ensures Keep(c, listed, a, ts).ok
    decreases |ts|
  {
    if ts != [] {
      FairKeep(c, listed, a, ts[..|ts| - 1]);
    }
  }

  // ---------------------------------------------------------- what is lost --

  /** What becomes of a target in a pass is decided by its own capture pod. */
  lemma DecidedAlone(c: Ctx, listed: seq<Key>, a: Api, b: Api, t: Target)
    requires Fair(c.sky) && TargetOk(c.cfg, t) && AgreeAt(c.cfg.nameOf(t.key), a.captures, b.captures)
    ensures KeepOne(c, listed, a, t).Some? && KeepOne(c, listed, b, t).Some?
    ensures KeepOne(c, listed, a, t).value.0 == KeepOne(c, listed, b, t).value.0
  {
  }

  lemma {:induction false} KeepAt(c: Ctx, listed: seq<Key>, api: Api, ts: seq<Target>, i: nat)
    requires Fair(c.sky) && Named(c.cfg) && TargetsOk(c.cfg, ts) && NoRepeats(ts) && i < |ts|
    ensures Keep(c, listed, api, ts).ok && |Keep(c, listed, api, ts).targets| == |ts|
    ensures Some(Keep(c, listed, api, ts).targets[i]) == Became(KeepOne(c, listed, api, ts[i]))
    decreases |ts|
  {
    var n := |ts| - 1;
    FairKeep(c, listed, api, ts);
    FairKeep(c, listed, api, ts[..n]);
    KeepKeeps(c, listed, api, ts);
    KeepKeeps(c, listed, api, ts[..n]);
    if i < n {
      KeepAt(c, listed, api, ts[..n], i);
    } else {
      KeepLeavesOthers(c, listed, api, ts[..n], ts[n].key);
      DecidedAlone(c, listed, Keep(c, listed, api, ts[..n]).api, api, ts[n]);
    }
  }

  function Became(r: Option<(Target, Api)>): Option<Target> {
    if r.Some? then Some(r.value.0) else None
  }

  /** A whole pass with nothing failing, target by target of the list it began with. */
  lemma PassAt(cfg: Config, w: World, sky: Weather, i: nat)
    requires Named(cfg) && StatusOk(cfg, w.status) && Reaches(cfg, w, sky) && i < |w.status.targets|
    ensures var r := Reconcile(cfg, w, sky);
      && r.end.Write? && i < |r.end.status.targets|
      && Some(r.end.status.targets[i]) ==
         Became(KeepOne(Ctx(cfg, w.spec, w.pods, sky, sky.upload.value), Listed(w.spec, w.pods),
                        Api(w.captures, {}), w.status.targets[i]))
  {
    var c := Ctx(cfg, w.spec, w.pods, sky, sky.upload.value);
    var listed, ts := Listed(w.spec, w.pods), w.status.targets;
    KeepAt(c, listed, Api(w.captures, {}), ts, i);
    var kept := Keep(c, listed, Api(w.captures, {}), ts);
    ListedHasNoRepeats(w.spec, w.pods);
    PickAdds(c, KeysOf(ts), Picked(kept.targets, kept.api, false), listed);
    assert Reconcile(cfg, w, sky) == Loop(c, w.(finalizer := true));
  }

  predicate Stopped(t: Target) {
    t.phase.Completed? && t.message == "stopped"
  }

  /** What a lost status can lose is how a capture ended: by whatever words the lost pass
      had put it, the next one calls a capture that the status still has under way stopped,
      exactly when its capture pod has gone by then. */
  lemma LostEnd(cfg: Config, w: World, sky: Weather, w2: World, sky2: Weather, i: nat)
    requires Named(cfg) && StatusOk(cfg, w.status) && Reaches(cfg, w2, sky2)
    requires w2.status == After(cfg, w, sky, false).status && i < |w.status.targets| && Live(w.status.targets[i])
    ensures w2.status == w.status && Reconcile(cfg, w2, sky2).end.Write?
    ensures i < |Reconcile(cfg, w2, sky2).end.status.targets|
    ensures Stopped(Reconcile(cfg, w2, sky2).end.status.targets[i]) <==>
      w.status.targets[i].capturer !in w2.captures
  {
    PassOk(cfg, w, sky);
    PassAt(cfg, w2, sky2, i);
    var d := Ctx(cfg, w2.spec, w2.pods, sky2, sky2.upload.value);
    assert TargetOk(cfg, w.status.targets[i]);
    StoppedWhenGone(d, Listed(w2.spec, w2.pods), Api(w2.captures, {}), w.status.targets[i]);
  }

  lemma StoppedWhenGone(c: Ctx, listed: seq<Key>, api: Api, t: Target)
    requires Fair(c.sky) && TargetOk(c.cfg, t) && Live(t)
    ensures KeepOne(c, listed, api, t).Some?
    ensures Stopped(KeepOne(c, listed, api, t).value.0) <==> t.capturer !in api.captures
  {
    var pod := PodOf(c, listed, t);
    assert "pod gone"[0] != "stopped"[0] && PausedMessage[0] != "stopped"[0];
    assert StopReason(c.spec, pod) != "" ==> StopReason(c.spec, pod)[0] != "stopped"[0];
  }

  /** Of a capture that came to its own end, well or not, the lost pass had told so; the next
      calls it stopped exactly when its capture pod has gone. */
  lemma LostOutcome(cfg: Config, w: World, sky: Weather, w2: World, sky2: Weather, i: nat)
    requires Named(cfg) && StatusOk(cfg, w.status) && Reaches(cfg, w, sky) && Reaches(cfg, w2, sky2)
    requires w2.status == After(cfg, w, sky, false).status
    requires i < |w.status.targets| && Live(w.status.targets[i]) && !w.spec.paused
    requires var t := w.status.targets[i];
      && t.key in w.pods && w.pods[t.key].phase.PodRunning? && t.capturer in w.captures
      && var pod := w.captures[t.capturer];
      pod.phase.PodSucceeded? || (pod.phase.PodFailed? && Clip(pod.words) != PausedMessage)
    ensures Reconcile(cfg, w, sky).end.Write? && Reconcile(cfg, w2, sky2).end.Write?
    ensures i < |Reconcile(cfg, w, sky).end.status.targets| && i < |Reconcile(cfg, w2, sky2).end.status.targets|
    ensures var t, pod := w.status.targets[i], w.captures[w.status.targets[i].capturer];
      Reconcile(cfg, w, sky).end.status.targets[i] ==
        if pod.phase.PodFailed? then t.(phase := Failed, message := Clip(pod.words))
        else t.(phase := Completed, message := "")
    ensures Stopped(Reconcile(cfg, w2, sky2).end.status.targets[i]) <==>
      w.status.targets[i].capturer !in w2.captures
  {
    PassAt(cfg, w, sky, i);
    LostEnd(cfg, w, sky, w2, sky2, i);
    assert TargetOk(cfg, w.status.targets[i]);
    OutcomeTold(Ctx(cfg, w.spec, w.pods, sky, sky.upload.value), Listed(w.spec, w.pods), Api(w.captures, {}),
                w.status.targets[i]);
  }

  lemma OutcomeTold(c: Ctx, listed: seq<Key>, api: Api, t: Target)
    requires Fair(c.sky) && TargetOk(c.cfg, t) && Live(t) && !c.spec.paused
    requires t.key in c.pods && c.pods[t.key].phase.PodRunning? && t.capturer in api.captures
    requires var pod := api.captures[t.capturer];
      pod.phase.PodSucceeded? || (pod.phase.PodFailed? && Clip(pod.words) != PausedMessage)
    ensures KeepOne(c, listed, api, t) == Some((ObservePod(t, api.captures[t.capturer]), api))
  {
  }

  /** For a pause that makes a difference: the lost pass left the target to be resumed, and
      the next one settles it exactly when its capture pod has gone. */
  lemma LostPause(cfg: Config, w: World, sky: Weather, w2: World, sky2: Weather, i: nat)
    requires Named(cfg) && StatusOk(cfg, w.status) && Reaches(cfg, w, sky) && Reaches(cfg, w2, sky2)
    requires w2.status == After(cfg, w, sky, false).status && w2.spec == w.spec && w2.pods == w.pods
    requires i < |w.status.targets| && Live(w.status.targets[i]) && w.spec.paused
    requires var t := w.status.targets[i];
      t.key in w.pods && w.pods[t.key].phase.PodRunning? && t.capturer in w.captures
    ensures Reconcile(cfg, w, sky).end.Write? && Reconcile(cfg, w2, sky2).end.Write?
    ensures i < |Reconcile(cfg, w, sky).end.status.targets| && i < |Reconcile(cfg, w2, sky2).end.status.targets|
    ensures !Settled(Reconcile(cfg, w, sky).end.status.targets[i])
    ensures Settled(Reconcile(cfg, w2, sky2).end.status.targets[i]) <==>
      w.status.targets[i].capturer !in w2.captures
  {
    PassOk(cfg, w, sky);
    PassAt(cfg, w, sky, i);
    PassAt(cfg, w2, sky2, i);
    var t := w.status.targets[i];
    assert TargetOk(cfg, t);
    LostPauseSettles(Ctx(cfg, w.spec, w.pods, sky, sky.upload.value), Listed(w.spec, w.pods), Api(w.captures, {}), t,
                     Ctx(cfg, w2.spec, w2.pods, sky2, sky2.upload.value), Api(w2.captures, {}));
  }

  /** One target of that. */
  lemma LostPauseSettles(c: Ctx, listed: seq<Key>, api: Api, t: Target, d: Ctx, later: Api)
    requires Fair(c.sky) && Fair(d.sky) && d.cfg == c.cfg && d.spec == c.spec && d.pods == c.pods
    requires TargetOk(c.cfg, t) && Live(t) && c.spec.paused && t.key in c.pods
    requires c.pods[t.key].phase.PodRunning? && t.capturer in api.captures
    ensures KeepOne(c, listed, api, t).Some? && KeepOne(d, listed, later, t).Some?
    ensures !Settled(KeepOne(c, listed, api, t).value.0)
    ensures Settled(KeepOne(d, listed, later, t).value.0) <==> t.capturer !in later.captures
  {
  }

  // --------------------------------------------------------- in any weather --

  /** Whatever fails, a pass makes a capture pod only for a target that had none. */
  lemma MakesOnlyMissing(cfg: Config, w: World, sky: Weather, key: Key)
    requires Named(cfg) && StatusOk(cfg, w.status) && key in Reconcile(cfg, w, sky).created
    ensures cfg.nameOf(key) !in w.captures
  {
    var c, v := Ctx(cfg, w.spec, w.pods, sky, sky.upload.value), w.(finalizer := true);
    assert Reconcile(cfg, w, sky) == Loop(c, v);
    var listed, ts, api := Listed(w.spec, w.pods), w.status.targets, Api(w.captures, {});
    KeepMakesMissing(c, listed, api, ts, key);
    KeepKeeps(c, listed, api, ts);
    var kept := Keep(c, listed, api, ts);
    if kept.ok {
      PickMakesMissing(c, KeysOf(ts), Picked(kept.targets, kept.api, false), listed, key);
    }
  }

  lemma {:induction false} KeepMakesMissing(c: Ctx, listed: seq<Key>, api: Api, ts: seq<Target>, key: Key)
    requires Named(c.cfg) && TargetsOk(c.cfg, ts)
    ensures key in Keep(c, listed, api, ts).api.created && key !in api.created ==>
      c.cfg.nameOf(key) !in api.captures
    decreases |ts|
  {
    if ts != [] {
      var n := |ts| - 1;
      KeepMakesMissing(c, listed, api, ts[..n], key);
      KeepKeeps(c, listed, api, ts[..n]);
      KeepOneTouches(c, listed, Keep(c, listed, api, ts[..n]).api, ts[n]);
    }
  }

  lemma {:induction false} PickMakesMissing(c: Ctx, known: set<Key>, p: Picked, listed: seq<Key>, key: Key)
    requires Named(c.cfg) && forall k :: k in listed ==> k in c.pods
    ensures key in Pick(c, known, p, listed).api.created && key !in p.api.created ==>
      c.cfg.nameOf(key) !in p.api.captures
    ensures p.api.captures.Keys <= Pick(c, known, p, listed).api.captures.Keys
    decreases |listed|
  {
    if listed != [] {
      var n := |listed| - 1;
      PickMakesMissing(c, known, p, listed[..n], key);
      PickOneTouches(c, Pick(c, known, p, listed[..n]), listed[n]);
    }
  }

  /** So what a pass made and is still there is not made again, whether the status was
      written or lost, and whatever fails in either pass. */
  lemma NotMadeTwice(cfg: Config, w: World, sky: Weather, w2: World, sky2: Weather, key: Key)
    requires Named(cfg) && StatusOk(cfg, w.status) && StatusOk(cfg, w2.status)
    requires key in Reconcile(cfg, w, sky).created && cfg.nameOf(key) in w2.captures
    ensures cfg.nameOf(key) !in w.captures && key !in Reconcile(cfg, w2, sky2).created
  {
    MakesOnlyMissing(cfg, w, sky, key);
    if key in Reconcile(cfg, w2, sky2).created {
      MakesOnlyMissing(cfg, w2, sky2, key);
    }
  }
}
