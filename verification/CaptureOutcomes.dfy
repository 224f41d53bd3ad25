/** What a pass does about each pod and each capture, told by what it finds
    (operator/internal/controller/packetcapture_controller.go). */
module CaptureOutcomes {
  import opened Basics
  import opened Options
  import opened CaptureOrder
  import opened CaptureUrl
  import opened CaptureNames
  import opened CaptureModel
  import opened CaptureSafety
  import opened CapturePhases
  import opened CaptureRecovery
  import opened CaptureChoice

  // ---------------------------------------------------------- what is told --

  /** As much of a text as a status has room for. */
  function Short(text: string): string {
    if |text| <= 512 then text else text[..512]
  }

  /** A target reads just as its capture pod stands. */
  predicate Tells(t: Target, pod: CapturePod) {
    match pod.phase
    case PodRunning => t.phase.Capturing? && t.message == ""
    case PodSucceeded => t.phase.Completed? && t.message == ""
    case PodFailed => t.phase.Failed? && t.message == Short(pod.words)
    case PodPending => t.phase.Pending? && t.message == Short(pod.words)
    case PodUnknown => t.phase.Pending? && t.message == Short(pod.words)
  }

  lemma ObservedTells(t: Target, pod: CapturePod)
    ensures Tells(ObservePod(t, pod), pod) && SameNames(ObservePod(t, pod), t)
  {
  }

  // -------------------------------------------------------------- new targets --

  /** A pod found new, that gets a target or does not yet. */
  datatype Found = Found(cfg: Config, spec: Spec, pod: TargetPod, captures: Pods, sky: Weather)

  /** There is nothing to say of the pod yet: its capture pod's name is still taken, or it is
      not to be captured now, or something it takes has gone. */
  predicate NotYet(f: Found, name: string) {
    name !in f.sky.startGet
    && if name in f.captures then f.captures[name].deleting
       else f.spec.paused
            || (f.pod.node != "" && f.pod.addressed && name in f.sky.create
                && f.sky.create[name].Rejected? && !f.sky.create[name].why.Other?)
  }

  /** What goes wrong with it, if anything does. */
  function Complaint(f: Found, name: string): Option<string> {
    if name in f.sky.startGet then Some(f.sky.startGet[name])
    else if name in f.captures || f.spec.paused then None
    else if f.pod.node == "" then Some("pod is not on a node")
    else if !f.pod.addressed then Some("pod has no address to find its network namespace by")
    else if name in f.sky.create && f.sky.create[name].Rejected? && f.sky.create[name].why.Other? then
      Some(f.sky.create[name].why.text)
    else None
  }

  /** The target it gets: failed, with the complaint; or captured by the pod that was there,
      which says how and into which file; or by one made for it. */
  predicate Gets(f: Found, key: Key, t: Target) {
    var name := f.cfg.nameOf(key);
    && t.key == key
    && match Complaint(f, name)
       case Some(why) => t.phase.Failed? && t.message == Short(why) && t.capturer == ""
       case None =>
         t.capturer == name
         && if name in f.captures then Tells(t, f.captures[name]) && t.file == FileFrom(f.captures[name].url, f.cfg.parses)
            else t.phase.Pending? && t.message == ""
                 && t.file == FileName(f.spec.prefix, f.cfg.self.name, key.namespace, key.name)
  }

  /** A capture pod is made for it, where there was none and none came up. */
  predicate IsMade(f: Found, name: string) {
    name !in f.captures && name !in f.sky.create && Complaint(f, name).None? && !f.spec.paused
  }

  predicate Makes(f: Found, key: Key, upload: string, after: Pods) {
    var name := f.cfg.nameOf(key);
    IsMade(f, name) ==>
      name in after
      && after[name].owner == f.cfg.self && !after[name].deleting && after[name].phase.PodPending?
      && after[name].words == "" && after[name].url == UploadURL(upload, NewFileName(f, key))
  }

  function NewFileName(f: Found, key: Key): (file: string)
    ensures IsBytes(file)
  {
    FileNameIsAccepted(f.spec.prefix, f.cfg.self.name, key.namespace, key.name);
    FileName(f.spec.prefix, f.cfg.self.name, key.namespace, key.name)
  }

  function FoundBy(c: Ctx, key: Key, captures: Pods): Found
    requires key in c.pods
  {
    Found(c.cfg, c.spec, c.pods[key], captures, c.sky)
  }

  /** What a start comes to, of a target that is new or to be captured anew. */
  predicate StartsAs(f: Found, key: Key, upload: string, how: Begin, t: Target, api: Api, after: Api) {
    var name := f.cfg.nameOf(key);
    && (how.Skipped? || (how.Refused? && !how.why.Other?) <==> NotYet(f, name))
    && (how.Begun? ==> Complaint(f, name).None? && Gets(f, key, t))
    && (how.Refused? && how.why.Other? ==> Complaint(f, name) == Some(how.why.text) && t.key == key && t.capturer == "")
    && Makes(f, key, upload, after.captures)
    && after.created == (if IsMade(f, name) then api.created + {key} else api.created)
  }

  lemma StartTold(c: Ctx, api: Api, key: Key)
    requires key in c.pods
    ensures var (how, t, after) := Start(c, api, key, Fresh(key));
      StartsAs(FoundBy(c, key, api.captures), key, c.upload, how, t, api, after)
  {
    if c.cfg.nameOf(key) in api.captures {
      TakenTold(c, api, key);
    } else {
      MadeTold(c, api, key);
    }
  }

  lemma TakenTold(c: Ctx, api: Api, key: Key)
    requires key in c.pods && c.cfg.nameOf(key) in api.captures
    ensures var (how, t, after) := Start(c, api, key, Fresh(key));
      StartsAs(FoundBy(c, key, api.captures), key, c.upload, how, t, api, after)
  {
    var name := c.cfg.nameOf(key);
    ObservedTells(Fresh(key).(capturer := name, file := FileFrom(api.captures[name].url, c.cfg.parses)),
                  api.captures[name]);
  }

  lemma MadeTold(c: Ctx, api: Api, key: Key)
    requires key in c.pods && c.cfg.nameOf(key) !in api.captures
    ensures var (how, t, after) := Start(c, api, key, Fresh(key));
      StartsAs(FoundBy(c, key, api.captures), key, c.upload, how, t, api, after)
  {
  }

  /** One turn of the second loop. */
  lemma PickOneGets(c: Ctx, p: Picked, key: Key)
    requires key in c.pods
    ensures var f, q := FoundBy(c, key, p.api.captures), PickOne(c, p, key);
      && Makes(f, key, c.upload, q.api.captures) && q.full == p.full
      && if NotYet(f, c.cfg.nameOf(key)) then q.targets == p.targets
         else |q.targets| == |p.targets| + 1 && p.targets <= q.targets && Gets(f, key, q.targets[|p.targets|])
  {
    StartTold(c, p.api, key);
  }

  lemma {:induction false} PickLeavesUnlisted(c: Ctx, known: set<Key>, p: Picked, listed: seq<Key>, key: Key)
    requires Named(c.cfg) && key !in listed && forall k :: k in listed ==> k in c.pods
    ensures AgreeAt(c.cfg.nameOf(key), p.api.captures, Pick(c, known, p, listed).api.captures)
    decreases |listed|
  {
    if listed != [] {
      var n := |listed| - 1;
      assert listed[n] in listed;
      PickLeavesUnlisted(c, known, p, listed[..n], key);
      PickOneTouches(c, Pick(c, known, p, listed[..n]), listed[n]);
      assert NamesDiffer(c.cfg, key, listed[n]);
    }
  }

  /** What a pod gets is for its own capture pod to say. */
  lemma SameFound(c: Ctx, key: Key, a: Pods, b: Pods)
    requires key in c.pods && AgreeAt(c.cfg.nameOf(key), a, b)
    ensures var f, g, name := FoundBy(c, key, a), FoundBy(c, key, b), c.cfg.nameOf(key);
      && (NotYet(f, name) <==> NotYet(g, name)) && (forall t :: Gets(f, key, t) <==> Gets(g, key, t))
      && (forall u, z :: Makes(f, key, u, z) <==> Makes(g, key, u, z))
  {
  }

  ghost predicate AddedRightly(c: Ctx, captures: Pods, t: Target, after: Pods) {
    t.key in c.pods && Gets(FoundBy(c, t.key, captures), t.key, t)
    && Makes(FoundBy(c, t.key, captures), t.key, c.upload, after)
  }

  ghost predicate OnList(ts: seq<Target>, key: Key) {
    exists i :: 0 <= i < |ts| && ts[i].key == key
  }

  /** Who of those listed the second loop has gone over, and what they have got. */
  ghost predicate GoneOver(c: Ctx, known: set<Key>, p: Picked, listed: seq<Key>, q: Picked) {
    && p.targets <= q.targets
    && (forall i :: |p.targets| <= i < |q.targets| ==>
          q.targets[i].key in listed && AddedRightly(c, p.api.captures, q.targets[i], q.api.captures))
    && (forall k :: k in listed && k in c.pods && k !in known && !q.full && !NotYet(FoundBy(c, k, p.api.captures),
                                                                                   c.cfg.nameOf(k)) ==>
          OnList(q.targets[|p.targets|..], k))
    && (q.full ==>
          |q.targets| >= MaxTargets(c.spec)
          && exists k :: k in listed && k !in known && !OnList(q.targets[|p.targets|..], k))
  }

  lemma {:induction false} PickGoesOver(c: Ctx, known: set<Key>, p: Picked, listed: seq<Key>)
    requires Named(c.cfg) && !p.full && forall k :: k in listed ==> k in c.pods
    requires forall i, j :: 0 <= i < j < |listed| ==> listed[i] != listed[j]
    ensures GoneOver(c, known, p, listed, Pick(c, known, p, listed))
    decreases |listed|
  {
    if listed != [] {
      var n := |listed| - 1;
      var key, so := listed[n], Pick(c, known, p, listed[..n]);
      assert listed == listed[..n] + [key];
      PickGoesOver(c, known, p, listed[..n]);
      PickAdds(c, known, p, listed[..n]);
      if !so.full && key !in known {
        if |so.targets| >= MaxTargets(c.spec) {
          StopsAt(c, known, p, listed[..n], so, key);
        } else {
          GoesOn(c, known, p, listed[..n], so, key);
        }
      }
    }
  }

  lemma StopsAt(c: Ctx, known: set<Key>, p: Picked, listed: seq<Key>, so: Picked, key: Key)
    requires GoneOver(c, known, p, listed, so) && !so.full && key !in known && key !in listed
    requires |so.targets| >= MaxTargets(c.spec)
    ensures GoneOver(c, known, p, listed + [key], so.(full := true))
  {
    assert key in listed + [key] && !OnList(so.targets[|p.targets|..], key) by {
      assert forall i :: 0 <= i < |so.targets[|p.targets|..]| ==> so.targets[|p.targets|..][i].key in listed;
    }
  }

  lemma GoesOn(c: Ctx, known: set<Key>, p: Picked, listed: seq<Key>, so: Picked, key: Key)
    requires Named(c.cfg) && key in c.pods && (forall k :: k in listed ==> k in c.pods) && key !in listed
    requires so == Pick(c, known, p, listed) && GoneOver(c, known, p, listed, so) && !so.full && key !in known
    ensures GoneOver(c, known, p, listed + [key], PickOne(c, so, key))
  {
    var q, n := PickOne(c, so, key), |p.targets|;
    PickLeavesUnlisted(c, known, p, listed, key);
    SameFound(c, key, p.api.captures, so.api.captures);
    PickOneGets(c, so, key);
    PickOneTouches(c, so, key);
    StillRight(c, p.api.captures, so, n, key, q.api);
    forall k | k in listed + [key] && k in c.pods && k !in known
        && !NotYet(FoundBy(c, k, p.api.captures), c.cfg.nameOf(k))
      ensures OnList(q.targets[n..], k)
    {
      if k in listed {
        var i :| 0 <= i < |so.targets[n..]| && so.targets[n..][i].key == k;
        assert q.targets[n..][i].key == k;
      } else {
        assert q.targets[n..][|so.targets| - n].key == k;
      }
    }
  }

  /** What has been added stays right while another's capture pod changes. */
  lemma StillRight(c: Ctx, captures: Pods, so: Picked, from: nat, key: Key, z: Api)
    requires Named(c.cfg) && Touches(c, key, so.api, z)
    requires forall i :: from <= i < |so.targets| ==>
      so.targets[i].key != key && AddedRightly(c, captures, so.targets[i], so.api.captures)
    ensures forall i :: from <= i < |so.targets| ==> AddedRightly(c, captures, so.targets[i], z.captures)
  {
    forall i | from <= i < |so.targets| ensures AddedRightly(c, captures, so.targets[i], z.captures) {
      assert AddedRightly(c, captures, so.targets[i], so.api.captures);
      assert NamesDiffer(c.cfg, so.targets[i].key, key);
    }
  }

  // ---------------------------------------------------------------- the pass --

  /** A pass that gets to the pods. */
  ghost predicate GetsToPods(cfg: Config, w: World, sky: Weather) {
    var end := Reconcile(cfg, w, sky).end;
    end.Write? && !end.status.ready.NoCaptureNamespace? && !end.status.ready.NoWebshark?
    && !end.status.ready.SelectorFailed?
  }

  ghost predicate WrittenRightly(cfg: Config, w: World, sky: Weather, t: Target, after: Pods) {
    && Wanted(w.spec, w.pods, t.key) && t.key !in KeysOf(w.status.targets)
    && Gets(Found(cfg, w.spec, w.pods[t.key], w.captures, sky), t.key, t)
    && sky.upload.Some? && Makes(Found(cfg, w.spec, w.pods[t.key], w.captures, sky), t.key, sky.upload.value, after)
  }

  lemma GetsThere(cfg: Config, w: World, sky: Weather)
    requires GetsToPods(cfg, w, sky)
    ensures sky.upload.Some? && cfg.namespace != "" && !sky.list
    ensures Reconcile(cfg, w, sky) == Loop(Ctx(cfg, w.spec, w.pods, sky, sky.upload.value), w.(finalizer := true))
  {
  }

  /** The two loops of such a pass. */
  ghost function FirstLoop(c: Ctx, w: World): Picked {
    var kept := Keep(c, Listed(w.spec, w.pods), Api(w.captures, {}), w.status.targets);
    Picked(kept.targets, kept.api, false)
  }

  ghost function BothLoops(c: Ctx, w: World): Picked
    requires c.pods == w.pods
  {
    Pick(c, KeysOf(w.status.targets), FirstLoop(c, w), Listed(w.spec, w.pods))
  }

  lemma PassGoesOver(cfg: Config, w: World, sky: Weather) returns (c: Ctx)
    requires Named(cfg) && StatusOk(cfg, w.status) && GetsToPods(cfg, w, sky)
    ensures sky.upload.Some? && c == Ctx(cfg, w.spec, w.pods, sky, sky.upload.value)
    ensures var p, q, r := FirstLoop(c, w), BothLoops(c, w), Reconcile(cfg, w, sky);
      && |p.targets| == |w.status.targets| && GoneOver(c, KeysOf(w.status.targets), p, Listed(w.spec, w.pods), q)
      && (forall i :: |p.targets| <= i < |q.targets| ==> q.targets[i].key !in KeysOf(w.status.targets))
      && q.targets == r.end.status.targets && q.api.captures == r.world.captures && q.api.created == r.created
      && r.end == Write(NewStatus(c, q.targets, q.full || TooMany(c.spec, c.pods), |Listed(w.spec, w.pods)|),
                        CountOf(q.targets, Capturing) > 0 || CountOf(q.targets, Pending) > 0)
  {
    GetsThere(cfg, w, sky);
    c := Ctx(cfg, w.spec, w.pods, sky, sky.upload.value);
    var listed, ts, p := Listed(w.spec, w.pods), w.status.targets, FirstLoop(c, w);
    KeepKeeps(c, listed, Api(w.captures, {}), ts);
    ListedHasNoRepeats(w.spec, w.pods);
    PickAdds(c, KeysOf(ts), p, listed);
    PickGoesOver(c, KeysOf(ts), p, listed);
  }

  /** Every target a pass adds is of a pod worth capturing and not on the list, and is what
      that pod gets. */
  lemma NewTargets(cfg: Config, w: World, sky: Weather, i: nat)
    requires Named(cfg) && StatusOk(cfg, w.status) && GetsToPods(cfg, w, sky)
    requires |w.status.targets| <= i < |Reconcile(cfg, w, sky).end.status.targets|
    ensures var r := Reconcile(cfg, w, sky);
      WrittenRightly(cfg, w, sky, r.end.status.targets[i], r.world.captures)
  {
    var c := PassGoesOver(cfg, w, sky);
    ListedAreChosen(w.spec, w.pods);
    var q := BothLoops(c, w);
    AddedFromStart(c, w, Listed(w.spec, w.pods), w.status.targets, q.targets[i], q.api.captures);
  }

  /** And where nothing is paused and there are not too many, every pod worth capturing that
      was not on the list has got its target, or there is nothing to say of it yet. */
  lemma NoneForgotten(cfg: Config, w: World, sky: Weather, key: Key)
    requires Named(cfg) && StatusOk(cfg, w.status) && GetsToPods(cfg, w, sky)
    requires !w.spec.paused && !Reconcile(cfg, w, sky).end.status.ready.Truncated?
    requires Wanted(w.spec, w.pods, key) && key !in KeysOf(w.status.targets)
    ensures NotYet(Found(cfg, w.spec, w.pods[key], w.captures, sky), cfg.nameOf(key))
      || OnList(Reconcile(cfg, w, sky).end.status.targets, key)
  {
    var c := PassGoesOver(cfg, w, sky);
    ListedAreChosen(w.spec, w.pods);
    var listed, ts, p, q := Listed(w.spec, w.pods), w.status.targets, FirstLoop(c, w), BothLoops(c, w);
    KeepLeavesOthers(c, listed, Api(w.captures, {}), ts, key);
    SameFound(c, key, w.captures, p.api.captures);
    if !NotYet(FoundBy(c, key, p.api.captures), cfg.nameOf(key)) {
      OnTail(q.targets, |ts|, key);
    }
  }

  lemma OnTail(ts: seq<Target>, n: nat, key: Key)
    requires n <= |ts| && OnList(ts[n..], key)
    ensures OnList(ts, key)
  {
    var i :| 0 <= i < |ts[n..]| && ts[n..][i].key == key;
    assert ts[n + i].key == key;
  }

  lemma AddedFromStart(c: Ctx, w: World, listed: seq<Key>, ts: seq<Target>, t: Target, after: Pods)
    requires Named(c.cfg) && TargetsOk(c.cfg, ts) && t.key !in KeysOf(ts) && Wanted(w.spec, w.pods, t.key)
    requires c.spec == w.spec && c.pods == w.pods && ts == w.status.targets && c.sky.upload == Some(c.upload)
    requires AddedRightly(c, Keep(c, listed, Api(w.captures, {}), ts).api.captures, t, after)
    ensures WrittenRightly(c.cfg, w, c.sky, t, after)
  {
    KeepLeavesOthers(c, listed, Api(w.captures, {}), ts, t.key);
    SameFound(c, t.key, w.captures, Keep(c, listed, Api(w.captures, {}), ts).api.captures);
  }

  // ------------------------------------------------------------------ captures --

  /** A capture pod is made for no other pod, be it a new one or one to be captured anew. */
  lemma CapturesOnlyWanted(cfg: Config, w: World, sky: Weather, key: Key)
    requires Named(cfg) && StatusOk(cfg, w.status) && key in Reconcile(cfg, w, sky).created
    ensures Wanted(w.spec, w.pods, key)
  {
    var c, api, listed := Ctx(cfg, w.spec, w.pods, sky, sky.upload.value), Api(w.captures, {}), Listed(w.spec, w.pods);
    assert Reconcile(cfg, w, sky) == Loop(c, w.(finalizer := true));
    ListedAreChosen(w.spec, w.pods);
    KeepCreatesListed(c, listed, api, w.status.targets, key);
    var kept := Keep(c, listed, api, w.status.targets);
    if kept.ok {
      PickCreatesListed(c, KeysOf(w.status.targets), Picked(kept.targets, kept.api, false), listed, key);
    }
  }

  lemma {:induction false} KeepCreatesListed(c: Ctx, listed: seq<Key>, api: Api, ts: seq<Target>, key: Key)
    requires TargetsOk(c.cfg, ts)
    ensures key in Keep(c, listed, api, ts).api.created ==> key in api.created || key in listed
    decreases |ts|
  {
    if ts != [] {
      KeepCreatesListed(c, listed, api, ts[..|ts| - 1], key);
      OneCreatesListed(c, listed, Keep(c, listed, api, ts[..|ts| - 1]).api, ts[|ts| - 1], key);
    }
  }

  lemma OneCreatesListed(c: Ctx, listed: seq<Key>, api: Api, t: Target, key: Key)
    requires TargetOk(c.cfg, t)
    ensures KeepOne(c, listed, api, t).Some? && key in KeepOne(c, listed, api, t).value.1.created ==>
      key in api.created || key in listed
  {
    if Watched(t) && !c.spec.paused {
      StopsForAnotherReason(c.spec, PodOf(c, listed, t));
    }
  }

  lemma {:induction false} PickCreatesListed(c: Ctx, known: set<Key>, p: Picked, listed: seq<Key>, key: Key)
    requires forall k :: k in listed ==> k in c.pods
    ensures key in Pick(c, known, p, listed).api.created ==> key in p.api.created || key in listed
    decreases |listed|
  {
    if listed != [] {
      var n := |listed| - 1;
      assert listed[n] in listed;
      PickCreatesListed(c, known, p, listed[..n], key);
      StartTold(c, Pick(c, known, p, listed[..n]).api, listed[n]);
    }
  }

  // ------------------------------------------------------- captures under way --

  ghost predicate SameTurns(c: Ctx, listed: seq<Key>, a: Api, b: Api, t: Target) {
    var x, y := KeepOne(c, listed, a, t), KeepOne(c, listed, b, t);
    && (x.Some? <==> y.Some?)
    && (x.Some? ==>
          x.value.0 == y.value.0 && AgreeAt(c.cfg.nameOf(t.key), x.value.1.captures, y.value.1.captures))
  }

  /** What a turn makes of a target and its capture pod is decided by that pod alone. */
  lemma SameTurn(c: Ctx, listed: seq<Key>, a: Api, b: Api, t: Target)
    requires TargetOk(c.cfg, t) && AgreeAt(c.cfg.nameOf(t.key), a.captures, b.captures)
    ensures SameTurns(c, listed, a, b, t)
  {
    if Watched(t) {
      SameWatched(c, listed, a, b, t);
    } else {
      SameResumed(c, listed, a, b, t);
    }
  }

  lemma SameResumed(c: Ctx, listed: seq<Key>, a: Api, b: Api, t: Target)
    requires !Watched(t) && AgreeAt(c.cfg.nameOf(t.key), a.captures, b.captures)
    ensures SameTurns(c, listed, a, b, t)
  {
  }

  lemma SameWatched(c: Ctx, listed: seq<Key>, a: Api, b: Api, t: Target)
    requires TargetOk(c.cfg, t) && Watched(t) && AgreeAt(c.cfg.nameOf(t.key), a.captures, b.captures)
    ensures SameTurns(c, listed, a, b, t)
  {
    var pod := PodOf(c, listed, t);
    if !c.spec.paused {
      StopsForAnotherReason(c.spec, pod);
    }
    var x, y := Observe(c, a, t, pod), Observe(c, b, t, pod);
    assert x.Some? <==> y.Some?;
    assert x.Some? ==> x.value.0 == y.value.0 && AgreeAt(t.capturer, x.value.1.captures, y.value.1.captures);
    if x.Some? && Resumes(c, x.value.0, pod) {
      SameStart(c, x.value.1, y.value.1, x.value.0.key);
    }
  }

  lemma SameStart(c: Ctx, a: Api, b: Api, key: Key)
    requires key in c.pods && AgreeAt(c.cfg.nameOf(key), a.captures, b.captures)
    ensures var x, y := Start(c, a, key, Fresh(key)), Start(c, b, key, Fresh(key));
      x.0 == y.0 && x.1 == y.1 && AgreeAt(c.cfg.nameOf(key), x.2.captures, y.2.captures)
  {
  }

  /** What came of a target in the first loop, if that came to its end. */
  ghost predicate CameOut(c: Ctx, listed: seq<Key>, api: Api, t: Target, u: Target, after: Pods) {
    var turn := KeepOne(c, listed, api, t);
    turn.Some? && u == turn.value.0 && AgreeAt(c.cfg.nameOf(t.key), turn.value.1.captures, after)
  }

  lemma {:induction false} KeepComesOut(c: Ctx, listed: seq<Key>, api: Api, ts: seq<Target>, i: nat)
    requires Named(c.cfg) && TargetsOk(c.cfg, ts) && NoRepeats(ts) && i < |ts| && Keep(c, listed, api, ts).ok
    ensures |Keep(c, listed, api, ts).targets| == |ts|
    ensures CameOut(c, listed, api, ts[i], Keep(c, listed, api, ts).targets[i], Keep(c, listed, api, ts).api.captures)
    decreases |ts|
  {
    var n := |ts| - 1;
    KeepKeeps(c, listed, api, ts);
    KeepLast(c, listed, api, ts);
    if i < n {
      KeepComesOut(c, listed, api, ts[..n], i);
      EarlierOut(c, listed, api, ts, i);
    } else {
      LastOut(c, listed, api, ts);
    }
  }

  /** The last turn of a first loop that comes to its end. */
  lemma KeepLast(c: Ctx, listed: seq<Key>, api: Api, ts: seq<Target>)
    requires ts != [] && Keep(c, listed, api, ts).ok
    ensures var n := |ts| - 1;
      var so := Keep(c, listed, api, ts[..n]);
      var turn := KeepOne(c, listed, so.api, ts[n]);
      so.ok && turn.Some? && Keep(c, listed, api, ts) == Kept(true, so.targets + [turn.value.0], turn.value.1)
  {
  }

  lemma LastOut(c: Ctx, listed: seq<Key>, api: Api, ts: seq<Target>)
    requires Named(c.cfg) && TargetsOk(c.cfg, ts) && NoRepeats(ts) && ts != [] && Keep(c, listed, api, ts).ok
    requires |Keep(c, listed, api, ts).targets| == |ts|
    ensures CameOut(c, listed, api, ts[|ts| - 1], Keep(c, listed, api, ts).targets[|ts| - 1],
                    Keep(c, listed, api, ts).api.captures)
  {
    var n := |ts| - 1;
    KeepLast(c, listed, api, ts);
    KeepLeavesOthers(c, listed, api, ts[..n], ts[n].key);
    SameTurn(c, listed, Keep(c, listed, api, ts[..n]).api, api, ts[n]);
  }

  lemma EarlierOut(c: Ctx, listed: seq<Key>, api: Api, ts: seq<Target>, i: nat)
    requires Named(c.cfg) && TargetsOk(c.cfg, ts) && NoRepeats(ts) && i < |ts| - 1 && Keep(c, listed, api, ts).ok
    requires var so := Keep(c, listed, api, ts[..|ts| - 1]);
      i < |so.targets| && CameOut(c, listed, api, ts[i], so.targets[i], so.api.captures)
    ensures i < |Keep(c, listed, api, ts).targets|
    ensures CameOut(c, listed, api, ts[i], Keep(c, listed, api, ts).targets[i], Keep(c, listed, api, ts).api.captures)
  {
    var n := |ts| - 1;
    var so := Keep(c, listed, api, ts[..n]);
    KeepLast(c, listed, api, ts);
    KeepOneTouches(c, listed, so.api, ts[n]);
    assert NamesDiffer(c.cfg, ts[i].key, ts[n].key);
    StillOut(c, listed, api, ts[i], so.targets[i], so.api, ts[n].key, Keep(c, listed, api, ts).api);
  }

  lemma StillOut(c: Ctx, listed: seq<Key>, api: Api, t: Target, u: Target, a: Api, key: Key, z: Api)
    requires CameOut(c, listed, api, t, u, a.captures) && Touches(c, key, a, z)
    requires c.cfg.nameOf(t.key) != c.cfg.nameOf(key)
    ensures CameOut(c, listed, api, t, u, z.captures)
  {
  }

  lemma PassComesOut(cfg: Config, w: World, sky: Weather, i: nat) returns (c: Ctx)
    requires Named(cfg) && StatusOk(cfg, w.status) && GetsToPods(cfg, w, sky) && i < |w.status.targets|
    ensures sky.upload.Some? && c == Ctx(cfg, w.spec, w.pods, sky, sky.upload.value)
    ensures var r := Reconcile(cfg, w, sky);
      i < |r.end.status.targets|
      && CameOut(c, Listed(w.spec, w.pods), Api(w.captures, {}), w.status.targets[i], r.end.status.targets[i],
                 r.world.captures)
  {
    c := PassGoesOver(cfg, w, sky);
    var listed, ts, api := Listed(w.spec, w.pods), w.status.targets, Api(w.captures, {});
    GetsThere(cfg, w, sky);
    KeepComesOut(c, listed, api, ts, i);
    assert ts[i] in ts;
    PickLeavesKnown(c, KeysOf(ts), FirstLoop(c, w), listed, ts[i].key);
    assert BothLoops(c, w).targets[i] == FirstLoop(c, w).targets[i];
  }

  /** A capture that has been ended, and its capture pod with it. */
  predicate EndedBy(t: Target, u: Target, why: string, pod: CapturePod, after: Pods) {
    u == t.(phase := Completed, message := why) && t.capturer in after && after[t.capturer] == pod.(deleting := true)
  }

  /** What comes of a capture under way: it has stopped if its capture pod has gone; it is
      ended when the pod it is of has gone or does not run any more, or for a pause; and
      otherwise it goes on, and says how. */
  predicate ComesTo(w: World, t: Target, u: Target, after: Pods) {
    if t.capturer !in w.captures then u == t.(phase := Completed, message := "stopped")
    else
      var pod := w.captures[t.capturer];
      if t.key !in w.pods then EndedBy(t, u, "pod gone", pod, after)
      else
        var why := StopWord(w.pods[t.key].phase, w.spec.paused);
        if why != "" then EndedBy(t, u, why, pod, after)
        else
          t.capturer in after && after[t.capturer] == pod
          && (Short(pod.words) != "paused" ==>
                Tells(u, pod) && u.key == t.key && u.capturer == t.capturer && u.file == t.file)
  }

  function StopWord(phase: PodPhase, paused: bool): string {
    match phase
    case PodPending => "pod pending"
    case PodSucceeded => "pod succeeded"
    case PodFailed => "pod failed"
    case PodUnknown => "pod unknown"
    case PodRunning => if paused then "paused" else ""
  }

  lemma StopWords(spec: Spec, pod: TargetPod)
    ensures StopReason(spec, None) == "pod gone"
    ensures StopReason(spec, Some(pod)) == StopWord(pod.phase, spec.paused)
  {
    assert "pod " + "pending" == "pod pending" && "pod " + "succeeded" == "pod succeeded";
    assert "pod " + "failed" == "pod failed" && "pod " + "unknown" == "pod unknown";
  }

  /** Nothing the turn of a capture under way needs has failed. */
  ghost predicate Unhindered(w: World, sky: Weather, t: Target) {
    && t.capturer !in sky.observeGet
    && (t.key in sky.podGet ==> t.key in Listed(w.spec, w.pods))
    && (t.capturer in sky.delete && t.capturer in w.captures && !w.captures[t.capturer].deleting ==>
          t.key in w.pods && w.pods[t.key].phase.PodRunning? && !w.spec.paused)
  }

  /** Every capture under way, in a pass that writes its status: that it does not do unless all
      of them could be gone into. */
  lemma LiveTargets(cfg: Config, w: World, sky: Weather, i: nat)
    requires Named(cfg) && StatusOk(cfg, w.status) && GetsToPods(cfg, w, sky)
    requires i < |w.status.targets| && Live(w.status.targets[i])
    ensures var r := Reconcile(cfg, w, sky);
      && i < |r.end.status.targets| && Unhindered(w, sky, w.status.targets[i])
      && ComesTo(w, w.status.targets[i], r.end.status.targets[i], r.world.captures)
  {
    var c := PassComesOut(cfg, w, sky, i);
    assert TargetOk(cfg, w.status.targets[i]);
    TurnComesTo(c, Listed(w.spec, w.pods), w, w.status.targets[i]);
  }

  lemma TurnComesTo(c: Ctx, listed: seq<Key>, w: World, t: Target)
    requires TargetOk(c.cfg, t) && Live(t) && c.spec == w.spec && c.pods == w.pods
    requires listed == Listed(w.spec, w.pods) && KeepOne(c, listed, Api(w.captures, {}), t).Some?
    ensures Unhindered(w, c.sky, t)
    ensures var (u, after) := KeepOne(c, listed, Api(w.captures, {}), t).value; ComesTo(w, t, u, after.captures)
  {
    StopTold(c, w, t);
    if !c.spec.paused {
      StopsForAnotherReason(c.spec, PodOf(c, listed, t));
    }
    if t.capturer in w.captures {
      ObservedTells(t, w.captures[t.capturer]);
    }
  }

  lemma StopTold(c: Ctx, w: World, t: Target)
    requires c.spec == w.spec && c.pods == w.pods
    ensures StopReason(c.spec, None) == "pod gone"
    ensures t.key in w.pods ==> StopReason(c.spec, Some(w.pods[t.key])) == StopWord(w.pods[t.key].phase, w.spec.paused)
  {
    if t.key in w.pods {
      StopWords(c.spec, w.pods[t.key]);
    } else {
      StopWords(c.spec, TargetPod(true, PodRunning, false, "", true));
    }
  }

  // -------------------------------------------------------------- the status --

  ghost function InPhase(ts: seq<Target>, phase: Phase): set<nat> {
    set i: nat | i < |ts| && ts[i].phase == phase
  }

  lemma {:induction false} CountIsSize(ts: seq<Target>, phase: Phase)
    ensures CountOf(ts, phase) == |InPhase(ts, phase)|
    decreases |ts|
  {
    if ts != [] {
      var n := |ts| - 1;
      CountIsSize(ts[..n], phase);
      assert InPhase(ts, phase) == InPhase(ts[..n], phase) + (if ts[n].phase == phase then {n} else {});
    }
  }

  /** The status a pass writes counts the targets of each phase and the pods selected, and it
      comes again soon exactly if some capture is still under way. */
  lemma StatusCounts(cfg: Config, w: World, sky: Weather)
    requires Named(cfg) && StatusOk(cfg, w.status) && GetsToPods(cfg, w, sky)
    ensures var status := Reconcile(cfg, w, sky).end.status;
      && status.capturing == |InPhase(status.targets, Capturing)|
      && status.completed == |InPhase(status.targets, Completed)|
      && status.failed == |InPhase(status.targets, Failed)|
      && status.selected == (if MoreWanted(w) then Limit(w.spec) else |WantedPods(w)|)
      && Some(status.upload) == sky.upload
    ensures Reconcile(cfg, w, sky).end.soon <==>
      exists i :: 0 <= i < |Reconcile(cfg, w, sky).end.status.targets|
        && Live(Reconcile(cfg, w, sky).end.status.targets[i])
  {
    var c := PassGoesOver(cfg, w, sky);
    var ts := BothLoops(c, w).targets;
    CountIsSize(ts, Capturing);
    CountIsSize(ts, Completed);
    CountIsSize(ts, Failed);
    CountsSome(ts, Capturing);
    CountsSome(ts, Pending);
    ListedAreChosen(w.spec, w.pods);
    ChosenCount(w, Listed(w.spec, w.pods), TooMany(w.spec, w.pods));
  }

  ghost predicate AnyWanted(w: World) {
    exists k :: Wanted(w.spec, w.pods, k)
  }

  /** What keeps a pass from its pods: no namespace, no Webshark, or selectors that fail. */
  lemma ReadySaysWhyNot(cfg: Config, w: World, sky: Weather)
    requires Reconcile(cfg, w, sky).end.Write?
    ensures var ready := Reconcile(cfg, w, sky).end.status.ready;
      && (ready.NoCaptureNamespace? <==> cfg.namespace == "")
      && (ready.NoWebshark? <==> cfg.namespace != "" && sky.upload.None?)
      && (ready.SelectorFailed? <==> cfg.namespace != "" && sky.upload.Some? && sky.list)
    ensures !GetsToPods(cfg, w, sky) ==>
      Reconcile(cfg, w, sky).end.status.targets == w.status.targets && Reconcile(cfg, w, sky).created == {}
    ensures Reconcile(cfg, w, sky).world.finalizer && (sky.update ==> w.finalizer) && !w.deleting && !w.gone
  {
  }

  /** And what it says of one that gets to them: that it is paused; or that there are more
      pods than it captures; or that there are none; or neither. */
  lemma ReadySays(cfg: Config, w: World, sky: Weather)
    requires Named(cfg) && StatusOk(cfg, w.status) && GetsToPods(cfg, w, sky)
    ensures var status := Reconcile(cfg, w, sky).end.status;
      && (status.ready.Paused? <==> w.spec.paused)
      && (status.ready.NoPods? <==> !w.spec.paused && !AnyWanted(w))
      && (status.ready.Truncated? ==>
            MoreWanted(w) || (|status.targets| >= Limit(w.spec) && LeftOut(w, status.targets)))
      && (!w.spec.paused && MoreWanted(w) ==> status.ready.Truncated?)
  {
    var full, more, selected := WhatIsSaid(cfg, w, sky);
  }

  lemma WhatIsSaid(cfg: Config, w: World, sky: Weather) returns (full: bool, more: bool, selected: nat)
    requires Named(cfg) && StatusOk(cfg, w.status) && GetsToPods(cfg, w, sky)
    ensures Reconcile(cfg, w, sky).end.status.ready == Condition(w.spec, full || more, selected)
    ensures (more <==> MoreWanted(w)) && (selected > 0 <==> AnyWanted(w)) && (full || more ==> selected > 0)
    ensures var ts := Reconcile(cfg, w, sky).end.status.targets; full ==> |ts| >= Limit(w.spec) && LeftOut(w, ts)
  {
    var c := PassGoesOver(cfg, w, sky);
    var listed, q := Listed(w.spec, w.pods), BothLoops(c, w);
    full, more, selected := q.full, TooMany(w.spec, w.pods), |listed|;
    ListedAreChosen(w.spec, w.pods);
    ChosenCount(w, listed, more);
    if listed != [] {
      assert listed[0] in listed && Wanted(w.spec, w.pods, listed[0]);
    }
    if full {
      LeavesOut(c, w, listed, q);
    }
  }

  /** There are more pods worth capturing than a pass will take. */
  ghost predicate MoreWanted(w: World) {
    |WantedPods(w)| > Limit(w.spec)
  }

  ghost function WantedPods(w: World): set<Key> {
    set k | k in w.pods && Wanted(w.spec, w.pods, k)
  }

  ghost predicate LeftOut(w: World, ts: seq<Target>) {
    exists k :: Wanted(w.spec, w.pods, k) && !OnList(ts, k)
  }

  lemma LeavesOut(c: Ctx, w: World, listed: seq<Key>, q: Picked)
    requires Named(c.cfg) && TargetsOk(c.cfg, w.status.targets)
    requires q.full && listed == Listed(w.spec, w.pods) && forall k :: k in listed ==> Wanted(w.spec, w.pods, k)
    requires c.spec == w.spec && c.pods == w.pods && |FirstLoop(c, w).targets| == |w.status.targets|
    requires GoneOver(c, KeysOf(w.status.targets), FirstLoop(c, w), listed, q)
    ensures LeftOut(w, q.targets)
  {
    var ts := w.status.targets;
    var k :| k in listed && k !in KeysOf(ts) && !OnList(q.targets[|ts|..], k);
    KeepKeeps(c, listed, Api(w.captures, {}), ts);
    if OnList(q.targets, k) {
      OnWhich(q.targets, FirstLoop(c, w).targets, ts, k);
    }
  }

  lemma OnWhich(all: seq<Target>, kept: seq<Target>, ts: seq<Target>, k: Key)
    requires kept <= all && |kept| == |ts| && SameKeys(kept, ts) && OnList(all, k)
    ensures k in KeysOf(ts) || OnList(all[|ts|..], k)
  {
    var i :| 0 <= i < |all| && all[i].key == k;
    if i < |ts| {
      assert ts[i] in ts && kept[i] == all[i];
    } else {
      assert all[|ts|..][i - |ts|].key == k;
    }
  }

  lemma ChosenCount(w: World, keys: seq<Key>, more: bool)
    requires Chosen(w.spec, w.pods, keys, more)
    ensures more <==> MoreWanted(w)
    ensures |keys| == if more then Limit(w.spec) else |WantedPods(w)|
  {
    var all, chosen := WantedPods(w), set k | k in keys;
    KeysAreDistinct(keys);
    SubsetSize(chosen, all);
    if more {
      var k :| Wanted(w.spec, w.pods, k) && k !in keys;
      SubsetSize(chosen + {k}, all);
    } else {
      assert all == chosen;
    }
  }

  lemma {:induction false} KeysAreDistinct(keys: seq<Key>)
    requires forall i, j :: 0 <= i < j < |keys| ==> Before(keys[i], keys[j])
    ensures |set k | k in keys| == |keys|
    decreases |keys|
  {
    if keys != [] {
      var n := |keys| - 1;
      KeysAreDistinct(keys[..n]);
      forall k | k in keys[..n] ensures k != keys[n] {
        LessIsBefore(k, keys[n]);
        KeyOrder(k, keys[n]);
      }
      assert keys == keys[..n] + [keys[n]];
      assert (set k | k in keys) == (set k | k in keys[..n]) + {keys[n]};
    }
  }
}
