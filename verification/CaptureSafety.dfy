/** What one pass of the PacketCapture reconciler keeps and what it may change
    (operator/internal/controller/packetcapture_controller.go). */
module CaptureSafety {
  import opened CaptureOrder
  import opened CaptureModel

  // ------------------------------------------------------------ one target --

  /** A target with a capture under way names the capture pod, by the derived name. */
  predicate TargetOk(cfg: Config, t: Target) {
    && (Live(t) ==> t.capturer != "")
    && (t.capturer != "" ==> t.capturer == cfg.nameOf(t.key))
  }

  /** A capture that has ended for good: for any reason but a pause. */
  predicate Settled(t: Target) {
    !Live(t) && t.message != PausedMessage
  }

  /** Calls about one target touch its own capture pod only, and make one only where
      there was none, and only for a target that comes to name it. */
  ghost predicate Touches(c: Ctx, key: Key, a: Api, b: Api) {
    && (forall n :: n in a.captures && n != c.cfg.nameOf(key) ==> n in b.captures && b.captures[n] == a.captures[n])
    && (forall n :: n in b.captures && n != c.cfg.nameOf(key) ==> n in a.captures)
    && a.created <= b.created <= a.created + {key}
    && (c.cfg.nameOf(key) in a.captures ==> c.cfg.nameOf(key) in b.captures && b.created == a.created)
  }

  lemma StartTouches(c: Ctx, api: Api, key: Key, t: Target)
    requires Named(c.cfg) && key in c.pods && t.key == key && t.capturer == ""
    ensures var (how, u, after) := Start(c, api, key, t);
      && Touches(c, key, api, after) && u.key == key
      && u.capturer == (if how.Begun? then c.cfg.nameOf(key) else "")
      && (after.created != api.created ==> how.Begun? && !c.spec.paused)
      && (!how.Begun? ==> after == api)
  {
  }

  lemma KeepOneTouches(c: Ctx, listed: seq<Key>, api: Api, t: Target)
    requires Named(c.cfg) && TargetOk(c.cfg, t)
    ensures match KeepOne(c, listed, api, t)
      case None => true
      case Some((u, after)) =>
        && Touches(c, t.key, api, after) && u.key == t.key && TargetOk(c.cfg, u)
        && (Settled(t) ==> u == t && after == api)
  {
    var pod := PodOf(c, listed, t);
    match Observe(c, api, t, pod) {
      case None =>
      case Some((u, after)) =>
        if Resumes(c, u, pod) {
          StartTouches(c, after, u.key, Fresh(u.key));
        }
    }
  }

  // -------------------------------------------------------- the first loop --

  ghost predicate TargetsOk(cfg: Config, ts: seq<Target>) {
    forall i :: 0 <= i < |ts| ==> TargetOk(cfg, ts[i])
  }

  ghost predicate SameKeys(a: seq<Target>, b: seq<Target>) {
    |a| <= |b| && forall i :: 0 <= i < |a| ==> a[i].key == b[i].key
  }

  ghost predicate SettledStay(a: seq<Target>, b: seq<Target>) {
    forall i :: 0 <= i < |a| && i < |b| && Settled(a[i]) ==> b[i] == a[i]
  }

  lemma {:induction false} KeepKeeps(c: Ctx, listed: seq<Key>, api: Api, ts: seq<Target>)
    requires Named(c.cfg) && TargetsOk(c.cfg, ts)
    ensures var k := Keep(c, listed, api, ts);
      && SameKeys(k.targets, ts) && (k.ok ==> |k.targets| == |ts|)
      && TargetsOk(c.cfg, k.targets) && SettledStay(ts, k.targets)
      && api.created <= k.api.created <= api.created + KeysOf(ts)
      && api.captures.Keys <= k.api.captures.Keys
    decreases |ts|
  {
    if ts != [] {
      var n := |ts| - 1;
      KeepKeeps(c, listed, api, ts[..n]);
      assert ts[..n] + [ts[n]] == ts;
      assert KeysOf(ts[..n]) + {ts[n].key} <= KeysOf(ts) by {
        assert ts[n] in ts;
      }
      KeepOneTouches(c, listed, Keep(c, listed, api, ts[..n]).api, ts[n]);
    }
  }

  // ------------------------------------------------------- the second loop --

  predicate NoRepeats(ts: seq<Target>) {
    forall i, j :: 0 <= i < j < |ts| ==> ts[i].key != ts[j].key
  }

  /** What the second loop has added: new targets, after the old, for pods listed. */
  ghost predicate Added(c: Ctx, known: set<Key>, p: Picked, listed: seq<Key>, q: Picked) {
    && p.targets <= q.targets
    && |q.targets| <= Most(|p.targets|, MaxTargets(c.spec))
    && (forall i :: |p.targets| <= i < |q.targets| ==>
          q.targets[i].key in listed && q.targets[i].key !in known && TargetOk(c.cfg, q.targets[i]))
    && p.api.created <= q.api.created <= p.api.created + KeysOf(q.targets[|p.targets|..])
    && p.api.captures.Keys <= q.api.captures.Keys
  }

  lemma PickOneAdds(c: Ctx, known: set<Key>, p: Picked, key: Key)
    requires Named(c.cfg) && key in c.pods && key !in known
    ensures var q := PickOne(c, p, key);
      && p.targets <= q.targets && |q.targets| <= |p.targets| + 1
      && (q.targets == p.targets ==> q.api.created == p.api.created)
      && (q.targets != p.targets ==>
            q.targets[|p.targets|].key == key && TargetOk(c.cfg, q.targets[|p.targets|])
            && p.api.created <= q.api.created <= p.api.created + {key})
      && p.api.captures.Keys <= q.api.captures.Keys
  {
    StartTouches(c, p.api, key, Fresh(key));
  }

  lemma {:induction false} PickAdds(c: Ctx, known: set<Key>, p: Picked, listed: seq<Key>)
    requires Named(c.cfg) && (forall k :: k in listed ==> k in c.pods)
    requires forall i, j :: 0 <= i < j < |listed| ==> listed[i] != listed[j]
    ensures Added(c, known, p, listed, Pick(c, known, p, listed))
    ensures NoRepeats(Pick(c, known, p, listed).targets[|p.targets|..])
    decreases |listed|
  {
    if listed != [] {
      var n := |listed| - 1;
      PickAdds(c, known, p, listed[..n]);
      assert listed == listed[..n] + [listed[n]];
      var so := Pick(c, known, p, listed[..n]);
      if !so.full && listed[n] !in known && |so.targets| < MaxTargets(c.spec) {
        PickAddsOne(c, known, p, listed[..n], so, listed[n]);
      }
    }
  }

  lemma PickAddsOne(c: Ctx, known: set<Key>, p: Picked, listed: seq<Key>, so: Picked, key: Key)
    requires Named(c.cfg) && key in c.pods && key !in known && key !in listed
    requires Added(c, known, p, listed, so) && NoRepeats(so.targets[|p.targets|..])
    requires |so.targets| < MaxTargets(c.spec)
    ensures Added(c, known, p, listed + [key], PickOne(c, so, key))
    ensures NoRepeats(PickOne(c, so, key).targets[|p.targets|..])
  {
    PickOneAdds(c, known, so, key);
    AddsOne(so.targets[|p.targets|..], PickOne(c, so, key).targets[|p.targets|..], key);
  }

  lemma AddsOne(a: seq<Target>, b: seq<Target>, key: Key)
    requires NoRepeats(a) && forall i :: 0 <= i < |a| ==> a[i].key != key
    requires b == a || (|b| == |a| + 1 && b[..|a|] == a && b[|a|].key == key)
    ensures NoRepeats(b) && KeysOf(b) == KeysOf(a) + (if b == a then {} else {key})
  {
    if b != a {
      assert b == a + [b[|a|]];
      forall k ensures k in KeysOf(b) <==> k in KeysOf(a) + {key} {
        assert b[|a|] in b;
      }
    }
  }

  // --------------------------------------------------------------- the pass --

  /** What the status holds between passes. */
  ghost predicate StatusOk(cfg: Config, status: Status) {
    TargetsOk(cfg, status.targets) && NoRepeats(status.targets) && CountsOk(status)
  }

  ghost predicate CountsOk(status: Status) {
    && status.capturing == CountOf(status.targets, Capturing)
    && status.completed == CountOf(status.targets, Completed)
    && status.failed == CountOf(status.targets, Failed)
  }

  /** How one status follows another: no target leaves the list, moves on it, comes back
      once settled or comes on it twice. */
  ghost predicate Follows(a: seq<Target>, b: seq<Target>) {
    SameKeys(a, b) && SettledStay(a, b)
  }

  lemma ListedHasNoRepeats(spec: Spec, pods: map<Key, TargetPod>)
    ensures var keys := Listed(spec, pods); forall i, j :: 0 <= i < j < |keys| ==> keys[i] != keys[j]
  {
    ListingHasNoRepeats(Picks(spec, pods));
  }

  /** What a pass makes a capture pod for is on the list: on the one it writes or, when it
      fails, on the one that stays. */
  ghost predicate ResultOk(cfg: Config, w: World, r: Result) {
    && (!r.end.Write? ==> r.created <= KeysOf(w.status.targets))
    && (r.end.Write? ==> WriteOk(cfg, w, r.created, r.end.status))
  }

  ghost predicate WriteOk(cfg: Config, w: World, created: set<Key>, status: Status) {
    && StatusOk(cfg, status) && Follows(w.status.targets, status.targets)
    && created <= KeysOf(status.targets)
    && |status.targets| <= Most(|w.status.targets|, MaxTargets(w.spec))
  }

  function Most(a: nat, b: nat): nat {
    if a > b then a else b
  }

  lemma LoopOk(c: Ctx, w: World)
    requires Named(c.cfg) && StatusOk(c.cfg, w.status) && c.spec == w.spec
    ensures w.captures.Keys <= Loop(c, w).world.captures.Keys
    ensures ResultOk(c.cfg, w, Loop(c, w))
  {
    var listed, was := Listed(c.spec, c.pods), w.status.targets;
    ListedHasNoRepeats(c.spec, c.pods);
    var start := Api(w.captures, {});
    KeepKeeps(c, listed, start, was);
    var kept := Keep(c, listed, start, was);
    if kept.ok {
      var p := Picked(kept.targets, kept.api, false);
      PickAdds(c, KeysOf(was), p, listed);
      var q := Pick(c, KeysOf(was), p, listed);
      Joined(c, was, kept.targets, q, listed);
      SplitKeys(kept.targets, q.targets);
      SameKeysSets(kept.targets, was);
    }
  }

  lemma SameKeysSets(a: seq<Target>, b: seq<Target>)
    requires SameKeys(a, b) && |a| == |b|
    ensures KeysOf(a) == KeysOf(b)
  {
    forall k ensures k in KeysOf(a) <==> k in KeysOf(b) {
      if k in KeysOf(a) {
        var i :| 0 <= i < |a| && a[i].key == k;
        assert b[i] in b;
      }
      if k in KeysOf(b) {
        var i :| 0 <= i < |b| && b[i].key == k;
        assert a[i] in a;
      }
    }
  }

  lemma SplitKeys(a: seq<Target>, b: seq<Target>)
    requires a <= b
    ensures KeysOf(b) == KeysOf(a) + KeysOf(b[|a|..])
  {
    assert b == a + b[|a|..];
  }

  /** The old targets, and the new ones after them, make a list without repeats. */
  lemma Joined(c: Ctx, was: seq<Target>, kept: seq<Target>, q: Picked, listed: seq<Key>)
    requires NoRepeats(was) && SameKeys(kept, was) && |kept| == |was| && SettledStay(was, kept)
    requires TargetsOk(c.cfg, kept) && kept <= q.targets && NoRepeats(q.targets[|kept|..])
    requires forall i :: |kept| <= i < |q.targets| ==> q.targets[i].key !in KeysOf(was) && TargetOk(c.cfg, q.targets[i])
    ensures NoRepeats(q.targets) && TargetsOk(c.cfg, q.targets) && Follows(was, q.targets)
  {
    var n, ts := |kept|, q.targets;
    assert forall i :: 0 <= i < n ==> ts[i] == kept[i];
    forall i, j | 0 <= i < j < |ts| ensures ts[i].key != ts[j].key {
      if i >= n {
        assert ts[n..][i - n] == ts[i] && ts[n..][j - n] == ts[j];
      } else if j >= n {
        assert was[i] in was;
      }
    }
  }

  /** Every target is on the list once, keeps its place there for ever and, once settled,
      stays as it is; what a pass makes a capture pod for is on the list the pass writes. */
  lemma PassOk(cfg: Config, w: World, sky: Weather)
    requires Named(cfg) && StatusOk(cfg, w.status)
    ensures var r := Reconcile(cfg, w, sky);
      && ResultOk(cfg, w, r)
      && r.world.status == w.status && r.world.spec == w.spec && r.world.pods == w.pods
      && r.world.deleting == w.deleting
      && (r.created != {} ==> r.world.finalizer && !w.deleting && !w.gone)
  {
    if !w.gone && !w.deleting && !(!w.finalizer && sky.update) && cfg.namespace != "" && sky.upload.Some? && !sky.list {
      LoopOk(Ctx(cfg, w.spec, w.pods, sky, sky.upload.value), w.(finalizer := true));
    }
  }

  // ----------------------------------------------------------------- counts --

  lemma {:induction false} CountsSum(ts: seq<Target>)
    ensures CountOf(ts, Pending) + CountOf(ts, Capturing) + CountOf(ts, Completed) + CountOf(ts, Failed) == |ts|
    decreases |ts|
  {
    if ts != [] {
      CountsSum(ts[..|ts| - 1]);
    }
  }

  /** A pass comes again soon exactly when some target is still pending or capturing. */
  lemma {:induction false} CountsSome(ts: seq<Target>, phase: Phase)
    ensures CountOf(ts, phase) > 0 <==> exists i :: 0 <= i < |ts| && ts[i].phase == phase
    decreases |ts|
  {
    if ts != [] {
      var n := |ts| - 1;
      CountsSome(ts[..n], phase);
      if exists i :: 0 <= i < |ts| && ts[i].phase == phase {
        var i :| 0 <= i < |ts| && ts[i].phase == phase;
        assert i < n ==> ts[..n][i].phase == phase;
      }
    }
  }
}
