/** Pausing, resuming and deleting a PacketCapture, pass by pass
    (operator/internal/controller/packetcapture_controller.go). */
module CapturePhases {
  import opened Options
  import opened CaptureOrder
  import opened CaptureModel
  import opened CaptureSafety

  // ---------------------------------------------------------------- pausing --

  /** What a pass finds at a name no target on the list derives is what was there before. */
  predicate AgreeAt(n: string, a: Pods, b: Pods) {
    (n in a <==> n in b) && (n in a && n in b ==> a[n] == b[n])
  }

  lemma {:induction false} KeepLeavesOthers(c: Ctx, listed: seq<Key>, api: Api, ts: seq<Target>, key: Key)
    requires Named(c.cfg) && TargetsOk(c.cfg, ts) && key !in KeysOf(ts)
    ensures AgreeAt(c.cfg.nameOf(key), api.captures, Keep(c, listed, api, ts).api.captures)
    decreases |ts|
  {
    if ts != [] {
      var n := |ts| - 1;
      assert ts[n] in ts && ts[..n] + [ts[n]] == ts;
      KeepLeavesOthers(c, listed, api, ts[..n], key);
      KeepOneTouches(c, listed, Keep(c, listed, api, ts[..n]).api, ts[n]);
      assert NamesDiffer(c.cfg, key, ts[n].key);
    }
  }

  lemma {:induction false} PausedKeepEnds(c: Ctx, listed: seq<Key>, api: Api, ts: seq<Target>)
    requires Named(c.cfg) && TargetsOk(c.cfg, ts) && c.spec.paused
    ensures forall i :: 0 <= i < |Keep(c, listed, api, ts).targets| ==> !Live(Keep(c, listed, api, ts).targets[i])
    decreases |ts|
  {
    if ts != [] {
      PausedKeepEnds(c, listed, api, ts[..|ts| - 1]);
    }
  }

  /** A capture pod that is still there and has neither been deleted nor come to an end. */
  predicate Adoptable(captures: Pods, name: string) {
    && name in captures && !captures[name].deleting
    && !captures[name].phase.PodSucceeded? && !captures[name].phase.PodFailed?
  }

  predicate PausedNew(c: Ctx, known: set<Key>, captures: Pods, t: Target) {
    var name := c.cfg.nameOf(t.key);
    t.key !in known && (Live(t) <==> Adoptable(captures, name) && name !in c.sky.startGet)
  }

  lemma {:induction false} PausedPickAdopts(c: Ctx, known: set<Key>, p: Picked, listed: seq<Key>)
    requires c.spec.paused && forall k :: k in listed ==> k in c.pods
    ensures var q := Pick(c, known, p, listed);
      && q.api == p.api && p.targets <= q.targets
      && (forall i :: |p.targets| <= i < |q.targets| ==> PausedNew(c, known, p.api.captures, q.targets[i]))
    decreases |listed|
  {
    if listed != [] {
      var n := |listed| - 1;
      var so := Pick(c, known, p, listed[..n]);
      PausedPickAdopts(c, known, p, listed[..n]);
      assert listed == listed[..n] + [listed[n]];
      if !so.full && listed[n] !in known && |so.targets| < MaxTargets(c.spec) {
        PausedPickOne(c, known, so, listed[n]);
      }
    }
  }

  /** One turn of that loop. */
  lemma PausedPickOne(c: Ctx, known: set<Key>, p: Picked, key: Key)
    requires c.spec.paused && key in c.pods && key !in known
    ensures var q := PickOne(c, p, key);
      && q.api == p.api && p.targets <= q.targets && |q.targets| <= |p.targets| + 1
      && (|q.targets| > |p.targets| ==> PausedNew(c, known, p.api.captures, q.targets[|p.targets|]))
  {
  }

  /** Which targets a paused pass that gets to its targets leaves running: none of those on
      the list before, and of the new ones exactly those whose capture pod it finds. */
  lemma PausedPass(cfg: Config, w: World, sky: Weather, i: nat)
    requires Named(cfg) && StatusOk(cfg, w.status) && w.spec.paused
    requires Reconcile(cfg, w, sky).end.Write? && Reconcile(cfg, w, sky).end.status.ready.Paused?
    requires i < |Reconcile(cfg, w, sky).end.status.targets|
    ensures var t := Reconcile(cfg, w, sky).end.status.targets[i];
      Live(t) <==> i >= |w.status.targets| && Adoptable(w.captures, cfg.nameOf(t.key))
                   && cfg.nameOf(t.key) !in sky.startGet
  {
    var c, v := Ctx(cfg, w.spec, w.pods, sky, sky.upload.value), w.(finalizer := true);
    var listed, ts := Listed(c.spec, c.pods), w.status.targets;
    assert Reconcile(cfg, w, sky) == Loop(c, v);
    var kept := Keep(c, listed, Api(w.captures, {}), ts);
    PausedKeepEnds(c, listed, Api(w.captures, {}), ts);
    KeepKeeps(c, listed, Api(w.captures, {}), ts);
    var p := Picked(kept.targets, kept.api, false);
    PausedPickAdopts(c, KeysOf(ts), p, listed);
    var q := Pick(c, KeysOf(ts), p, listed);
    if i >= |ts| {
      KeepLeavesOthers(c, listed, Api(w.captures, {}), ts, q.targets[i].key);
    }
  }

  /** A pod that may be captured, is not on the list, and has a capture pod a pass would
      take up. */
  ghost predicate LeftBehind(cfg: Config, w: World, sky: Weather, key: Key) {
    && key in Listed(w.spec, w.pods) && key !in KeysOf(w.status.targets)
    && Adoptable(w.captures, cfg.nameOf(key)) && cfg.nameOf(key) !in sky.startGet
  }

  /** So a pause holds if no capture pod has been left behind by its target; and only if, as
      long as there is room on the list. */
  lemma PauseHolds(cfg: Config, w: World, sky: Weather)
    requires Named(cfg) && StatusOk(cfg, w.status) && w.spec.paused
    requires Reconcile(cfg, w, sky).end.Write? && Reconcile(cfg, w, sky).end.status.ready.Paused?
    ensures (forall k :: !LeftBehind(cfg, w, sky, k)) ==> NoneLive(Reconcile(cfg, w, sky).end.status.targets)
    ensures |w.status.targets| + |Listed(w.spec, w.pods)| <= MaxTargets(w.spec) ==>
      (NoneLive(Reconcile(cfg, w, sky).end.status.targets) <==> forall k :: !LeftBehind(cfg, w, sky, k))
  {
    var c, api := Ctx(cfg, w.spec, w.pods, sky, sky.upload.value), Api(w.captures, {});
    var listed, ts := Listed(c.spec, c.pods), w.status.targets;
    assert Reconcile(cfg, w, sky) == Loop(c, w.(finalizer := true));
    var kept := Keep(c, listed, api, ts);
    KeepKeeps(c, listed, api, ts);
    ListedHasNoRepeats(c.spec, c.pods);
    var p := Picked(kept.targets, kept.api, false);
    PickAdds(c, KeysOf(ts), p, listed);
    var all := Reconcile(cfg, w, sky).end.status.targets;
    forall i | 0 <= i < |all| && Live(all[i]) ensures LeftBehind(cfg, w, sky, all[i].key) {
      PausedPass(cfg, w, sky, i);
    }
    if |ts| + |listed| <= MaxTargets(w.spec) {
      forall k | LeftBehind(cfg, w, sky, k) ensures !NoneLive(all) {
        KeepLeavesOthers(c, listed, api, ts, k);
        PausedPickReaches(c, KeysOf(ts), p, listed, k);
      }
    }
  }

  ghost predicate NoneLive(ts: seq<Target>) {
    forall i :: 0 <= i < |ts| ==> !Live(ts[i])
  }

  /** With room for them all, every capture pod left behind is come to. */
  lemma {:induction false} PausedPickReaches(c: Ctx, known: set<Key>, p: Picked, listed: seq<Key>, key: Key)
    requires c.spec.paused && (forall k :: k in listed ==> k in c.pods) && !p.full
    requires |p.targets| + |listed| <= MaxTargets(c.spec)
    requires key in listed && key !in known && Adoptable(p.api.captures, c.cfg.nameOf(key))
    requires c.cfg.nameOf(key) !in c.sky.startGet
    ensures !NoneLive(Pick(c, known, p, listed).targets)
    decreases |listed|
  {
    var n := |listed| - 1;
    var so := Pick(c, known, p, listed[..n]);
    assert listed == listed[..n] + [listed[n]];
    PausedPickAdopts(c, known, p, listed[..n]);
    PausedPickRoom(c, known, p, listed[..n]);
    if listed[n] == key {
      var q := PickOne(c, so, key);
      assert Live(q.targets[|q.targets| - 1]);
    } else {
      PausedPickReaches(c, known, p, listed[..n], key);
      var i :| 0 <= i < |so.targets| && Live(so.targets[i]);
      PausedPickAdopts(c, known, so, [listed[n]]);
      assert [listed[n]][..0] == [];
      assert so.targets <= Pick(c, known, p, listed).targets;
      assert Live(Pick(c, known, p, listed).targets[i]);
    }
  }

  lemma {:induction false} PausedPickRoom(c: Ctx, known: set<Key>, p: Picked, listed: seq<Key>)
    requires (forall k :: k in listed ==> k in c.pods) && !p.full
    requires |p.targets| + |listed| <= MaxTargets(c.spec)
    ensures !Pick(c, known, p, listed).full && |Pick(c, known, p, listed).targets| <= |p.targets| + |listed|
    decreases |listed|
  {
    if listed != [] {
      PausedPickRoom(c, known, p, listed[..|listed| - 1]);
    }
  }

  /** So a pause does not always hold: a capture pod whose target was lost from the list is
      taken up again, and left running, by a paused pass. */
  lemma PausedPassAdopts(cfg: Config, key: Key, pod: CapturePod, sky: Weather)
    requires Named(cfg) && cfg.namespace != "" && Fair(sky) && sky.upload.Some?
    requires pod.phase.PodRunning? && !pod.deleting
    ensures var w := World(false, false, true, Spec(true, 10, "", {}),
                           Status([], 0, 0, 0, 0, "", Unset),
                           map[key := TargetPod(true, PodRunning, false, "node", true)],
                           map[cfg.nameOf(key) := pod]);
      && Reconcile(cfg, w, sky).end.Write? && Reconcile(cfg, w, sky).end.status.ready.Paused?
      && |Reconcile(cfg, w, sky).end.status.targets| == 1
      && Reconcile(cfg, w, sky).end.status.targets[0].phase.Capturing?
  {
    var pods := map[key := TargetPod(true, PodRunning, false, "node", true)];
    var spec := Spec(true, 10, "", {});
    assert Picks(spec, pods) == {key};
    ListsOnce(Listing({key}), [key], {key});
    var c := Ctx(cfg, spec, pods, sky, sky.upload.value);
    var none: seq<Target> := [];
    assert KeysOf(none) == {};
    var api := Api(map[cfg.nameOf(key) := pod], {});
    assert Keep(c, [key], api, none) == Kept(true, [], api);
    var p := Picked([], api, false);
    assert [key][..0] == [];
    assert Pick(c, {}, p, []) == p;
    assert Pick(c, {}, p, [key]) == PickOne(c, p, key);
  }

  // --------------------------------------------------------------- resuming --

  /** A capture that is over starts again only after a pause, once nothing is paused and
      its pod runs, and never while the capture pod it had is being deleted; and a second
      capture pod is made only where there is none. */
  lemma RestartNeedsName(c: Ctx, listed: seq<Key>, api: Api, t: Target)
    requires Named(c.cfg) && !Live(t)
    ensures match KeepOne(c, listed, api, t)
      case None => false
      case Some((u, after)) => var name := c.cfg.nameOf(t.key);
        && (u != t || after != api ==>
              t.message == PausedMessage && !c.spec.paused && t.key in c.pods && c.pods[t.key].phase.PodRunning?
              && (name !in api.captures || !api.captures[name].deleting))
        && (after != api ==> name !in api.captures && name in after.captures)
  {
  }

  /** Whether a start would get anywhere: to a pod it can adopt, and that says something
      new, or to one it can make. */
  predicate Startable(c: Ctx, api: Api, t: Target)
    requires t.key in c.pods
  {
    var name := c.cfg.nameOf(t.key);
    name !in c.sky.startGet
    && (if name in api.captures then
          !api.captures[name].deleting && Adopt(c.cfg, name, Fresh(t.key), api.captures[name]) != t
        else
          c.pods[t.key].node != "" && c.pods[t.key].addressed
          && !(name in c.sky.create && c.sky.create[name].Rejected?))
  }

  /** A target that is over, whether it failed or was completed, changes exactly when its
      message is the pause's own, nothing is paused, its pod is among those listed and runs,
      and the start gets somewhere. */
  lemma RestartsExactly(c: Ctx, listed: seq<Key>, api: Api, t: Target)
    requires Named(c.cfg) && !Live(t)
    ensures KeepOne(c, listed, api, t) != Some((t, api)) <==>
      t.message == PausedMessage && !c.spec.paused && t.key in listed && t.key in c.pods
      && c.pods[t.key].phase.PodRunning? && Startable(c, api, t)
  {
  }

  /** With nothing failing, a capture that a pause ended starts anew once its capture pod
      has gone, and waits while that is being deleted. */
  lemma RestartsOnceGone(c: Ctx, listed: seq<Key>, api: Api, t: Target)
    requires Fair(c.sky) && !Live(t) && t.message == PausedMessage && t.key in listed && t.key in c.pods
    requires !c.spec.paused && c.pods[t.key].phase.PodRunning? && c.pods[t.key].node != "" && c.pods[t.key].addressed
    ensures c.cfg.nameOf(t.key) !in api.captures ==>
      KeepOne(c, listed, api, t) == Some((
        Fresh(t.key).(capturer := c.cfg.nameOf(t.key), file := NewFile(c, t.key)),
        Api(api.captures[c.cfg.nameOf(t.key) := NewPod(c, t.key)], api.created + {t.key})))
    ensures c.cfg.nameOf(t.key) in api.captures && api.captures[c.cfg.nameOf(t.key)].deleting ==>
      KeepOne(c, listed, api, t) == Some((t, api))
  {
  }

  /** A target that failed, of whose capture pod the last word was `paused`, and that pod
      gone: the next pass captures it again, though a failure is meant to be final. */
  lemma FailedRestarts(cfg: Config, key: Key, sky: Weather)
    requires Named(cfg) && cfg.namespace != "" && Fair(sky) && sky.upload.Some?
    ensures var t := Target(key, Failed, PausedMessage, cfg.nameOf(key), "old.pcap");
      var w := World(false, false, true, Spec(false, 10, "", {}), Status([t], 1, 0, 0, 1, "", Selected),
                     map[key := TargetPod(true, PodRunning, false, "node", true)], map[]);
      && StatusOk(cfg, w.status) && Reconcile(cfg, w, sky).end.Write?
      && Reconcile(cfg, w, sky).created == {key}
      && |Reconcile(cfg, w, sky).end.status.targets| == 1
      && Reconcile(cfg, w, sky).end.status.targets[0].phase.Pending?
  {
    var t := Target(key, Failed, PausedMessage, cfg.nameOf(key), "old.pcap");
    var pods := map[key := TargetPod(true, PodRunning, false, "node", true)];
    var spec := Spec(false, 10, "", {});
    assert Picks(spec, pods) == {key};
    ListsOnce(Listing({key}), [key], {key});
    assert Listed(spec, pods) == [key];
    var c := Ctx(cfg, spec, pods, sky, sky.upload.value);
    var api := Api(map[], {});
    RestartsOnceGone(c, [key], api, t);
    FailedRestartsLoop(c, key, t);
    assert [t][..0] == [];
    assert CountOf([t], Capturing) == CountOf([], Capturing) && CountOf([t], Completed) == CountOf([], Completed);
    assert CountOf([t], Failed) == CountOf([], Failed) + 1;
  }

  lemma FailedRestartsLoop(c: Ctx, key: Key, t: Target)
    requires t.key == key && key in c.pods && KeepOne(c, [key], Api(map[], {}), t).Some?
    ensures var (u, after) := KeepOne(c, [key], Api(map[], {}), t).value;
      && Keep(c, [key], Api(map[], {}), [t]) == Kept(true, [u], after)
      && Pick(c, KeysOf([t]), Picked([u], after, false), [key]) == Picked([u], after, false)
  {
    var (u, after) := KeepOne(c, [key], Api(map[], {}), t).value;
    assert [t][..0] == [] && [key][..0] == [];
    assert Keep(c, [key], Api(map[], {}), []) == Kept(true, [], Api(map[], {}));
    assert t in [t] && key in KeysOf([t]);
    assert Pick(c, KeysOf([t]), Picked([u], after, false), []) == Picked([u], after, false);
  }

  /** The turn that pauses a capture has its capture pod deleted. */
  lemma PausedMeansDeleted(c: Ctx, listed: seq<Key>, api: Api, t: Target)
    requires TargetOk(c.cfg, t) && Live(t) && KeepOne(c, listed, api, t).Some?
    requires KeepOne(c, listed, api, t).value.0.phase.Completed?
    requires KeepOne(c, listed, api, t).value.0.message == PausedMessage
    ensures var captures := KeepOne(c, listed, api, t).value.1.captures;
      c.spec.paused && t.capturer in captures && captures[t.capturer].deleting
  {
  }

  /** A mark for deletion is not taken off again. */
  predicate StaysMarked(name: string, a: Pods, b: Pods) {
    name in a && a[name].deleting ==> name in b && b[name].deleting
  }

  lemma KeepOneKeepsMarks(c: Ctx, listed: seq<Key>, api: Api, t: Target, name: string)
    ensures KeepOne(c, listed, api, t).Some? ==>
      StaysMarked(name, api.captures, KeepOne(c, listed, api, t).value.1.captures)
  {
  }

  lemma {:induction false} KeepKeepsMarks(c: Ctx, listed: seq<Key>, api: Api, ts: seq<Target>, name: string)
    ensures StaysMarked(name, api.captures, Keep(c, listed, api, ts).api.captures)
    decreases |ts|
  {
    if ts != [] {
      KeepKeepsMarks(c, listed, api, ts[..|ts| - 1], name);
      KeepOneKeepsMarks(c, listed, Keep(c, listed, api, ts[..|ts| - 1]).api, ts[|ts| - 1], name);
    }
  }

  lemma {:induction false} PickKeepsMarks(c: Ctx, known: set<Key>, p: Picked, listed: seq<Key>, name: string)
    requires forall k :: k in listed ==> k in c.pods
    ensures StaysMarked(name, p.api.captures, Pick(c, known, p, listed).api.captures)
    decreases |listed|
  {
    if listed != [] {
      PickKeepsMarks(c, known, p, listed[..|listed| - 1], name);
    }
  }

  /** A target whose capture pod is on its way out at the beginning of its pass is not
      restarted in it. */
  lemma {:induction false} KeepWaits(c: Ctx, listed: seq<Key>, api: Api, ts: seq<Target>, i: nat)
    requires Named(c.cfg) && TargetsOk(c.cfg, ts) && i < |ts| && !Live(ts[i])
    requires c.cfg.nameOf(ts[i].key) in api.captures && api.captures[c.cfg.nameOf(ts[i].key)].deleting
    ensures i < |Keep(c, listed, api, ts).targets| ==> Keep(c, listed, api, ts).targets[i] == ts[i]
    decreases |ts|
  {
    var n := |ts| - 1;
    KeepKeeps(c, listed, api, ts[..n]);
    KeepKeepsMarks(c, listed, api, ts[..n], c.cfg.nameOf(ts[i].key));
    if i < n {
      KeepWaits(c, listed, api, ts[..n], i);
    } else {
      RestartNeedsName(c, listed, Keep(c, listed, api, ts[..n]).api, ts[n]);
    }
  }

  lemma PassWaits(cfg: Config, w: World, sky: Weather, lands: bool, i: nat)
    requires Named(cfg) && StatusOk(cfg, w.status) && i < |w.status.targets| && !Live(w.status.targets[i])
    requires var name := cfg.nameOf(w.status.targets[i].key); name in w.captures && w.captures[name].deleting
    ensures var next := After(cfg, w, sky, lands);
      && i < |next.status.targets| && next.status.targets[i] == w.status.targets[i]
      && StaysMarked(cfg.nameOf(w.status.targets[i].key), w.captures, next.captures)
  {
    var name := cfg.nameOf(w.status.targets[i].key);
    StopPodsKeepsMarks(sky, w.captures, sky.own, name);
    if sky.upload.Some? {
      var c := Ctx(cfg, w.spec, w.pods, sky, sky.upload.value);
      LoopWaits(c, w.(finalizer := true), i);
    }
  }

  lemma LoopWaits(c: Ctx, w: World, i: nat)
    requires Named(c.cfg) && StatusOk(c.cfg, w.status) && i < |w.status.targets| && !Live(w.status.targets[i])
    requires var name := c.cfg.nameOf(w.status.targets[i].key); name in w.captures && w.captures[name].deleting
    ensures var r := Loop(c, w);
      && (r.end.Write? ==> i < |r.end.status.targets| && r.end.status.targets[i] == w.status.targets[i])
      && StaysMarked(c.cfg.nameOf(w.status.targets[i].key), w.captures, r.world.captures)
  {
    var listed, ts, name := Listed(c.spec, c.pods), w.status.targets, c.cfg.nameOf(w.status.targets[i].key);
    var api := Api(w.captures, {});
    KeepKeeps(c, listed, api, ts);
    KeepWaits(c, listed, api, ts, i);
    KeepKeepsMarks(c, listed, api, ts, name);
    var kept := Keep(c, listed, api, ts);
    var p := Picked(kept.targets, kept.api, false);
    ListedHasNoRepeats(c.spec, c.pods);
    PickAdds(c, KeysOf(ts), p, listed);
    PickKeepsMarks(c, KeysOf(ts), p, listed, name);
  }

  // The whole pass that pauses a capture.

  predicate PausedNow(t: Target) {
    t.phase.Completed? && t.message == PausedMessage
  }

  lemma {:induction false} KeepPauses(c: Ctx, listed: seq<Key>, api: Api, ts: seq<Target>, i: nat)
    requires Named(c.cfg) && TargetsOk(c.cfg, ts) && i < |ts| && Live(ts[i])
    requires i < |Keep(c, listed, api, ts).targets| && PausedNow(Keep(c, listed, api, ts).targets[i])
    ensures var name, captures := c.cfg.nameOf(ts[i].key), Keep(c, listed, api, ts).api.captures;
      c.spec.paused && name in captures && captures[name].deleting
    decreases |ts|
  {
    var n := |ts| - 1;
    var so := Keep(c, listed, api, ts[..n]);
    KeepKeeps(c, listed, api, ts[..n]);
    if i < n {
      KeepPauses(c, listed, api, ts[..n], i);
      KeepOneKeepsMarks(c, listed, so.api, ts[n], c.cfg.nameOf(ts[i].key));
    } else {
      assert TargetOk(c.cfg, ts[n]);
      PausedMeansDeleted(c, listed, so.api, ts[n]);
    }
  }

  lemma LoopPauses(c: Ctx, w: World, i: nat)
    requires Named(c.cfg) && StatusOk(c.cfg, w.status) && i < |w.status.targets| && Live(w.status.targets[i])
    requires Loop(c, w).end.Write? && i < |Loop(c, w).end.status.targets|
    requires PausedNow(Loop(c, w).end.status.targets[i])
    ensures var name, captures := c.cfg.nameOf(w.status.targets[i].key), Loop(c, w).world.captures;
      c.spec.paused && name in captures && captures[name].deleting
  {
    var listed, ts, api := Listed(c.spec, c.pods), w.status.targets, Api(w.captures, {});
    var kept := Keep(c, listed, api, ts);
    var p := Picked(kept.targets, kept.api, false);
    KeepKeeps(c, listed, api, ts);
    ListedHasNoRepeats(c.spec, c.pods);
    PickAdds(c, KeysOf(ts), p, listed);
    KeepPauses(c, listed, api, ts, i);
    PickKeepsMarks(c, KeysOf(ts), p, listed, c.cfg.nameOf(ts[i].key));
  }

  /** The pass that pauses a capture leaves its capture pod marked for deletion, whatever
      fails after that turn and whatever the rest of the pass does. */
  lemma PassPauses(cfg: Config, w: World, sky: Weather, i: nat)
    requires Named(cfg) && StatusOk(cfg, w.status) && i < |w.status.targets| && Live(w.status.targets[i])
    requires i < |After(cfg, w, sky, true).status.targets| && PausedNow(After(cfg, w, sky, true).status.targets[i])
    ensures var next, t := After(cfg, w, sky, true), w.status.targets[i];
      && w.spec.paused && next.status.targets[i].key == t.key
      && cfg.nameOf(t.key) in next.captures && next.captures[cfg.nameOf(t.key)].deleting
  {
    PassOk(cfg, w, sky);
    if sky.upload.Some? {
      var c := Ctx(cfg, w.spec, w.pods, sky, sky.upload.value);
      assert Reconcile(cfg, w, sky) == Loop(c, w.(finalizer := true));
      LoopPauses(c, w.(finalizer := true), i);
    }
  }

  lemma {:induction false} StopPodsKeepsMarks(sky: Weather, captures: Pods, names: seq<string>, name: string)
    ensures StaysMarked(name, captures, StopPods(sky, captures, names).1)
    decreases |names|
  {
    if names != [] {
      StopPodsKeepsMarks(sky, captures, names[..|names| - 1], name);
    }
  }

  // --------------------------------------------------------------- deleting --

  lemma {:induction false} StopPodsMarks(sky: Weather, captures: Pods, names: seq<string>)
    ensures var (ok, after) := StopPods(sky, captures, names);
      && after.Keys == captures.Keys
      && (forall n :: n in after ==> after[n].owner == captures[n].owner)
      && (forall n :: n in after && n !in names ==> after[n] == captures[n])
      && (ok ==> forall n :: n in names && n in after ==> after[n].deleting)
    decreases |names|
  {
    if names != [] {
      StopPodsMarks(sky, captures, names[..|names| - 1]);
      assert names == names[..|names| - 1] + [names[|names| - 1]];
    }
  }

  /** The finalizer goes, and the object with it, only in a pass that finds the object
      being deleted, touching no capture pod of another; and with no fault it does go. What
      it leaves of the capture pods made for it is marked for deletion if and only if the
      operator knows a namespace to look for them in, or they were marked already. */
  lemma FinalizerGoes(cfg: Config, w: World, sky: Weather)
    requires w.finalizer && !w.gone
    requires forall n :: n in sky.own <==> n in OwnPods(cfg, w.captures)
    ensures var r := Reconcile(cfg, w, sky);
      && (!r.world.finalizer ==> w.deleting && r.world.gone && r.created == {})
      && (!r.world.finalizer ==>
            OwnPods(cfg, r.world.captures) == OwnPods(cfg, w.captures)
            && (AllMarked(cfg, r.world.captures) <==> cfg.namespace != "" || AllMarked(cfg, w.captures)))
      && (w.deleting ==> forall n :: n in w.captures && n !in OwnPods(cfg, w.captures) ==>
            n in r.world.captures && r.world.captures[n] == w.captures[n])
      && (w.deleting && Fair(sky) ==> !r.world.finalizer)
  {
    StopPodsMarks(sky, w.captures, sky.own);
    if w.deleting && Fair(sky) {
      StopPodsSucceeds(sky, w.captures, sky.own);
    }
    if w.deleting {
      assert Reconcile(cfg, w, sky) == StopAll(cfg, w, sky);
    } else {
      LoopKeepsFinalizer(cfg, w, sky);
    }
  }

  /** Every capture pod made for this object has been deleted. */
  ghost predicate AllMarked(cfg: Config, captures: Pods) {
    forall n :: n in OwnPods(cfg, captures) ==> captures[n].deleting
  }

  /** So with no namespace the object goes and leaves a running capture pod behind. */
  lemma FinalizerLeavesPod(cfg: Config, w: World, sky: Weather, name: string)
    requires cfg.namespace == "" && w.finalizer && !w.gone && w.deleting && !sky.update
    requires w.captures == map[name := CapturePod(cfg.self, false, PodRunning, "", "")]
    ensures Reconcile(cfg, w, sky).end.Nothing? && Reconcile(cfg, w, sky).world.gone
    ensures !Reconcile(cfg, w, sky).world.finalizer && Reconcile(cfg, w, sky).world.captures == w.captures
    ensures !AllMarked(cfg, w.captures)
  {
    assert name in OwnPods(cfg, w.captures);
  }

  lemma LoopKeepsFinalizer(cfg: Config, w: World, sky: Weather)
    requires w.finalizer && !w.gone && !w.deleting
    ensures Reconcile(cfg, w, sky).world.finalizer
  {
  }

  lemma {:induction false} StopPodsSucceeds(sky: Weather, captures: Pods, names: seq<string>)
    requires sky.delete == {}
    ensures StopPods(sky, captures, names).0
    decreases |names|
  {
    if names != [] {
      StopPodsSucceeds(sky, captures, names[..|names| - 1]);
    }
  }
}
