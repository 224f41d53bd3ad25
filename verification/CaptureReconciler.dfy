/** The reconciler and the API server as objects: a pass is a run of calls, each changing
    what the server holds (operator/internal/controller/packetcapture_controller.go). */
module CaptureReconciler {
  import opened Options
  import opened CaptureOrder
  import opened CaptureUrl
  import opened CaptureModel
  import opened CaptureChoice

  class Server {
    var gone: bool
    var deleting: bool
    var finalizer: bool
    var spec: Spec
    var status: Status
    var pods: map<Key, TargetPod>
    var captures: Pods
    ghost var made: set<Key>

    constructor (w: World)
      ensures Stored() == w && made == {}
    {
      gone, deleting, finalizer := w.gone, w.deleting, w.finalizer;
      spec, status, pods, captures, made := w.spec, w.status, w.pods, w.captures, {};
    }

    ghost function Stored(): World
      reads this
    {
      World(gone, deleting, finalizer, spec, status, pods, captures)
    }

    ghost function State(): Api
      reads `captures, `made
    {
      Api(captures, made)
    }

    /** Creates a capture pod, unless that is refused or the name has just been taken. */
    method CreatePod(sky: Weather, name: string, pod: CapturePod, ghost key: Key) returns (error: Option<Trouble>)
      modifies `captures, `made
      ensures error == if name in sky.create && sky.create[name].Rejected? then Some(sky.create[name].why) else None
      ensures captures ==
        if name !in sky.create then old(captures)[name := pod]
        else if sky.create[name].Raced? then old(captures)[name := sky.create[name].pod]
        else old(captures)
      ensures made == if name in sky.create then old(made) else old(made) + {key}
    {
      if name !in sky.create {
        captures, made := captures[name := pod], made + {key};
        return None;
      }
      match sky.create[name] {
        case Rejected(why) => return Some(why);
        case Raced(other) =>
          captures := captures[name := other];
          return None;
      }
    }

    /** Marks a pod that is there for deletion. */
    method DeletePod(name: string)
      requires name in captures
      modifies `captures
      ensures captures == old(captures)[name := old(captures)[name].(deleting := true)]
    {
      captures := captures[name := captures[name].(deleting := true)];
    }
  }

  class Reconciler {
    const cfg: Config
    const server: Server

    constructor (cfg: Config, server: Server)
      ensures this.cfg == cfg && this.server == server
    {
      this.cfg, this.server := cfg, server;
    }

    method Start(c: Ctx, key: Key, t: Target) returns (how: Begin, u: Target)
      requires c.cfg == cfg && key in c.pods
      modifies server`captures, server`made
      ensures (how, u, server.State()) == CaptureModel.Start(c, old(server.State()), key, t)
    {
      var name := cfg.nameOf(key);
      u := t;
      if name in c.sky.startGet {
        return Refused(Other(c.sky.startGet[name])), u;
      }
      if name in server.captures {
        var existing := server.captures[name];
        if existing.deleting {
          return Skipped, u;
        }
        u := u.(capturer := name);
        u := u.(file := FileFrom(existing.url, cfg.parses));
        u := ObservePod(u, existing);
        return Begun, u;
      }
      if c.spec.paused {
        return Skipped, u;
      }
      if c.pods[key].node == "" {
        return Refused(Other("pod is not on a node")), u;
      }
      if !c.pods[key].addressed {
        return Refused(Other("pod has no address to find its network namespace by")), u;
      }
      u := u.(file := NewFile(c, key));
      var error := server.CreatePod(c.sky, name, NewPod(c, key), key);
      if error.Some? {
        return Refused(error.value), u;
      }
      u := u.(capturer := name);
      return Begun, u;
    }

    method Observe(c: Ctx, t: Target, pod: Option<TargetPod>) returns (ok: bool, u: Target)
      requires c.cfg == cfg
      modifies server`captures
      ensures ok <==> CaptureModel.Observe(c, old(server.State()), t, pod).Some?
      ensures ok ==> Some((u, server.State())) == CaptureModel.Observe(c, old(server.State()), t, pod)
      ensures !ok ==> server.captures == old(server.captures)
    {
      u := t;
      if t.capturer == "" || t.phase.Completed? || t.phase.Failed? {
        return true, u;
      }
      if t.capturer in c.sky.observeGet {
        return false, u;
      }
      if t.capturer !in server.captures {
        u := u.(phase := Completed, message := "stopped");
        return true, u;
      }
      var found := server.captures[t.capturer];
      var reason := StopReason(c.spec, pod);
      if reason == "" {
        u := ObservePod(u, found);
        return true, u;
      }
      if !found.deleting {
        if t.capturer in c.sky.delete {
          return false, u;
        }
        server.DeletePod(t.capturer);
      }
      assert server.State() == Marked(old(server.State()), t.capturer);
      u := u.(phase := Completed, message := reason);
      return true, u;
    }

    /** The body of the first loop. */
    method KeepTarget(c: Ctx, listed: seq<Key>, t: Target) returns (ok: bool, u: Target)
      requires c.cfg == cfg
      modifies server`captures, server`made
      ensures ok <==> KeepOne(c, listed, old(server.State()), t).Some?
      ensures ok ==> Some((u, server.State())) == KeepOne(c, listed, old(server.State()), t)
      ensures !ok ==> server.State() == old(server.State())
    {
      var pod := None;
      if t.key in listed {
        pod := if t.key in c.pods then Some(c.pods[t.key]) else None;
      } else if Live(t) {
        if t.key in c.sky.podGet {
          return false, t;
        }
        pod := if t.key in c.pods then Some(c.pods[t.key]) else None;
      }
      ok, u := Observe(c, t, pod);
      if !ok {
        return;
      }
      if u.message == PausedMessage && !c.spec.paused && pod.Some? && pod.value.phase.PodRunning? {
        var how, anew := Start(c, u.key, Fresh(u.key));
        if how.Begun? {
          u := anew;
        }
      }
    }

    /** The first loop. */
    method KeepTargets(c: Ctx, listed: seq<Key>, ts: seq<Target>) returns (ok: bool, kept: seq<Target>)
      requires c.cfg == cfg
      modifies server`captures, server`made
      ensures Kept(ok, kept, server.State()) == Keep(c, listed, old(server.State()), ts)
    {
      kept, ok := [], true;
      ghost var start := server.State();
      for i := 0 to |ts|
        invariant ok && Keep(c, listed, start, ts[..i]) == Kept(true, kept, server.State())
      {
        assert ts[..i + 1][..i] == ts[..i];
        var u;
        ok, u := KeepTarget(c, listed, ts[i]);
        if !ok {
          KeepFails(c, listed, start, ts, i + 1);
          return;
        }
        kept := kept + [u];
      }
      assert ts[..|ts|] == ts;
    }

    /** The body of the second loop. */
    method PickPod(c: Ctx, key: Key, kept: seq<Target>, ghost p: Picked) returns (more: seq<Target>)
      requires c.cfg == cfg && key in c.pods && p == Picked(kept, server.State(), false)
      modifies server`captures, server`made
      ensures Picked(more, server.State(), false) == PickOne(c, p, key)
    {
      more := kept;
      var how, target := Start(c, key, Fresh(key));
      match how {
        case Skipped => return;
        case Begun =>
        case Refused(why) =>
          if !why.Other? {
            return;
          }
          target := target.(phase := Failed, message := Clip(why.text));
      }
      more := more + [target];
    }

    /** The second loop. */
    method PickPods(c: Ctx, known: set<Key>, listed: seq<Key>, kept: seq<Target>) returns (ts: seq<Target>, full: bool)
      requires c.cfg == cfg && (forall k :: k in listed ==> k in c.pods)
      modifies server`captures, server`made
      ensures Picked(ts, server.State(), full) == Pick(c, known, Picked(kept, old(server.State()), false), listed)
    {
      ts, full := kept, false;
      ghost var start := Picked(kept, server.State(), false);
      for i := 0 to |listed|
        invariant !full && Pick(c, known, start, listed[..i]) == Picked(ts, server.State(), false)
      {
        assert listed[..i + 1][..i] == listed[..i];
        if listed[i] in known {
          continue;
        }
        if |ts| >= MaxTargets(c.spec) {
          full := true;
          PickStops(c, known, start, listed, i + 1);
          return;
        }
        ts := PickPod(c, listed[i], ts, Picked(ts, server.State(), false));
      }
      assert listed[..|listed|] == listed;
    }

    /** The pods to capture: those of the server's listing the selectors pick, sorted, and
        no more than the limit. */
    method Targets(listing: seq<Key>) returns (keys: seq<Key>, truncated: bool)
      requires Enumerates(listing, server.pods.Keys)
      ensures keys == Listed(server.spec, server.pods) && (truncated <==> TooMany(server.spec, server.pods))
      ensures Chosen(server.spec, server.pods, keys, truncated)
    {
      ListedAreChosen(server.spec, server.pods);
      var picked := PickRunning(listing);
      keys := Sort(picked);
      ListsOnce(keys, Listing(Picks(server.spec, server.pods)), Picks(server.spec, server.pods));
      var limit := MaxTargets(server.spec);
      truncated := |keys| > limit;
      if truncated {
        keys := keys[..limit];
      }
    }

    method PickRunning(listing: seq<Key>) returns (picked: seq<Key>)
      requires Enumerates(listing, server.pods.Keys)
      ensures Enumerates(picked, Picks(server.spec, server.pods))
    {
      picked := [];
      for i := 0 to |listing|
        invariant forall k :: k in picked <==> k in listing[..i] && k in Picks(server.spec, server.pods)
        invariant forall x, y :: 0 <= x < y < |picked| ==> picked[x] != picked[y]
      {
        var key := listing[i];
        assert key in listing && key !in listing[..i];
        assert listing[..i + 1] == listing[..i] + [key];
        var pod := server.pods[key];
        if !pod.matches || (server.spec.podNames != {} && key.name !in server.spec.podNames) {
          continue;
        }
        if !pod.phase.PodRunning? || pod.deleting {
          continue;
        }
        picked := picked + [key];
      }
      assert listing[..|listing|] == listing;
    }

    method Sort(keys: seq<Key>) returns (sorted: seq<Key>)
      requires forall x, y :: 0 <= x < y < |keys| ==> keys[x] != keys[y]
      ensures InOrder(sorted) && forall k :: k in sorted <==> k in keys
    {
      sorted := [];
      for i := 0 to |keys|
        invariant InOrder(sorted) && forall k :: k in sorted <==> k in keys[..i]
      {
        assert keys[i] !in keys[..i];
        InsertOk(sorted, keys[i]);
        sorted := Insert(sorted, keys[i]);
        assert keys[..i + 1] == keys[..i] + [keys[i]];
      }
      assert keys[..|keys|] == keys;
    }

    method Counts(ts: seq<Target>) returns (pending: nat, capturing: nat, completed: nat, failed: nat)
      ensures pending == CountOf(ts, Pending) && capturing == CountOf(ts, Capturing)
      ensures completed == CountOf(ts, Completed) && failed == CountOf(ts, Failed)
    {
      pending, capturing, completed, failed := 0, 0, 0, 0;
      for i := 0 to |ts|
        invariant pending == CountOf(ts[..i], Pending) && capturing == CountOf(ts[..i], Capturing)
        invariant completed == CountOf(ts[..i], Completed) && failed == CountOf(ts[..i], Failed)
      {
        assert ts[..i + 1][..i] == ts[..i];
        match ts[i].phase {
          case Pending => pending := pending + 1;
          case Capturing => capturing := capturing + 1;
          case Completed => completed := completed + 1;
          case Failed => failed := failed + 1;
        }
      }
      assert ts[..|ts|] == ts;
    }

    /** The part of a pass that gets to the targets. */
    method Capture(sky: Weather, upload: string, listing: seq<Key>) returns (end: End)
      requires Enumerates(listing, server.pods.Keys) && server.made == {}
      modifies server`captures, server`made
      ensures var r := Loop(Ctx(cfg, server.spec, server.pods, sky, upload), old(server.Stored()));
        server.Stored() == r.world && server.made == r.created && end == r.end
    {
      var c := Ctx(cfg, server.spec, server.pods, sky, upload);
      var listed, truncated := Targets(listing);
      var ok, kept := KeepTargets(c, listed, server.status.targets);
      if !ok {
        return Error;
      }
      var known := set t | t in server.status.targets :: t.key;
      var ts, full := PickPods(c, known, listed, kept);
      var pending, capturing, completed, failed := Counts(ts);
      var status := Status(ts, |listed|, capturing, completed, failed, upload,
                           Condition(server.spec, truncated || full, |listed|));
      return Write(status, capturing > 0 || pending > 0);
    }

    /** The finalizer's whole job. */
    method StopAll(sky: Weather) returns (end: End)
      modifies server`captures, server`finalizer, server`gone
      ensures var r := CaptureModel.StopAll(cfg, old(server.Stored()), sky);
        server.Stored() == r.world && r.created == {} && end == r.end
    {
      if !server.finalizer {
        return Nothing;
      }
      if cfg.namespace != "" {
        if sky.listOwn {
          return Error;
        }
        var ok := StopListed(sky);
        if !ok {
          return Error;
        }
      }
      if sky.update {
        return Error;
      }
      server.finalizer := false;
      server.gone := true;
      return Nothing;
    }

    method StopListed(sky: Weather) returns (ok: bool)
      modifies server`captures
      ensures (ok, server.captures) == StopPods(sky, old(server.captures), sky.own)
    {
      ghost var start := server.captures;
      for i := 0 to |sky.own|
        invariant (true, server.captures) == StopPods(sky, start, sky.own[..i])
      {
        assert sky.own[..i + 1][..i] == sky.own[..i];
        if sky.own[i] in sky.delete {
          StopPodsFails(sky, start, sky.own, i + 1);
          return false;
        }
        if sky.own[i] in server.captures {
          server.DeletePod(sky.own[i]);
        }
      }
      assert sky.own[..|sky.own|] == sky.own;
      return true;
    }

    /** A whole pass, up to the status write. */
    method Reconcile(sky: Weather, listing: seq<Key>) returns (end: End)
      requires Enumerates(listing, server.pods.Keys)
      modifies server
      ensures var r := CaptureModel.Reconcile(cfg, old(server.Stored()), sky);
        server.Stored() == r.world && server.made == r.created && end == r.end
    {
      server.made := {};
      if server.gone {
        return Nothing;
      }
      if server.deleting {
        end := StopAll(sky);
        return;
      }
      if !server.finalizer {
        if sky.update {
          return Error;
        }
        server.finalizer := true;
      }
      var status := server.status;
      if cfg.namespace == "" {
        return Write(status.(ready := NoCaptureNamespace), false);
      }
      if sky.upload.None? {
        return Write(status.(ready := NoWebshark), false);
      }
      status := status.(upload := sky.upload.value);
      if sky.list {
        return Write(status.(ready := SelectorFailed), false);
      }
      end := Capture(sky, sky.upload.value, listing);
    }

    /** A pass from beginning to end. Its status is written only if it differs from the old. */
    method Run(sky: Weather, listing: seq<Key>, lands: bool)
      requires Enumerates(listing, server.pods.Keys)
      modifies server
      ensures server.Stored() == After(cfg, old(server.Stored()), sky, lands)
      ensures server.made == CaptureModel.Reconcile(cfg, old(server.Stored()), sky).created
    {
      var end := Reconcile(sky, listing);
      if end.Write? && end.status != server.status && lands {
        server.status := end.status;
      }
    }
  }

  /** The server lists each of its pods once, in whatever order. */
  ghost predicate Enumerates(listing: seq<Key>, keys: set<Key>) {
    && (forall k :: k in listing <==> k in keys)
    && forall x, y :: 0 <= x < y < |listing| ==> listing[x] != listing[y]
  }

  lemma {:induction false} StopPodsFails(sky: Weather, captures: Pods, names: seq<string>, n: nat)
    requires n <= |names| && !StopPods(sky, captures, names[..n]).0
    ensures StopPods(sky, captures, names) == StopPods(sky, captures, names[..n])
    decreases |names|
  {
    if n < |names| {
      assert names[..|names| - 1][..n] == names[..n];
      StopPodsFails(sky, captures, names[..|names| - 1], n);
    } else {
      assert names[..n] == names;
    }
  }

  lemma {:induction false} KeepFails(c: Ctx, listed: seq<Key>, api: Api, ts: seq<Target>, n: nat)
    requires n <= |ts| && !Keep(c, listed, api, ts[..n]).ok
    ensures Keep(c, listed, api, ts) == Keep(c, listed, api, ts[..n])
    decreases |ts|
  {
    if n < |ts| {
      assert ts[..|ts| - 1][..n] == ts[..n];
      KeepFails(c, listed, api, ts[..|ts| - 1], n);
    } else {
      assert ts[..n] == ts;
    }
  }

  lemma {:induction false} PickStops(c: Ctx, known: set<Key>, p: Picked, listed: seq<Key>, n: nat)
    requires n <= |listed| && (forall k :: k in listed ==> k in c.pods) && Pick(c, known, p, listed[..n]).full
    ensures Pick(c, known, p, listed) == Pick(c, known, p, listed[..n])
    decreases |listed|
  {
    if n < |listed| {
      assert listed[..|listed| - 1][..n] == listed[..n];
      PickStops(c, known, p, listed[..|listed| - 1], n);
    } else {
      assert listed[..n] == listed;
    }
  }
}
