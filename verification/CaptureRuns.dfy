/** Whole lives of a PacketCapture: passes whose status writes land or are lost, and
    anything at all happening to the pods and to the spec between them
    (operator/internal/controller/packetcapture_controller.go). */
module CaptureRuns {
  import opened Basics
  import opened CaptureOrder
  import opened CaptureModel
  import opened CaptureSafety
  import opened CapturePhases

  datatype Step = Pass(sky: Weather, lands: bool) | Elsewhere(next: World)

  /** What others may do: everything but write the status, or keep an object that is being
      deleted; and a pod once marked for deletion stays so while it is there. */
  ghost predicate ElsewhereOk(a: World, b: World) {
    && b.status == a.status && b.finalizer == a.finalizer && b.gone == a.gone
    && (a.deleting ==> b.deleting)
    && forall n :: n in a.captures && n in b.captures && a.captures[n].deleting ==> b.captures[n].deleting
  }

  ghost predicate Next(cfg: Config, a: World, step: Step, b: World) {
    match step
    case Pass(sky, lands) => b == After(cfg, a, sky, lands)
    case Elsewhere(next) => b == next && ElsewhereOk(a, b)
  }

  ghost predicate Run(cfg: Config, states: seq<World>, steps: seq<Step>) {
    && |states| == |steps| + 1 && states[0].status == Status([], 0, 0, 0, 0, "", Unset)
    && forall i :: 0 <= i < |steps| ==> Next(cfg, states[i], steps[i], states[i + 1])
  }

  lemma StepOk(cfg: Config, a: World, step: Step, b: World)
    requires Named(cfg) && StatusOk(cfg, a.status) && Next(cfg, a, step, b)
    ensures StatusOk(cfg, b.status) && Follows(a.status.targets, b.status.targets)
    ensures a.deleting ==> b.deleting
  {
    if step.Pass? {
      PassOk(cfg, a, step.sky);
    }
  }

  lemma {:induction false} RunOk(cfg: Config, states: seq<World>, steps: seq<Step>, i: nat)
    requires Named(cfg) && Run(cfg, states, steps) && i < |states|
    ensures StatusOk(cfg, states[i].status)
    decreases i
  {
    if i > 0 {
      RunOk(cfg, states, steps, i - 1);
      assert Next(cfg, states[i - 1], steps[i - 1], states[i - 1 + 1]);
      StepOk(cfg, states[i - 1], steps[i - 1], states[i]);
    }
  }

  lemma StepAt(cfg: Config, states: seq<World>, steps: seq<Step>, i: nat)
    requires Named(cfg) && Run(cfg, states, steps) && i < |steps|
    ensures StatusOk(cfg, states[i].status)
    ensures Follows(states[i].status.targets, states[i + 1].status.targets)
    ensures states[i].deleting ==> states[i + 1].deleting
    ensures Next(cfg, states[i], steps[i], states[i + 1])
  {
    RunOk(cfg, states, steps, i);
    assert Next(cfg, states[i], steps[i], states[i + 1]);
    StepOk(cfg, states[i], steps[i], states[i + 1]);
  }

  /** At every moment of every life: no pod is on the list twice, whatever is pending or
      capturing names the pod that captures it, and the four counts add up to the list. */
  lemma AlwaysConsistent(cfg: Config, states: seq<World>, steps: seq<Step>, i: nat)
    requires Named(cfg) && Run(cfg, states, steps) && i < |states|
    ensures var status := states[i].status;
      && NoRepeats(status.targets)
      && (forall j :: 0 <= j < |status.targets| && Live(status.targets[j]) ==>
            status.targets[j].capturer == cfg.nameOf(status.targets[j].key) != "")
      && CountOf(status.targets, Pending) + status.capturing + status.completed + status.failed == |status.targets|
  {
    RunOk(cfg, states, steps, i);
    CountsSum(states[i].status.targets);
    assert forall j :: 0 <= j < |states[i].status.targets| ==> TargetOk(cfg, states[i].status.targets[j]);
  }

  /** A target keeps its place on the list for ever, and once it is over stays as it is for
      ever, unless its message is the one by which a paused target is known. */
  lemma {:induction false} PlacesKept(cfg: Config, states: seq<World>, steps: seq<Step>, i: nat, j: nat)
    requires Named(cfg) && Run(cfg, states, steps) && i <= j < |states|
    ensures Follows(states[i].status.targets, states[j].status.targets)
    decreases j
  {
    if i < j {
      PlacesKept(cfg, states, steps, i, j - 1);
      StepAt(cfg, states, steps, j - 1);
      Onward(states[i].status.targets, states[j - 1].status.targets, states[j].status.targets);
    }
  }

  lemma Onward(a: seq<Target>, b: seq<Target>, c: seq<Target>)
    requires Follows(a, b) && Follows(b, c)
    ensures Follows(a, c)
  {
  }

  // -------------------------------------------------------------- the limit --

  /** The pods a capture pod was ever made for. */
  ghost function Ever(cfg: Config, states: seq<World>, steps: seq<Step>, n: nat): set<Key>
    requires |states| == |steps| + 1 && n <= |steps|
  {
    if n == 0 then {}
    else
      Ever(cfg, states, steps, n - 1)
      + (if steps[n - 1].Pass? then Reconcile(cfg, states[n - 1], steps[n - 1].sky).created else {})
  }

  ghost predicate Lands(steps: seq<Step>) {
    forall i :: 0 <= i < |steps| && steps[i].Pass? ==> steps[i].lands
  }

  ghost predicate NeverLowered(states: seq<World>) {
    forall i :: 0 <= i < |states| - 1 ==> MaxTargets(states[i].spec) <= MaxTargets(states[i + 1].spec)
  }

  lemma {:induction false} FollowsKeys(a: seq<Target>, b: seq<Target>)
    requires SameKeys(a, b)
    ensures KeysOf(a) <= KeysOf(b)
  {
    forall k | k in KeysOf(a) ensures k in KeysOf(b) {
      var i :| 0 <= i < |a| && a[i].key == k;
      assert b[i] in b;
    }
  }

  lemma {:induction false} KeysSize(ts: seq<Target>)
    ensures |KeysOf(ts)| <= |ts|
  {
    if ts != [] {
      var n := |ts| - 1;
      KeysSize(ts[..n]);
      assert ts == ts[..n] + [ts[n]];
      assert KeysOf(ts) == KeysOf(ts[..n]) + {ts[n].key};
    }
  }

  /** While no status write is lost and the limit is not lowered, no more pods are ever
      captured than the limit allows: new pods, resumes and passes that fail or end early
      notwithstanding. */
  lemma {:induction false} LifetimeLimit(cfg: Config, states: seq<World>, steps: seq<Step>, n: nat)
    requires Named(cfg) && Run(cfg, states, steps) && Lands(steps) && NeverLowered(states) && n <= |steps|
    ensures |states[n].status.targets| <= MaxTargets(states[n].spec)
    ensures Ever(cfg, states, steps, n) <= KeysOf(states[n].status.targets)
    ensures |Ever(cfg, states, steps, n)| <= MaxTargets(states[n].spec)
    decreases n
  {
    if n > 0 {
      LifetimeLimit(cfg, states, steps, n - 1);
      RunOk(cfg, states, steps, n - 1);
      assert Next(cfg, states[n - 1], steps[n - 1], states[n - 1 + 1]);
      assert MaxTargets(states[n - 1].spec) <= MaxTargets(states[n - 1 + 1].spec);
      LimitStep(cfg, states[n - 1], steps[n - 1], states[n]);
    }
    KeysSize(states[n].status.targets);
    SubsetSize(Ever(cfg, states, steps, n), KeysOf(states[n].status.targets));
  }

  lemma LimitStep(cfg: Config, a: World, step: Step, b: World)
    requires Named(cfg) && StatusOk(cfg, a.status) && Next(cfg, a, step, b) && (step.Pass? ==> step.lands)
    requires MaxTargets(a.spec) <= MaxTargets(b.spec) && |a.status.targets| <= MaxTargets(a.spec)
    ensures |b.status.targets| <= MaxTargets(b.spec) && KeysOf(a.status.targets) <= KeysOf(b.status.targets)
    ensures step.Pass? ==> Reconcile(cfg, a, step.sky).created <= KeysOf(b.status.targets)
  {
    StepOk(cfg, a, step, b);
    FollowsKeys(a.status.targets, b.status.targets);
    if step.Pass? {
      PassOk(cfg, a, step.sky);
    }
  }

  // --------------------------------------------------- pausing and deleting --

  ghost predicate There(states: seq<World>, i: nat, j: nat, name: string)
    requires i <= j < |states|
  {
    forall k :: i <= k <= j ==> name in states[k].captures
  }

  /** A target that is over, whose capture pod has been deleted but is still there. */
  predicate Waiting(cfg: Config, w: World, x: nat, t: Target) {
    var name := cfg.nameOf(t.key);
    && x < |w.status.targets| && w.status.targets[x] == t && !Live(t)
    && name in w.captures && w.captures[name].deleting
  }

  /** A paused target whose capture pod is on its way out waits, however many passes there
      are and however they end, until at some moment that pod is gone. */
  lemma {:induction false} WaitsUntilGone(cfg: Config, states: seq<World>, steps: seq<Step>, i: nat, j: nat,
                                          x: nat, t: Target)
    requires Named(cfg) && Run(cfg, states, steps) && i <= j < |states| && Waiting(cfg, states[i], x, t)
    requires There(states, i, j, cfg.nameOf(t.key))
    ensures Waiting(cfg, states[j], x, t)
    decreases j
  {
    if i < j {
      assert cfg.nameOf(t.key) in states[j].captures;
      WaitsUntilGone(cfg, states, steps, i, j - 1, x, t);
      WaitsNext(cfg, states, steps, j - 1, x, t);
    }
  }

  /** From the pass that pauses a capture on, its target waits, whatever passes and whatever
      others do, until at some moment its capture pod is gone: it is not restarted before. */
  lemma PausedWaits(cfg: Config, states: seq<World>, steps: seq<Step>, i: nat, j: nat, x: nat)
    requires Named(cfg) && Run(cfg, states, steps) && i < j < |states| && steps[i].Pass?
    requires x < |states[i].status.targets| && Live(states[i].status.targets[x])
    requires x < |states[i + 1].status.targets| && PausedNow(states[i + 1].status.targets[x])
    requires There(states, i + 1, j, cfg.nameOf(states[i].status.targets[x].key))
    ensures states[i].spec.paused && Waiting(cfg, states[j], x, states[i + 1].status.targets[x])
  {
    StepAt(cfg, states, steps, i);
    PausingPass(cfg, states[i], steps[i], states[i + 1], x);
    WaitsUntilGone(cfg, states, steps, i + 1, j, x, states[i + 1].status.targets[x]);
  }

  lemma PausingPass(cfg: Config, a: World, step: Step, b: World, x: nat)
    requires Named(cfg) && StatusOk(cfg, a.status) && step.Pass? && Next(cfg, a, step, b)
    requires x < |a.status.targets| && Live(a.status.targets[x])
    requires x < |b.status.targets| && PausedNow(b.status.targets[x])
    ensures a.spec.paused && b.status.targets[x].key == a.status.targets[x].key
    ensures Waiting(cfg, b, x, b.status.targets[x])
  {
    PassOk(cfg, a, step.sky);
    if step.lands {
      PassPauses(cfg, a, step.sky, x);
    }
  }

  /** So wherever a target that was paused is found otherwise, its capture pod was gone at
      some moment in between. */
  lemma RestartedOnceGone(cfg: Config, states: seq<World>, steps: seq<Step>, i: nat, j: nat, x: nat)
      returns (k: nat)
    requires Named(cfg) && Run(cfg, states, steps) && i < j < |states| && steps[i].Pass?
    requires x < |states[i].status.targets| && Live(states[i].status.targets[x])
    requires x < |states[i + 1].status.targets| && PausedNow(states[i + 1].status.targets[x])
    requires x < |states[j].status.targets| && states[j].status.targets[x] != states[i + 1].status.targets[x]
    ensures i < k <= j && cfg.nameOf(states[i].status.targets[x].key) !in states[k].captures
  {
    var name := cfg.nameOf(states[i].status.targets[x].key);
    if There(states, i + 1, j, name) {
      PausedWaits(cfg, states, steps, i, j, x);
      assert false;
    }
    k :| i + 1 <= k <= j && name !in states[k].captures;
  }

  lemma WaitsNext(cfg: Config, states: seq<World>, steps: seq<Step>, i: nat, x: nat, t: Target)
    requires Named(cfg) && Run(cfg, states, steps) && i < |steps| && Waiting(cfg, states[i], x, t)
    requires cfg.nameOf(t.key) in states[i + 1].captures
    ensures Waiting(cfg, states[i + 1], x, t)
  {
    StepAt(cfg, states, steps, i);
    StepWaits(cfg, states[i], steps[i], states[i + 1], x, t);
  }

  lemma StepWaits(cfg: Config, a: World, step: Step, b: World, x: nat, t: Target)
    requires Named(cfg) && StatusOk(cfg, a.status) && Next(cfg, a, step, b)
    requires Waiting(cfg, a, x, t) && cfg.nameOf(t.key) in b.captures
    ensures Waiting(cfg, b, x, t)
  {
    if step.Pass? {
      PassWaits(cfg, a, step.sky, step.lands, x);
    }
  }

  lemma {:induction false} DeletingStays(cfg: Config, states: seq<World>, steps: seq<Step>, i: nat, j: nat)
    requires Named(cfg) && Run(cfg, states, steps) && i <= j < |states| && states[i].deleting
    ensures states[j].deleting
    decreases j
  {
    if i < j {
      DeletingStays(cfg, states, steps, i, j - 1);
      StepAt(cfg, states, steps, j - 1);
    }
  }

  /** Once the object is being deleted, no pass ever makes a capture pod again. */
  lemma NothingAfterDelete(cfg: Config, states: seq<World>, steps: seq<Step>, i: nat, j: nat)
    requires Named(cfg) && Run(cfg, states, steps) && i <= j < |steps| && states[i].deleting && steps[j].Pass?
    ensures Reconcile(cfg, states[j], steps[j].sky).created == {}
  {
    DeletingStays(cfg, states, steps, i, j);
    RunOk(cfg, states, steps, j);
    PassOk(cfg, states[j], steps[j].sky);
  }
}
