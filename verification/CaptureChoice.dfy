/** Which pods a pass may capture, and in what order
    (operator/internal/controller/packetcapture_controller.go). */
module CaptureChoice {
  import opened CaptureOrder
  import opened CaptureModel

  /** A pod worth capturing: picked by the selectors and by name, if names are given, one that
      runs, and not on its way out. */
  predicate Wanted(spec: Spec, pods: map<Key, TargetPod>, key: Key) {
    && key in pods && pods[key].matches && pods[key].phase.PodRunning? && !pods[key].deleting
    && (spec.podNames == {} || key.name in spec.podNames)
  }

  function Limit(spec: Spec): nat {
    if spec.maxTargets <= 0 then 10 else spec.maxTargets
  }

  /** First by namespace and then by name. */
  ghost predicate Before(a: Key, b: Key) {
    if a.namespace == b.namespace then Sooner(a.name, b.name) else Sooner(a.namespace, b.namespace)
  }

  /** In the order of bytes: at the first place where they differ, or by being shorter. */
  ghost predicate Sooner(a: string, b: string) {
    exists n :: 0 <= n <= |a| && n < |b| && a[..n] == b[..n] && (n == |a| || a[n] < b[n])
  }

  lemma {:induction false} TextLessIsSooner(a: string, b: string)
    ensures TextLess(a, b) <==> Sooner(a, b)
  {
    if a != "" && b != "" && a[0] == b[0] {
      TextLessIsSooner(a[1..], b[1..]);
      if Sooner(a[1..], b[1..]) {
        var n :| 0 <= n <= |a[1..]| && n < |b[1..]| && a[1..][..n] == b[1..][..n]
          && (n == |a[1..]| || a[1..][n] < b[1..][n]);
        assert a[..n + 1] == [a[0]] + a[1..][..n] && b[..n + 1] == [b[0]] + b[1..][..n];
      }
      if Sooner(a, b) {
        var n :| 0 <= n <= |a| && n < |b| && a[..n] == b[..n] && (n == |a| || a[n] < b[n]);
        SameStart(a, b, n);
      }
    } else if b != "" && (a == "" || a[0] < b[0]) {
      assert a[..0] == b[..0];
    } else if Sooner(a, b) {
      SoonerFirst(a, b);
    }
  }

  lemma SoonerFirst(a: string, b: string)
    requires Sooner(a, b)
    ensures b != "" && (a == "" || a[0] <= b[0])
  {
    var n :| 0 <= n <= |a| && n < |b| && a[..n] == b[..n] && (n == |a| || a[n] < b[n]);
    assert n > 0 ==> a[..n][0] == a[0] && b[..n][0] == b[0];
  }

  lemma SameStart(a: string, b: string, n: nat)
    requires a != "" && b != "" && a[0] == b[0] && n <= |a| && n < |b| && a[..n] == b[..n] && (n == |a| || a[n] < b[n])
    ensures Sooner(a[1..], b[1..])
  {
    assert n > 0;
    assert a[1..][..n - 1] == a[..n][1..] == b[..n][1..] == b[1..][..n - 1];
  }

  lemma LessIsBefore(a: Key, b: Key)
    ensures Less(a, b) <==> Before(a, b)
  {
    TextLessIsSooner(a.name, b.name);
    TextLessIsSooner(a.namespace, b.namespace);
  }

  /** Some of the keys that are wanted, in order: no more than the limit, and if not all of
      them then as many as that, those left out coming after. */
  ghost predicate Chosen(spec: Spec, pods: map<Key, TargetPod>, keys: seq<Key>, more: bool) {
    && (forall k :: k in keys ==> Wanted(spec, pods, k))
    && (forall i, j :: 0 <= i < j < |keys| ==> Before(keys[i], keys[j]))
    && |keys| <= Limit(spec) && (more ==> |keys| == Limit(spec))
    && (forall k :: Wanted(spec, pods, k) && k !in keys ==> more && forall x :: x in keys ==> Before(x, k))
    && (more ==> exists k :: Wanted(spec, pods, k) && k !in keys)
  }

  /** So are the pods a pass may capture. */
  lemma ListedAreChosen(spec: Spec, pods: map<Key, TargetPod>)
    ensures Chosen(spec, pods, Listed(spec, pods), TooMany(spec, pods))
  {
    var all, limit := Listing(Picks(spec, pods)), MaxTargets(spec);
    forall i, j | 0 <= i < j < |all| ensures Before(all[i], all[j]) && all[i] != all[j] {
      LessIsBefore(all[i], all[j]);
      KeyOrder(all[i], all[j]);
    }
    assert forall k :: k in all <==> Wanted(spec, pods, k);
    FirstSome(spec, pods, all, limit);
  }

  lemma FirstSome(spec: Spec, pods: map<Key, TargetPod>, all: seq<Key>, limit: nat)
    requires limit == Limit(spec) && forall k :: k in all <==> Wanted(spec, pods, k)
    requires forall i, j :: 0 <= i < j < |all| ==> Before(all[i], all[j]) && all[i] != all[j]
    ensures Chosen(spec, pods, if |all| > limit then all[..limit] else all, |all| > limit)
  {
    var keys := if |all| > limit then all[..limit] else all;
    forall k | k in all && k !in keys ensures |all| > limit && forall x :: x in keys ==> Before(x, k) {
      var j :| 0 <= j < |all| && all[j] == k;
      assert j >= |keys|;
    }
    if |all| > limit {
      assert all[limit] in all && all[limit] !in keys;
    }
  }
}
