/** What one pass through the pool's lock may do to the sessions it holds
    (src/sharkd.go), told apart from who is waiting for it. */
module PoolRules {

  /** What a session is opened for: one capture or several, and never the empty string. */
  type Ref = string

  /** Evictions one after another, each made while the pool was full and each of a
      session used no later than any other still held. Which of several equally old
      ones goes, the order of a map decides. */
  ghost predicate Evicting(used: map<Ref, int>, max: nat, victims: seq<Ref>) {
    forall i :: 0 <= i < |victims| ==> EvictedAt(used, max, victims, i)
  }

  ghost predicate EvictedAt(used: map<Ref, int>, max: nat, victims: seq<Ref>, i: nat)
    requires i < |victims|
  {
    && |used| - i >= max
    && victims[i] in used && victims[i] !in victims[..i]
    && (forall r :: r in used && r !in victims[..i] ==> used[victims[i]] <= used[r])
  }

  /** The evictions that make room for one more session. */
  ghost predicate Evicts(used: map<Ref, int>, max: nat, victims: seq<Ref>) {
    Evicting(used, max, victims) && |used| - |victims| < max
  }

  function Names(victims: seq<Ref>): set<Ref> {
    set r | r in victims
  }

  lemma EvictsSnoc(used: map<Ref, int>, max: nat, victims: seq<Ref>, last: Ref)
    requires Evicting(used, max, victims) && |used| - |victims| >= max
    requires last in used && last !in victims
    requires forall r :: r in used && r !in victims ==> used[last] <= used[r]
    ensures Evicting(used, max, victims + [last])
  {
    var all := victims + [last];
    forall i | 0 <= i < |all| ensures EvictedAt(used, max, all, i) {
      if i < |victims| {
        assert EvictedAt(used, max, victims, i);
        assert all[..i] == victims[..i];
      } else {
        assert all[..i] == victims;
      }
    }
  }

  lemma {:induction false} NamesSize(used: map<Ref, int>, max: nat, victims: seq<Ref>)
    requires Evicting(used, max, victims)
    ensures Names(victims) <= used.Keys && |Names(victims)| == |victims|
    decreases |victims|
  {
    if victims != [] {
      var n := |victims| - 1;
      forall i | 0 <= i < n ensures EvictedAt(used, max, victims[..n], i) {
        assert EvictedAt(used, max, victims, i);
        assert victims[..n][..i] == victims[..i];
      }
      NamesSize(used, max, victims[..n]);
      assert EvictedAt(used, max, victims, n);
      assert Names(victims) == Names(victims[..n]) + {victims[n]};
    }
  }

  /** No session goes twice, as many go as leave room for one more and no more than
      that, and whatever goes was used no later than whatever stays. */
  lemma EvictsMakesRoom(used: map<Ref, int>, max: nat, victims: seq<Ref>)
    requires max >= 1 && Evicts(used, max, victims)
    ensures |Names(victims)| == |victims| && Names(victims) <= used.Keys
    ensures |used - Names(victims)| == if |used| < max then |used| else max - 1
    ensures forall v, r :: v in victims && r in used && r !in victims ==> v in used && used[v] <= used[r]
  {
    NamesSize(used, max, victims);
    var rest := used - Names(victims);
    assert rest.Keys == used.Keys - Names(victims);
    assert |rest| == |rest.Keys| && |used| == |used.Keys|;
    if victims != [] {
      assert EvictedAt(used, max, victims, |victims| - 1);
    }
    forall v, r | v in victims && r in used && r !in victims ensures v in used && used[v] <= used[r] {
      var i :| 0 <= i < |victims| && victims[i] == v;
      assert EvictedAt(used, max, victims, i);
    }
  }

  /** The sessions the reaper takes: those last used before the cutoff. */
  function Idle(used: map<Ref, int>, cutoff: int): set<Ref> {
    set r | r in used && used[r] < cutoff
  }
}
