/** What a history of binding messages means: two keys share a class exactly when
    overlapping messages connect them. */
module ImsClosure {
  import opened ImsSets
  import opened ImsBinding

  /** The binding after a history of messages, each about a single subscriber. */
  function Bind(messages: seq<Ids>): Binding {
    if messages == [] then map[]
    else Unite(Bind(messages[..|messages| - 1]), messages[|messages| - 1])
  }

  ghost predicate AllCovered(messages: seq<Ids>) {
    forall m :: m in messages ==> Covered(m)
  }

  /** One message spells both keys. */
  ghost predicate Together(messages: seq<Ids>, a: Key, c: Key) {
    exists m :: m in messages && a in m.all && c in m.all
  }

  ghost predicate Path(messages: seq<Ids>, p: seq<Key>) {
    && |p| > 0
    && Together(messages, p[0], p[0])
    && forall i :: 0 <= i < |p| - 1 ==> Together(messages, p[i], p[i + 1])
  }

  /** A chain of overlapping messages leads from one key to the other. */
  ghost predicate Connected(messages: seq<Ids>, a: Key, c: Key) {
    exists p :: Path(messages, p) && p[0] == a && p[|p| - 1] == c
  }

  lemma ConnectedStep(messages: seq<Ids>, a: Key, c: Key)
    requires Together(messages, a, c)
    ensures Connected(messages, a, c)
  {
    var p := [a, c];
    assert Path(messages, p);
  }

  lemma ConnectedTrans(messages: seq<Ids>, a: Key, c: Key, d: Key)
    requires Connected(messages, a, c) && Connected(messages, c, d)
    ensures Connected(messages, a, d)
  {
    var p :| Path(messages, p) && p[0] == a && p[|p| - 1] == c;
    var q :| Path(messages, q) && q[0] == c && q[|q| - 1] == d;
    var w := p + q[1..];
    forall i | 0 <= i < |w| - 1 ensures Together(messages, w[i], w[i + 1]) {
      if i >= |p| - 1 {
        assert w[i] == q[i - |p| + 1];
        assert w[i + 1] == q[i - |p| + 2];
      }
    }
    assert Path(messages, w);
    assert w[|w| - 1] == d;
  }

  lemma {:induction false} ReversePath(messages: seq<Ids>, p: seq<Key>)
    requires Path(messages, p)
    ensures Connected(messages, p[|p| - 1], p[0])
    decreases |p|
  {
    var n := |p| - 1;
    if n == 0 {
      ConnectedStep(messages, p[0], p[0]);
    } else {
      ReversePath(messages, p[..n]);
      assert Together(messages, p[n - 1], p[n - 1 + 1]);
      ConnectedStep(messages, p[n], p[n - 1]);
      ConnectedTrans(messages, p[n], p[n - 1], p[0]);
    }
  }

  /** Connection is an equivalence on the keys that were spelled at all. */
  lemma ConnectedEquivalence(messages: seq<Ids>)
    ensures forall a, c :: Together(messages, a, c) ==> Connected(messages, a, c)
    ensures forall a, c :: Connected(messages, a, c) ==> Connected(messages, c, a)
    ensures forall a, c, d :: Connected(messages, a, c) && Connected(messages, c, d) ==> Connected(messages, a, d)
  {
    forall a, c | Together(messages, a, c) ensures Connected(messages, a, c) {
      ConnectedStep(messages, a, c);
    }
    forall a, c | Connected(messages, a, c) ensures Connected(messages, c, a) {
      var p :| Path(messages, p) && p[0] == a && p[|p| - 1] == c;
      ReversePath(messages, p);
    }
    forall a, c, d | Connected(messages, a, c) && Connected(messages, c, d) ensures Connected(messages, a, d) {
      ConnectedTrans(messages, a, c, d);
    }
  }

  /** ...and the least one that puts the keys of each message together. */
  lemma {:induction false} ConnectedLeast(messages: seq<Ids>, related: (Key, Key) -> bool, p: seq<Key>)
    requires forall a, c :: Together(messages, a, c) ==> related(a, c)
    requires forall a, c, d :: related(a, c) && related(c, d) ==> related(a, d)
    requires Path(messages, p)
    ensures related(p[0], p[|p| - 1])
    decreases |p|
  {
    var n := |p| - 1;
    if n > 0 {
      ConnectedLeast(messages, related, p[..n]);
      assert Together(messages, p[n - 1], p[n - 1 + 1]);
    }
  }

  // ------------------------------------------------------- one more message --

  /** `k` is spelled by `m`, or connected to a key that is. */
  ghost predicate Near(messages: seq<Ids>, m: Ids, k: Key) {
    k in m.all || exists j :: j in m.all && Connected(messages, j, k)
  }

  lemma TogetherSnoc(messages: seq<Ids>, m: Ids, a: Key, c: Key)
    ensures Together(messages + [m], a, c) <==> Together(messages, a, c) || (a in m.all && c in m.all)
  {
    assert m in messages + [m];
    assert forall x :: x in messages ==> x in messages + [m];
  }

  lemma {:induction false} PathSnoc(messages: seq<Ids>, m: Ids, p: seq<Key>)
    requires Path(messages + [m], p)
    ensures Connected(messages, p[0], p[|p| - 1])
         || (Near(messages, m, p[0]) && Near(messages, m, p[|p| - 1]))
    decreases |p|
  {
    ConnectedEquivalence(messages);
    var n := |p| - 1;
    if n == 0 {
      TogetherSnoc(messages, m, p[0], p[0]);
    } else {
      PathSnoc(messages, m, p[..n]);
      var x, k := p[n - 1], p[n];
      assert Together(messages + [m], p[n - 1], p[n - 1 + 1]);
      TogetherSnoc(messages, m, x, k);
      if Together(messages, x, k) {
        if Near(messages, m, x) && x !in m.all {
          var j :| j in m.all && Connected(messages, j, x);
          assert Connected(messages, j, k);
        }
      }
    }
  }

  lemma {:induction false} PathWeaken(messages: seq<Ids>, m: Ids, a: Key, c: Key)
    requires Connected(messages, a, c)
    ensures Connected(messages + [m], a, c)
  {
    var p :| Path(messages, p) && p[0] == a && p[|p| - 1] == c;
    forall x, y | Together(messages, x, y) ensures Together(messages + [m], x, y) {
      TogetherSnoc(messages, m, x, y);
    }
    assert Path(messages + [m], p);
  }

  lemma ConnectedSnoc(messages: seq<Ids>, m: Ids, a: Key, c: Key)
    ensures Connected(messages + [m], a, c) <==>
      Connected(messages, a, c) || (Near(messages, m, a) && Near(messages, m, c))
  {
    var all := messages + [m];
    if Connected(all, a, c) {
      var p :| Path(all, p) && p[0] == a && p[|p| - 1] == c;
      PathSnoc(messages, m, p);
    }
    if Connected(messages, a, c) {
      PathWeaken(messages, m, a, c);
    } else if Near(messages, m, a) && Near(messages, m, c) {
      ConnectedEquivalence(all);
      var i := NearKey(messages, m, a);
      var j := NearKey(messages, m, c);
      TogetherSnoc(messages, m, i, j);
    }
  }

  /** The key of `m` through which `k` is near it. */
  lemma NearKey(messages: seq<Ids>, m: Ids, k: Key) returns (j: Key)
    requires Near(messages, m, k)
    ensures j in m.all && Connected(messages + [m], j, k)
  {
    if k in m.all {
      j := k;
      TogetherSnoc(messages, m, k, k);
      ConnectedStep(messages + [m], k, k);
    } else {
      j :| j in m.all && Connected(messages, j, k);
      PathWeaken(messages, m, j, k);
    }
  }

  // ------------------------------------------------------------ the theorem --

  ghost predicate Spelled(messages: seq<Ids>, k: Key, r: Role) {
    exists m :: m in messages && m.Has(k, r)
  }

  /** Two keys share a class exactly when the messages connect them. */
  ghost predicate ClosureOf(b: Binding, messages: seq<Ids>) {
    Partition(b) && SharesOf(b, messages) && RolesOf(b, messages)
  }

  ghost predicate SharesOf(b: Binding, messages: seq<Ids>) {
    forall a, k :: (a in b && k in b[a].all) <==> Connected(messages, a, k)
  }

  /** A class holds exactly the (key, role) pairs of its component. */
  ghost predicate RolesOf(b: Binding, messages: seq<Ids>) {
    forall a :: a in b ==> RolesAt(b, messages, a)
  }

  ghost predicate RolesAt(b: Binding, messages: seq<Ids>, a: Key)
    requires a in b
  {
    forall k, r :: b[a].Has(k, r) <==> Connected(messages, a, k) && Spelled(messages, k, r)
  }

  lemma {:induction false} BindIsClosure(messages: seq<Ids>)
    requires AllCovered(messages)
    ensures ClosureOf(Bind(messages), messages)
    decreases |messages|
  {
    if messages == [] {
      forall a, k ensures !Connected(messages, a, k) {
        assert forall p :: !Path(messages, p);
      }
    } else {
      var n := |messages| - 1;
      var before, m := messages[..n], messages[n];
      assert messages == before + [m];
      BindIsClosure(before);
      UniteClosure(Bind(before), before, m);
    }
  }

  lemma UniteClosure(b: Binding, before: seq<Ids>, m: Ids)
    requires AllCovered(before) && Covered(m) && ClosureOf(b, before)
    ensures ClosureOf(Unite(b, m), before + [m])
  {
    UniteKeepsPartition(b, m);
    UniteSharesAll(b, before, m);
    UniteRolesAll(b, before, m);
  }

  lemma UniteSharesAll(b: Binding, before: seq<Ids>, m: Ids)
    requires Covered(m) && ClosureOf(b, before)
    ensures SharesOf(Unite(b, m), before + [m])
  {
    var u, after := Unite(b, m), before + [m];
    forall a, k ensures (a in u && k in u[a].all) <==> Connected(after, a, k) {
      UniteShares(b, before, m, a, k);
    }
  }

  lemma UniteRolesAll(b: Binding, before: seq<Ids>, m: Ids)
    requires AllCovered(before) && Covered(m) && ClosureOf(b, before)
    ensures RolesOf(Unite(b, m), before + [m])
  {
    forall a | a in Unite(b, m) ensures RolesAt(Unite(b, m), before + [m], a) {
      forall k, r {
        UniteRoles(b, before, m, a, k, r);
      }
    }
  }

  lemma TargetNear(b: Binding, before: seq<Ids>, m: Ids, k: Key)
    requires Covered(m) && ClosureOf(b, before)
    ensures k in Target(b, m).all <==> Near(before, m, k)
  {
    TargetHas(b, m);
    if Touches(b, m.all, k) {
      var j :| j in m.all && j in b && k in b[j].all;
      assert Connected(before, j, k);
    }
    if Near(before, m, k) && k !in m.all {
      var j :| j in m.all && Connected(before, j, k);
      assert j in b && k in b[j].all;
      assert Touches(b, m.all, k);
    }
  }

  lemma UniteShares(b: Binding, before: seq<Ids>, m: Ids, a: Key, k: Key)
    requires Covered(m) && ClosureOf(b, before)
    ensures (a in Unite(b, m) && k in Unite(b, m)[a].all) <==> Connected(before + [m], a, k)
  {
    var t, u := Target(b, m), Unite(b, m);
    TargetNear(b, before, m, a);
    TargetNear(b, before, m, k);
    ConnectedSnoc(before, m, a, k);
    assert (a in b && k in b[a].all) <==> Connected(before, a, k);
    if a in t.all && Connected(before, a, k) {
      NearClosed(before, m, a, k);
    }
    if a !in t.all {
      assert a in u <==> a in b;
    }
  }

  lemma NearClosed(before: seq<Ids>, m: Ids, a: Key, k: Key)
    requires Near(before, m, a) && Connected(before, a, k)
    ensures Near(before, m, k)
  {
    if a in m.all {
    } else {
      var j :| j in m.all && Connected(before, j, a);
      ConnectedTrans(before, j, a, k);
    }
  }

  lemma UniteRoles(b: Binding, before: seq<Ids>, m: Ids, a: Key, k: Key, r: Role)
    requires AllCovered(before) && Covered(m) && ClosureOf(b, before)
    requires a in Unite(b, m)
    ensures Unite(b, m)[a].Has(k, r) <==> Connected(before + [m], a, k) && Spelled(before + [m], k, r)
  {
    var t, u := Target(b, m), Unite(b, m);
    TargetHas(b, m);
    UniteKeepsPartition(b, m);
    UniteShares(b, before, m, a, k);
    assert u[a].Has(k, r) ==> k in u[a].all;
    assert Spelled(before + [m], k, r) <==> Spelled(before, k, r) || m.Has(k, r) by {
      assert m in before + [m];
      assert forall x :: x in before ==> x in before + [m];
    }
    if k in u[a].all {
      if a in t.all {
        SpelledInClass(b, before, k, r);
      } else {
        assert u[a] == b[a];
        assert k !in t.all;
        assert m.Has(k, r) ==> k in m.all;
      }
    }
  }

  lemma SpelledInClass(b: Binding, before: seq<Ids>, k: Key, r: Role)
    requires AllCovered(before) && ClosureOf(b, before)
    ensures Spelled(before, k, r) <==> k in b && b[k].Has(k, r)
  {
    if Spelled(before, k, r) {
      var m :| m in before && m.Has(k, r);
      assert k in m.all;
      assert Together(before, k, k);
      ConnectedStep(before, k, k);
    }
  }

  /** The same messages in any order, and any number of times over, leave the same
      classes. */
  lemma BindIgnoresOrder(messages: seq<Ids>, others: seq<Ids>)
    requires AllCovered(messages) && (forall m :: m in messages <==> m in others)
    ensures Bind(messages).Keys == Bind(others).Keys
    ensures forall a, k, r :: a in Bind(messages) ==>
      (Bind(messages)[a].Has(k, r) <==> Bind(others)[a].Has(k, r))
    ensures forall a, k :: a in Bind(messages) ==>
      (k in Bind(messages)[a].all <==> k in Bind(others)[a].all)
  {
    forall a, c ensures Connected(messages, a, c) <==> Connected(others, a, c) {
      if Connected(messages, a, c) { ConnectedSame(messages, others, a, c); }
      if Connected(others, a, c) { ConnectedSame(others, messages, a, c); }
    }
    forall k, r ensures Spelled(messages, k, r) <==> Spelled(others, k, r) {}
    BindIsClosure(messages);
    BindIsClosure(others);
    var b, d := Bind(messages), Bind(others);
    forall a ensures a in b <==> a in d {
      assert a in b <==> Connected(messages, a, a);
      assert a in d <==> Connected(others, a, a);
    }
    forall a, k, r | a in b ensures b[a].Has(k, r) <==> d[a].Has(k, r) {
      assert b[a].Has(k, r) <==> Connected(messages, a, k) && Spelled(messages, k, r);
    }
    forall a, k | a in b ensures k in b[a].all <==> k in d[a].all {
      assert (a in b && k in b[a].all) <==> Connected(messages, a, k);
      assert (a in d && k in d[a].all) <==> Connected(others, a, k);
    }
  }

  lemma ConnectedSame(messages: seq<Ids>, others: seq<Ids>, a: Key, c: Key)
    requires forall m :: m in messages ==> m in others
    requires Connected(messages, a, c)
    ensures Connected(others, a, c)
  {
    var p :| Path(messages, p) && p[0] == a && p[|p| - 1] == c;
    forall x, y | Together(messages, x, y) ensures Together(others, x, y) {}
    assert Path(others, p);
  }
}
