/** The classes of plugins/ims.lua: one per subscriber, grown by the messages that
    are about a single subscriber. A binding is the value of `class_of`: every key
    with the contents of the class it leads to. */
module ImsBinding {
  import opened Options
  import opened ImsSets

  type Binding = map<Key, Ids>

  /** Every class is reached from exactly the keys it holds. */
  ghost predicate Partition(b: Binding) {
    forall k :: k in b ==>
      && Covered(b[k])
      && k in b[k].all
      && forall j :: j in b[k].all ==> j in b && b[j] == b[k]
  }

  /** The class that absorbs the others, after the key of one more identity. */
  function Absorb(b: Binding, key: Key, target: Option<Ids>): Option<Ids> {
    if key !in b then target
    else if target.None? then Some(b[key])
    else if key in target.value.all then target
    else Some(AddAll(target.value, b[key]))
  }

  function Gather(b: Binding, keys: seq<Key>, target: Option<Ids>): Option<Ids>
    decreases |keys|
  {
    if keys == [] then target else Gather(b, keys[1..], Absorb(b, keys[0], target))
  }

  function Found(b: Binding, observed: Ids): Option<Ids> {
    Gather(b, observed.impu, Gather(b, observed.impi, None))
  }

  function OrNew(found: Option<Ids>): Ids {
    if found.Some? then found.value else NoIds
  }

  /** The one class the identities of a binding message end up in. */
  function Target(b: Binding, observed: Ids): Ids {
    AddAll(OrNew(Found(b, observed)), observed)
  }

  function KeySet(keys: seq<Key>): set<Key> {
    set k | k in keys
  }

  function Repoint(b: Binding, target: Ids): Binding {
    map k | k in b.Keys + KeySet(target.all) :: if k in target.all then target else b[k]
  }

  function Unite(b: Binding, observed: Ids): Binding {
    Repoint(b, Target(b, observed))
  }

  // ------------------------------------------------- what one message does --

  /** `k` is in the class of one of `keys`. */
  ghost predicate Touches(b: Binding, keys: seq<Key>, k: Key) {
    exists j :: j in keys && j in b && k in b[j].all
  }

  /** A union of classes of `b`: closed under them, and holding of each key exactly
      the roles its own class gives it. */
  ghost predicate UnionOf(b: Binding, t: Ids) {
    && Covered(t)
    && (forall j :: j in t.all ==> j in b && forall k :: k in b[j].all ==> k in t.all)
    && (forall k, r :: t.Has(k, r) <==> k in t.all && k in b && b[k].Has(k, r))
  }

  lemma AbsorbUnion(b: Binding, key: Key, target: Option<Ids>)
    requires Partition(b) && (target.Some? ==> UnionOf(b, target.value))
    ensures var t := Absorb(b, key, target);
      && (t.Some? <==> target.Some? || key in b)
      && (t.Some? ==> UnionOf(b, t.value))
      && (t.Some? ==> forall k :: k in t.value.all <==>
            (target.Some? && k in target.value.all) || (key in b && k in b[key].all))
  {
    if key in b && target.Some? && key !in target.value.all {
      var s, c := target.value, b[key];
      var t := AddAll(s, c);
      AddAllHas(s, c);
      forall k, r ensures t.Has(k, r) <==> k in t.all && k in b && b[k].Has(k, r) {
        assert t.Has(k, r) <==> s.Has(k, r) || c.Has(k, r);
        assert c.Has(k, r) ==> k in c.all;
        assert s.Has(k, r) ==> k in s.all;
        if k in t.all && k in b && b[k].Has(k, r) {
          assert k in s.all || k in c.all;
        }
      }
    } else if key in b && target.None? {
      var c := b[key];
      forall k, r ensures c.Has(k, r) <==> k in c.all && k in b && b[k].Has(k, r) {
        assert c.Has(k, r) ==> k in c.all;
      }
    }
  }

  lemma {:induction false} GatherUnion(b: Binding, keys: seq<Key>, target: Option<Ids>)
    requires Partition(b) && (target.Some? ==> UnionOf(b, target.value))
    ensures var t := Gather(b, keys, target);
      && (t.Some? <==> target.Some? || exists j :: j in keys && j in b)
      && (t.Some? ==> UnionOf(b, t.value))
      && (t.Some? ==> forall k :: k in t.value.all <==>
            (target.Some? && k in target.value.all) || Touches(b, keys, k))
    decreases |keys|
  {
    if keys != [] {
      var next := Absorb(b, keys[0], target);
      AbsorbUnion(b, keys[0], target);
      GatherUnion(b, keys[1..], next);
      assert forall j :: j in keys <==> j == keys[0] || j in keys[1..];
      var t := Gather(b, keys, target);
      if t.Some? {
        forall k ensures k in t.value.all <==>
            (target.Some? && k in target.value.all) || Touches(b, keys, k) {
          if Touches(b, keys[1..], k) {
            assert Touches(b, keys, k);
          }
          if Touches(b, keys, k) && !Touches(b, keys[1..], k) {
            assert keys[0] in b && k in b[keys[0]].all;
          }
        }
      }
    }
  }

  /** The class a message leaves behind: what it spells, with the classes it reaches,
      and no other identity. */
  lemma TargetHas(b: Binding, observed: Ids)
    requires Partition(b) && Covered(observed)
    ensures var t := Target(b, observed);
      && Covered(t)
      && (forall k :: k in t.all <==> k in observed.all || Touches(b, observed.all, k))
      && (forall k, r :: t.Has(k, r) <==>
            observed.Has(k, r) || (Touches(b, observed.all, k) && k in b && b[k].Has(k, r)))
  {
    var first := Gather(b, observed.impi, None);
    GatherUnion(b, observed.impi, None);
    GatherUnion(b, observed.impu, first);
    var found := Found(b, observed);
    var s := OrNew(found);
    AddAllHas(s, observed);
    forall k ensures k in s.all <==> Touches(b, observed.all, k) {
      if Touches(b, observed.all, k) {
        var j :| j in observed.all && j in b && k in b[j].all;
        if j in observed.impi {
          assert Touches(b, observed.impi, k);
        } else {
          assert Touches(b, observed.impu, k);
        }
      }
      if Touches(b, observed.impi, k) || Touches(b, observed.impu, k) {
        assert Touches(b, observed.all, k);
      }
    }
    var t := Target(b, observed);
    forall k, r ensures t.Has(k, r) <==>
        observed.Has(k, r) || (Touches(b, observed.all, k) && k in b && b[k].Has(k, r)) {
      assert t.Has(k, r) <==> s.Has(k, r) || observed.Has(k, r);
    }
  }

  lemma UniteKeepsPartition(b: Binding, observed: Ids)
    requires Partition(b) && Covered(observed)
    ensures Partition(Unite(b, observed))
    ensures forall k :: k in observed.all ==> k in Unite(b, observed)
    ensures Unite(b, observed).Keys == b.Keys + KeySet(observed.all)
  {
    TargetHas(b, observed);
    var t, u := Target(b, observed), Unite(b, observed);
    forall j, k | j in t.all && j in b && k in b[j].all ensures k in t.all {
      if j in observed.all {
        assert Touches(b, observed.all, k);
      } else {
        var i :| i in observed.all && i in b && j in b[i].all;
        assert b[i] == b[j];
        assert Touches(b, observed.all, k);
      }
    }
    forall k | k in b && k !in t.all ensures forall j :: j in b[k].all ==> j !in t.all {
      assert forall j :: j in b[k].all ==> j in b && k in b[j].all;
    }
    forall k | k in u ensures k in b.Keys + KeySet(observed.all) {
      if k in t.all && k !in observed.all {
        var j :| j in observed.all && j in b && k in b[j].all;
      }
    }
    assert u.Keys == b.Keys + KeySet(observed.all);
  }

  /** Classes only grow: what was bound stays bound, under the roles it had. */
  ghost predicate Grown(b: Binding, c: Binding) {
    forall k :: k in b ==> k in c && forall j, r :: b[k].Has(j, r) ==> c[k].Has(j, r)
  }

  lemma UniteGrows(b: Binding, observed: Ids)
    requires Partition(b) && Covered(observed)
    ensures Grown(b, Unite(b, observed))
  {
    TargetHas(b, observed);
    var t, u := Target(b, observed), Unite(b, observed);
    forall k, j, r | k in b && b[k].Has(j, r) ensures u[k].Has(j, r) {
      if k in t.all {
        assert j in b[k].all;
        if k in observed.all {
          assert Touches(b, observed.all, j);
        } else {
          var i :| i in observed.all && i in b && k in b[i].all;
          assert b[i] == b[k];
          assert Touches(b, observed.all, j);
        }
      }
    }
  }

  /** Uniting changes nothing exactly when one class already holds everything the
      message spells. */
  lemma UniteSame(b: Binding, observed: Ids)
    requires Partition(b) && Covered(observed)
    ensures Unite(b, observed) == b <==>
      observed.Empty() || exists k :: k in b && forall j, r :: observed.Has(j, r) ==> b[k].Has(j, r)
  {
    var t, u := Target(b, observed), Unite(b, observed);
    TargetHas(b, observed);
    UniteKeepsPartition(b, observed);
    if observed.Empty() {
      assert forall k :: k !in observed.all;
      assert forall k :: !Touches(b, observed.all, k);
      assert u == b;
    } else {
      var k0 := if |observed.impi| > 0 then observed.impi[0] else observed.impu[0];
      assert k0 in observed.all && k0 in t.all;
      if u == b {
        assert b[k0] == t;
        forall j, r | observed.Has(j, r) ensures b[k0].Has(j, r) {}
      }
      if k :| k in b && forall j, r :: observed.Has(j, r) ==> b[k].Has(j, r) {
        HeldByOne(b, observed, k);
      }
    }
  }

  lemma HeldByOne(b: Binding, observed: Ids, k: Key)
    requires Partition(b) && Covered(observed) && !observed.Empty()
    requires k in b && forall j, r :: observed.Has(j, r) ==> b[k].Has(j, r)
    ensures Unite(b, observed) == b
  {
    var c := b[k];
    forall j | j in observed.all ensures j in c.all && j in b && b[j] == c {
      assert observed.Has(j, Impi) || observed.Has(j, Impu);
      assert c.Has(j, Impi) || c.Has(j, Impu);
    }
    GatherOne(b, observed.impi, None, c);
    GatherOne(b, observed.impu, Gather(b, observed.impi, None), c);
    assert Found(b, observed) == Some(c) by {
      if |observed.impi| > 0 {
        assert observed.impi[0] in b;
      } else {
        assert observed.impu[0] in b;
      }
    }
    AddAllSame(c, observed);
    assert Target(b, observed) == c;
    assert Repoint(b, c) == b;
  }

  lemma {:induction false} GatherOne(b: Binding, keys: seq<Key>, target: Option<Ids>, c: Ids)
    requires Partition(b) && (target.Some? ==> target.value == c)
    requires forall j :: j in keys ==> j in c.all && j in b && b[j] == c
    ensures Gather(b, keys, target) == if keys == [] then target else Some(c)
    decreases |keys|
  {
    if keys != [] {
      assert keys[0] in keys;
      assert forall j :: j in keys[1..] ==> j in keys;
      GatherOne(b, keys[1..], Absorb(b, keys[0], target), c);
    }
  }
}
