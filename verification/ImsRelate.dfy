/** The widening of plugins/ims.lua: a frame's identities enlarged by the classes they
    lead to. */
module ImsRelate {
  import opened ImsSets
  import opened ImsBinding

  /** The distinct classes of `keys`, in the order they are met. */
  function Classes(b: Binding, keys: seq<Key>, acc: seq<Ids>): seq<Ids>
    decreases |keys|
  {
    if keys == [] then acc
    else Classes(b, keys[1..],
                 if keys[0] in b && b[keys[0]] !in acc then acc + [b[keys[0]]] else acc)
  }

  function Reached(b: Binding, observed: Ids): seq<Ids> {
    Classes(b, observed.impu, Classes(b, observed.impi, []))
  }

  function PrivateOf(classes: seq<Ids>): set<Key> {
    set c, k | c in classes && k in c.impi :: k
  }

  /** The keys that are private to the frame itself or to a class it reaches. */
  function Private(b: Binding, observed: Ids): set<Key> {
    KeySet(observed.impi) + PrivateOf(Reached(b, observed))
  }

  /** A barred or private key is refused the public role, and nothing else. */
  predicate Refused(barred: set<Key>, private: set<Key>, key: Key, role: Role) {
    role.Impu? && (key in barred || key in private)
  }

  function Kept(out: Ids, barred: set<Key>, private: set<Key>, key: Key, role: Role): Ids {
    if Refused(barred, private, key, role) then out.(all := Pushed(out.all, key))
    else Added(out, key, role)
  }

  function KeepKeys(out: Ids, barred: set<Key>, private: set<Key>, keys: seq<Key>, role: Role): Ids
    decreases |keys|
  {
    if keys == [] then out
    else KeepKeys(Kept(out, barred, private, keys[0], role), barred, private, keys[1..], role)
  }

  function KeepSet(out: Ids, barred: set<Key>, private: set<Key>, s: Ids): Ids {
    KeepKeys(KeepKeys(out, barred, private, s.impi, Impi), barred, private, s.impu, Impu)
  }

  function KeepClasses(out: Ids, barred: set<Key>, private: set<Key>, classes: seq<Ids>): Ids
    decreases |classes|
  {
    if classes == [] then out
    else KeepClasses(KeepSet(out, barred, private, classes[0]), barred, private, classes[1..])
  }

  /** What is left of the frame's own identities. */
  function Own(b: Binding, barred: set<Key>, observed: Ids): Ids {
    KeepSet(NoIds, barred, Private(b, observed), observed)
  }

  function Widen(b: Binding, barred: set<Key>, observed: Ids): Ids {
    KeepClasses(Own(b, barred, observed), barred, Private(b, observed), Reached(b, observed))
  }

  /** Whether the classes added an identity to the frame's own. */
  predicate Related(b: Binding, barred: set<Key>, observed: Ids) {
    var own, wide := Own(b, barred, observed), Widen(b, barred, observed);
    wide.impi != own.impi || wide.impu != own.impu
  }

  // --------------------------------------------------------- what they hold --

  lemma {:induction false} ClassesHold(b: Binding, keys: seq<Key>, acc: seq<Ids>)
    ensures forall c :: c in Classes(b, keys, acc) <==> c in acc || exists j :: j in keys && j in b && b[j] == c
    decreases |keys|
  {
    if keys != [] {
      var next := if keys[0] in b && b[keys[0]] !in acc then acc + [b[keys[0]]] else acc;
      ClassesHold(b, keys[1..], next);
      assert forall j :: j in keys <==> j == keys[0] || j in keys[1..];
    }
  }

  lemma ReachedHold(b: Binding, observed: Ids)
    requires Covered(observed)
    ensures forall c :: c in Reached(b, observed) <==> exists j :: j in observed.all && j in b && b[j] == c
  {
    ClassesHold(b, observed.impi, []);
    ClassesHold(b, observed.impu, Classes(b, observed.impi, []));
  }

  lemma {:induction false} KeepKeysHas(out: Ids, barred: set<Key>, private: set<Key>, keys: seq<Key>, role: Role)
    ensures var w := KeepKeys(out, barred, private, keys, role);
      && (forall k :: k in w.all <==> k in out.all || k in keys)
      && (forall k, r :: w.Has(k, r) <==>
            out.Has(k, r) || (r == role && k in keys && !Refused(barred, private, k, r)))
    decreases |keys|
  {
    if keys != [] {
      var t := Kept(out, barred, private, keys[0], role);
      KeepKeysHas(t, barred, private, keys[1..], role);
      assert forall k :: k in keys <==> k == keys[0] || k in keys[1..];
      assert forall k, r :: t.Has(k, r) <==>
          out.Has(k, r) || (r == role && k == keys[0] && !Refused(barred, private, k, r));
    }
  }

  lemma {:induction false} KeepKeysLists(out: Ids, barred: set<Key>, private: set<Key>, keys: seq<Key>, role: Role)
    ensures var w := KeepKeys(out, barred, private, keys, role);
      && (Listed(out) ==> Listed(w))
      && out.impi <= w.impi && out.impu <= w.impu
    decreases |keys|
  {
    if keys != [] {
      KeepKeysLists(Kept(out, barred, private, keys[0], role), barred, private, keys[1..], role);
    }
  }

  lemma KeepSetHas(out: Ids, barred: set<Key>, private: set<Key>, s: Ids)
    ensures var w := KeepSet(out, barred, private, s);
      && (forall k :: k in w.all <==> k in out.all || k in s.impi || k in s.impu)
      && (forall k, r :: w.Has(k, r) <==> out.Has(k, r) || (s.Has(k, r) && !Refused(barred, private, k, r)))
      && (Listed(out) ==> Listed(w))
      && out.impi <= w.impi && out.impu <= w.impu
  {
    var u := KeepKeys(out, barred, private, s.impi, Impi);
    KeepKeysHas(out, barred, private, s.impi, Impi);
    KeepKeysHas(u, barred, private, s.impu, Impu);
    KeepKeysLists(out, barred, private, s.impi, Impi);
    KeepKeysLists(u, barred, private, s.impu, Impu);
    var w := KeepSet(out, barred, private, s);
    forall k, r ensures w.Has(k, r) <==> out.Has(k, r) || (s.Has(k, r) && !Refused(barred, private, k, r)) {
      assert w.Has(k, r) <==> u.Has(k, r) || (r == Impu && k in s.impu && !Refused(barred, private, k, r));
      assert u.Has(k, r) <==> out.Has(k, r) || (r == Impi && k in s.impi && !Refused(barred, private, k, r));
    }
  }

  ghost predicate InSome(classes: seq<Ids>, k: Key, r: Role) {
    exists c :: c in classes && c.Has(k, r)
  }

  lemma {:induction false} KeepClassesHas(out: Ids, barred: set<Key>, private: set<Key>, classes: seq<Ids>)
    ensures var w := KeepClasses(out, barred, private, classes);
      && (forall k :: k in w.all <==> k in out.all || InSome(classes, k, Impi) || InSome(classes, k, Impu))
      && (forall k, r :: w.Has(k, r) <==>
            out.Has(k, r) || (InSome(classes, k, r) && !Refused(barred, private, k, r)))
      && (Listed(out) ==> Listed(w))
      && out.impi <= w.impi && out.impu <= w.impu
    decreases |classes|
  {
    if classes != [] {
      KeepSetHas(out, barred, private, classes[0]);
      KeepClassesHas(KeepSet(out, barred, private, classes[0]), barred, private, classes[1..]);
      forall k, r ensures InSome(classes, k, r) <==> classes[0].Has(k, r) || InSome(classes[1..], k, r) {
        assert forall c :: c in classes <==> c == classes[0] || c in classes[1..];
      }
      assert forall k :: k in classes[0].impi <==> classes[0].Has(k, Impi);
      assert forall k :: k in classes[0].impu <==> classes[0].Has(k, Impu);
    }
  }

  // ------------------------------------------------------------ the theorem --

  /** `k` has role `r` in the frame or in a class the frame reaches. */
  ghost predicate Known(b: Binding, observed: Ids, k: Key, r: Role) {
    observed.Has(k, r) || (Touches(b, observed.all, k) && k in b && b[k].Has(k, r))
  }

  lemma ReachedKnown(b: Binding, observed: Ids, k: Key, r: Role)
    requires Partition(b) && Covered(observed)
    ensures InSome(Reached(b, observed), k, r) <==> Touches(b, observed.all, k) && k in b && b[k].Has(k, r)
  {
    ReachedHold(b, observed);
    if InSome(Reached(b, observed), k, r) {
      var c :| c in Reached(b, observed) && c.Has(k, r);
      var j :| j in observed.all && j in b && b[j] == c;
      assert k in c.all;
      assert Touches(b, observed.all, k);
    }
    if Touches(b, observed.all, k) && k in b && b[k].Has(k, r) {
      var j :| j in observed.all && j in b && k in b[j].all;
      assert b[j] == b[k];
      assert b[k] in Reached(b, observed);
    }
  }

  lemma PrivateKnown(b: Binding, observed: Ids, k: Key)
    requires Partition(b) && Covered(observed)
    ensures k in Private(b, observed) <==> Known(b, observed, k, Impi)
  {
    ReachedKnown(b, observed, k, Impi);
    assert k in PrivateOf(Reached(b, observed)) <==> InSome(Reached(b, observed), k, Impi) by {
      if InSome(Reached(b, observed), k, Impi) {
        var c :| c in Reached(b, observed) && c.Has(k, Impi);
      }
      if k in PrivateOf(Reached(b, observed)) {
        var c :| c in Reached(b, observed) && k in c.impi;
        assert c.Has(k, Impi);
      }
    }
  }

  /** The widened set, identity by identity: `all` is the frame and every class it
      reaches, the private identities are all of theirs, and the public ones those
      neither barred nor private. */
  lemma WidenHolds(b: Binding, barred: set<Key>, observed: Ids, k: Key)
    requires Partition(b) && Covered(observed)
    ensures var w := Widen(b, barred, observed);
      && (k in w.all <==> k in observed.all || Touches(b, observed.all, k))
      && (k in w.impi <==> Known(b, observed, k, Impi))
      && (k in w.impu <==> Known(b, observed, k, Impu) && k !in barred && k !in w.impi)
      && Listed(w)
  {
    var private, own := Private(b, observed), Own(b, barred, observed);
    var classes, w := Reached(b, observed), Widen(b, barred, observed);
    KeepSetHas(NoIds, barred, private, observed);
    KeepClassesHas(own, barred, private, classes);
    PrivateKnown(b, observed, k);
    ReachedKnown(b, observed, k, Impi);
    ReachedKnown(b, observed, k, Impu);
    assert w.Has(k, Impi) <==> k in w.impi;
    assert w.Has(k, Impu) <==> k in w.impu;
    assert own.Has(k, Impi) <==> observed.Has(k, Impi) && !Refused(barred, private, k, Impi);
    assert own.Has(k, Impu) <==> observed.Has(k, Impu) && !Refused(barred, private, k, Impu);
    if Touches(b, observed.all, k) {
      var j :| j in observed.all && j in b && k in b[j].all;
      assert k in b && b[k] == b[j];
      assert b[k].Has(k, Impi) || b[k].Has(k, Impu);
    }
  }

  /** No identity is handed out both as private and as public, and none that is barred
      as public. */
  lemma RolesDisjoint(b: Binding, barred: set<Key>, observed: Ids)
    requires Partition(b) && Covered(observed)
    ensures var w := Widen(b, barred, observed);
      && (forall k :: k in w.impi ==> k !in w.impu)
      && (forall k :: k in w.impu ==> k !in barred)
  {
    forall k ensures var w := Widen(b, barred, observed);
      (k in w.impi ==> k !in w.impu) && (k in w.impu ==> k !in barred)
    {
      WidenHolds(b, barred, observed, k);
    }
  }

  /** `related` is raised exactly when a class gave the frame an identity, under a
      role it was allowed, that the frame's own kept ones lacked. */
  lemma RelatedExactly(b: Binding, barred: set<Key>, observed: Ids)
    requires Partition(b) && Covered(observed)
    ensures Related(b, barred, observed) <==>
      exists c, k, r :: c in Reached(b, observed) && c.Has(k, r)
        && !Refused(barred, Private(b, observed), k, r) && !Own(b, barred, observed).Has(k, r)
  {
    var private, own := Private(b, observed), Own(b, barred, observed);
    var classes, w := Reached(b, observed), Widen(b, barred, observed);
    KeepClassesHas(own, barred, private, classes);
    if Related(b, barred, observed) {
      var r := if w.impi != own.impi then Impi else Impu;
      assert own.Of(r) < w.Of(r);
      var k := w.Of(r)[|own.Of(r)|];
      KeepSetHas(NoIds, barred, private, observed);
      assert Listed(w);
      assert w.Has(k, r) && !own.Has(k, r);
      var c :| c in classes && c.Has(k, r);
    }
    if c, k, r :| c in classes && c.Has(k, r) && !Refused(barred, private, k, r) && !own.Has(k, r) {
      assert InSome(classes, k, r);
      assert w.Has(k, r);
    }
  }

  /** As the classes grow and keys are barred, a frame's identities and its private
      ones only grow; a public one goes only by being barred or turning out private. */
  lemma WidenGrows(b: Binding, c: Binding, barred: set<Key>, more: set<Key>, observed: Ids)
    requires Partition(b) && Partition(c) && Covered(observed)
    requires Grown(b, c) && barred <= more
    ensures var v, w := Widen(b, barred, observed), Widen(c, more, observed);
      && (forall k :: k in v.all ==> k in w.all)
      && (forall k :: k in v.impi ==> k in w.impi)
      && (forall k :: k in v.impu ==> (k !in w.impu <==> k in more || k in w.impi))
  {
    var v, w := Widen(b, barred, observed), Widen(c, more, observed);
    forall k ensures (k in v.all ==> k in w.all) && (k in v.impi ==> k in w.impi)
      && (k in v.impu ==> (k !in w.impu <==> k in more || k in w.impi))
    {
      WidenHolds(b, barred, observed, k);
      WidenHolds(c, more, observed, k);
      if Touches(b, observed.all, k) {
        var j :| j in observed.all && j in b && k in b[j].all;
        assert b[j].Has(k, Impi) || b[j].Has(k, Impu);
        assert c[j].Has(k, Impi) || c[j].Has(k, Impu);
        assert k in c[j].all;
        assert Touches(c, observed.all, k);
        assert b[k] == b[j] && c[k] == c[j];
      }
    }
  }
}
