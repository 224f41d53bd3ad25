/** The module state of plugins/ims.lua as it is: shared tables that alias, grown and
    re-pointed in place, and what each entry point makes of them. */
module ImsPlugin {
  import opened Basics
  import opened Options
  import opened ImsSets
  import opened ImsBinding

  ghost function Opt(s: IdSet?): Option<Ids>
    reads s
  {
    if s == null then None else Some(s.Value())
  }

  /** The subscriber classes: `classOf` leads from every key to the one table that
      holds it. */
  class Subscribers {
    var classOf: map<Key, IdSet>
    ghost var Classes: set<IdSet>

    ghost function View(): Binding
      reads this, Classes
      requires forall k :: k in classOf ==> classOf[k] in Classes
    {
      map k | k in classOf :: classOf[k].Value()
    }

    /** `class_of[k] == c` exactly when `k` is in `c`, and no key leads to an absorbed
        table. */
    ghost predicate Valid()
      reads this, Classes
    {
      && (forall k :: k in classOf ==> classOf[k] in Classes && classOf[k].Valid())
      && (forall k, j :: k in classOf ==>
            (j in classOf[k].all <==> j in classOf && classOf[j] == classOf[k]))
      && Partition(View())
    }

    constructor ()
      ensures Valid() && Classes == {} && View() == map[]
    {
      classOf := map[];
      Classes := {};
    }

    /** In the middle of `unite`: `b` is what the classes held on entry, and every key
        of those absorbed so far leads to `target`. */
    ghost predicate Merging(b: Binding, target: IdSet?)
      reads this, Classes
    {
      && classOf.Keys == b.Keys
      && (target != null ==> target in Classes && target.Valid() && UnionOf(b, target.Value()))
      && (forall k :: k in classOf ==> classOf[k] in Classes && classOf[k].Valid())
      && (forall k :: k in classOf ==>
            if target != null && k in target.all then classOf[k] == target
            else classOf[k] != target && classOf[k].Value() == b[k])
      && (forall k, j :: k in classOf && j in classOf && (target == null || k !in target.all) ==>
            (classOf[j] == classOf[k] <==> j in b[k].all))
    }

    /** Moves every identity of one class into another. */
    method Absorb(target: IdSet, cls: IdSet)
      requires target != cls && target.Valid() && cls.Valid()
      modifies target, this`classOf
      ensures target.Valid() && target.Value() == AddAll(old(target.Value()), cls.Value())
      ensures classOf.Keys == old(classOf).Keys + KeySet(cls.impi) + KeySet(cls.impu)
      ensures forall k :: k in classOf ==>
        classOf[k] == if k in cls.impi || k in cls.impu then target else old(classOf)[k]
    {
      AbsorbRole(target, cls, Impi);
      AbsorbRole(target, cls, Impu);
    }

    method AbsorbRole(target: IdSet, cls: IdSet, role: Role)
      requires target != cls && target.Valid() && cls.Valid()
      modifies target, this`classOf
      ensures target.Valid() && target.Value() == AddKeys(old(target.Value()), cls.List(role), role)
      ensures Repointed(classOf, old(classOf), cls.List(role), target)
    {
      var keys := cls.List(role);
      var i := 0;
      while i < |keys|
        invariant 0 <= i <= |keys|
        invariant target.Valid()
        invariant AddKeys(target.Value(), keys[i..], role) == AddKeys(old(target.Value()), keys, role)
        invariant Repointed(classOf, old(classOf), keys[..i], target)
      {
        AddKeysFrom(target.Value(), keys, i, role);
        RepointOne(classOf, old(classOf), keys[..i], keys[i], target);
        assert keys[..i + 1] == keys[..i] + [keys[i]];
        AbsorbOne(target, keys[i], role);
        i := i + 1;
      }
      assert keys[..i] == keys;
    }

    method AbsorbOne(target: IdSet, key: Key, role: Role)
      requires target.Valid()
      modifies target, this`classOf
      ensures target.Valid() && target.Value() == Added(old(target.Value()), key, role)
      ensures classOf == old(classOf)[key := target]
    {
      var _ := target.Add(key, role);
      classOf := classOf[key := target];
    }

    /** One identity of the message: the class it leads to is the target, or is
        absorbed into it. */
    method AbsorbKey(ghost b: Binding, key: Key, target: IdSet?) returns (t: IdSet?, merged: bool)
      requires Partition(b) && Merging(b, target)
      modifies this`classOf, if target == null then {} else {target}
      ensures Merging(b, t)
      ensures Opt(t) == ImsBinding.Absorb(b, key, old(Opt(target)))
      ensures target != null ==> t == target
      ensures target == null && t != null ==> t.Value() == b[key]
      ensures merged <==> target != null && key in b && key !in old(target.all)
      ensures !merged ==> unchanged(this) && (target != null ==> unchanged(target))
    {
      t, merged := target, false;
      if key in classOf && classOf[key] != target {
        var cls := classOf[key];
        if target == null {
          t := cls;
          assert UnionOf(b, b[key]) by {
            AbsorbUnion(b, key, None);
          }
        } else {
          merged := true;
          AbsorbOther(b, key, target);
        }
      }
    }

    /** The class of `key` is another one, and is absorbed into the target. */
    method AbsorbOther(ghost b: Binding, key: Key, target: IdSet)
      requires Partition(b) && Merging(b, target)
      requires key in b && key !in target.all
      modifies this`classOf, target
      ensures Merging(b, target)
      ensures target.Value() == AddAll(old(target.Value()), b[key])
    {
      var cls := classOf[key];
      ghost var was, before := target.Value(), classOf;
      AbsorbUnion(b, key, Some(was));
      assert Others(b, target, KeySet(was.all), before);
      Absorb(target, cls);
      assert forall k :: k in b[key].all <==> k in cls.impi || k in cls.impu;
      MergedKeepsOthers(b, key, target, KeySet(was.all), before);
    }

    /** The keys led to `target` are those in `held`; every other one leads to a table of
        its own class, none of which is the target. */
    ghost predicate Others(b: Binding, target: IdSet, held: set<Key>, before: map<Key, IdSet>)
      reads `Classes, Classes - {target}
    {
      && before.Keys == b.Keys
      && (forall k :: k in before && k in held ==> before[k] == target)
      && (forall k :: k in before && k !in held ==>
            before[k] in Classes && before[k] != target && before[k].Valid() && before[k].Value() == b[k])
      && (forall k, j :: k in before && j in before && k !in held ==>
            (before[j] == before[k] <==> j in b[k].all))
    }

    lemma MergedKeepsOthers(b: Binding, key: Key, target: IdSet, held: set<Key>, before: map<Key, IdSet>)
      requires Partition(b) && key in b && key !in held
      requires target in Classes && target.Valid() && UnionOf(b, target.Value())
      requires forall k :: k in target.all <==> k in held || k in b[key].all
      requires Others(b, target, held, before) && classOf.Keys == b.Keys
      requires forall k :: k in classOf ==> classOf[k] == if k in b[key].all then target else before[k]
      ensures Merging(b, target)
    {
    }

    method GatherKey(ghost b: Binding, key: Key, target: IdSet?, already: bool)
        returns (t: IdSet?, moved: bool)
      requires Partition(b) && Merging(b, target) && Moved(b, Opt(target), already)
      modifies this`classOf, if target == null then {} else {target}
      ensures Merging(b, t) && Moved(b, Opt(t), moved)
      ensures Opt(t) == ImsBinding.Absorb(b, key, old(Opt(target)))
      ensures target != null ==> t == target
    {
      MovedStep(b, key, Opt(target), already);
      var merged;
      t, merged := AbsorbKey(b, key, target);
      moved := already || merged;
    }

    /** The classes of the identities the message holds under one role, merged. */
    method GatherRole(ghost b: Binding, keys: seq<Key>, target: IdSet?, already: bool)
        returns (t: IdSet?, moved: bool)
      requires Partition(b) && Merging(b, target) && Moved(b, Opt(target), already)
      modifies this`classOf, Classes
      ensures Merging(b, t) && Moved(b, Opt(t), moved)
      ensures Opt(t) == Gather(b, keys, old(Opt(target)))
    {
      t, moved := target, already;
      var i := 0;
      while i < |keys|
        invariant 0 <= i <= |keys|
        invariant Merging(b, t) && Moved(b, Opt(t), moved)
        invariant Gather(b, keys[i..], Opt(t)) == Gather(b, keys, old(Opt(target)))
      {
        assert keys[i..][1..] == keys[i + 1..];
        t, moved := GatherKey(b, keys[i], t, moved);
        i := i + 1;
      }
    }

    /** Files one message: whatever it spells ends up in one class. The answer is whether
        any table is now different. */
    method Unite(observed: IdSet) returns (moved: bool)
      requires Valid() && observed.Valid() && Covered(observed.Value()) && observed !in Classes
      modifies this, Classes
      ensures Valid() && fresh(Classes - old(Classes))
      ensures View() == ImsBinding.Unite(old(View()), observed.Value())
      ensures moved <==> View() != old(View()) || observed.Value().Empty()
    {
      ghost var b, o := View(), observed.Value();
      StartMerging();
      var target;
      target, moved := UniteInto(b, observed);
      Filed(b, o, target);
    }

    method UniteInto(ghost b: Binding, observed: IdSet) returns (target: IdSet, moved: bool)
      requires Merging(b, null) && Partition(b) && observed !in Classes && Covered(observed.Value())
      modifies this, Classes
      ensures fresh(Classes - old(Classes))
      ensures Filing(b, {}, target) && target.Value() == Target(b, observed.Value())
      ensures moved <==> ImsBinding.Unite(b, observed.Value()) != b || observed.Value().Empty()
    {
      ghost var merged;
      target, moved, merged := Merge(b, observed);
      TargetPastFound(b, observed.Value());
      moved := FileAll(b, KeySet(target.all), observed, target, moved);
      MovedMeans(b, observed.Value(), merged);
    }

    /** The one table the message is to be filed in: the first class it leads to, with
        the others absorbed, or a new one. */
    method Merge(ghost b: Binding, observed: IdSet) returns (target: IdSet, moved: bool, ghost merged: bool)
      requires Merging(b, null) && Partition(b) && observed !in Classes
      modifies this, Classes
      ensures fresh(Classes - old(Classes))
      ensures Filing(b, KeySet(target.all), target)
      ensures target.Value() == OrNew(Found(b, observed.Value()))
      ensures Moved(b, Found(b, observed.Value()), merged)
      ensures moved <==> merged || Found(b, observed.Value()).None?
    {
      var found;
      found, moved := GatherAll(b, observed);
      merged := moved;
      if found == null {
        target := NewClass(b);
        moved := true;
      } else {
        target := found;
        MergedFiling(b, target);
      }
    }

    method GatherAll(ghost b: Binding, observed: IdSet) returns (found: IdSet?, moved: bool)
      requires Merging(b, null) && Partition(b) && observed !in Classes
      modifies this`classOf, Classes
      ensures Merging(b, found)
      ensures Opt(found) == Found(b, observed.Value())
      ensures Moved(b, Opt(found), moved)
    {
      found, moved := GatherRole(b, observed.impi, null, false);
      found, moved := GatherRole(b, observed.impu, found, moved);
    }

    lemma StartMerging()
      requires Valid()
      ensures Merging(View(), null)
    {
    }

    lemma MergedFiling(b: Binding, target: IdSet)
      requires Merging(b, target)
      ensures Filing(b, KeySet(target.all), target)
    {
      assert b.Keys + KeySet(target.all) == b.Keys;
    }

    method NewClass(ghost b: Binding) returns (target: IdSet)
      requires Merging(b, null)
      modifies this`Classes
      ensures Filing(b, {}, target) && target.Value() == NoIds
      ensures fresh(target) && Classes == old(Classes) + {target}
    {
      target := new IdSet();
      Classes := Classes + {target};
      assert b.Keys + KeySet(target.all) == b.Keys;
    }

    method FileAll(ghost b: Binding, ghost found: set<Key>, observed: IdSet, target: IdSet, already: bool)
        returns (moved: bool)
      requires Closed(b) && Filing(b, found, target) && observed != target
      requires forall k :: (k in observed.impi || k in observed.impu) && k in b ==> k in found
      modifies this`classOf, target
      ensures Filing(b, found, target)
      ensures target.Value() == AddAll(old(target.Value()), observed.Value())
      ensures moved <==> already || Size(target.Value()) > Size(old(target.Value()))
    {
      moved := File(b, found, observed.impi, Impi, target, already);
      moved := File(b, found, observed.impu, Impu, target, moved);
    }

    lemma Filed(b: Binding, o: Ids, target: IdSet)
      requires Partition(b) && Covered(o) && Filing(b, {}, target) && target.Value() == Target(b, o)
      ensures Valid() && View() == ImsBinding.Unite(b, o)
    {
      FiledView(b, target);
      UniteKeepsPartition(b, o);
      FiledLeads(b, target);
    }

    lemma FiledView(b: Binding, target: IdSet)
      requires Filing(b, {}, target)
      ensures View() == Repoint(b, target.Value())
    {
      var u := Repoint(b, target.Value());
      assert u.Keys == classOf.Keys;
      forall k | k in u ensures View()[k] == u[k] {
        assert classOf[k].Value() == u[k];
      }
    }

    lemma FiledLeads(b: Binding, target: IdSet)
      requires Filing(b, {}, target) && Partition(View())
      ensures forall k, j :: k in classOf ==>
        (j in classOf[k].all <==> j in classOf && classOf[j] == classOf[k])
    {
      forall k, j | k in classOf
        ensures j in classOf[k].all <==> j in classOf && classOf[j] == classOf[k]
      {
        assert View()[k] == classOf[k].Value();
        if j in classOf {
          assert View()[j] == classOf[j].Value();
        }
      }
    }

    /** The target holds what was found, and the message is being filed in it. */
    ghost predicate Filing(b: Binding, found: set<Key>, target: IdSet)
      reads this, Classes
    {
      && target in Classes && target.Valid()
      && (forall k :: k in found ==> k in target.all)
      && classOf.Keys == b.Keys + KeySet(target.all)
      && (forall k :: k in classOf ==> classOf[k] in Classes && classOf[k].Valid())
      && (forall k :: k in classOf ==>
            if k in target.all then classOf[k] == target
            else classOf[k] != target && classOf[k].Value() == b[k])
      && (forall k, j :: k in classOf && j in classOf && k !in target.all ==>
            (classOf[j] == classOf[k] <==> j in b[k].all))
    }

    method FileKey(ghost b: Binding, ghost found: set<Key>, key: Key, role: Role, target: IdSet) returns (moved: bool)
      requires Closed(b) && Filing(b, found, target)
      requires key in b ==> key in found
      modifies this`classOf, target
      ensures Filing(b, found, target)
      ensures target.Value() == Added(old(target.Value()), key, role)
      ensures !moved ==> target.Value() == old(target.Value())
      ensures moved ==> Size(target.Value()) > Size(old(target.Value()))
    {
      moved := target.Add(key, role);
      if key !in classOf || classOf[key] != target {
        classOf := classOf[key := target];
        moved := true;
      }
    }

    method File(ghost b: Binding, ghost found: set<Key>, keys: seq<Key>, role: Role, target: IdSet,
                already: bool)
        returns (moved: bool)
      requires Closed(b) && Filing(b, found, target)
      requires forall k :: k in keys && k in b ==> k in found
      modifies this`classOf, target
      ensures Filing(b, found, target)
      ensures target.Value() == AddKeys(old(target.Value()), keys, role)
      ensures moved <==> already || Size(target.Value()) > Size(old(target.Value()))
      ensures Size(target.Value()) >= Size(old(target.Value()))
    {
      moved := already;
      ghost var was := target.Value();
      var i := 0;
      while i < |keys|
        invariant 0 <= i <= |keys|
        invariant Filing(b, found, target)
        invariant Progress(was, target.Value(), keys, i, role, already, moved)
      {
        moved := FileNext(b, found, was, keys, i, role, target, already, moved);
        i := i + 1;
      }
    }

    method FileNext(ghost b: Binding, ghost found: set<Key>, ghost was: Ids, keys: seq<Key>, i: nat, role: Role,
                    target: IdSet, ghost already: bool, moved: bool)
        returns (still: bool)
      requires Closed(b) && Filing(b, found, target)
      requires i < |keys| && forall k :: k in keys && k in b ==> k in found
      requires Progress(was, target.Value(), keys, i, role, already, moved)
      modifies this`classOf, target
      ensures Filing(b, found, target)
      ensures Progress(was, target.Value(), keys, i + 1, role, already, still)
    {
      ghost var before := target.Value();
      var changed := FileKey(b, found, keys[i], role, target);
      ProgressStep(was, before, target.Value(), keys, i, role, already, moved, changed);
      still := moved || changed;
    }
  }

  /** The keys of one list now lead to `target`, and all others where they led before. */
  ghost predicate Repointed(now: map<Key, IdSet>, was: map<Key, IdSet>, keys: seq<Key>, target: IdSet) {
    && now.Keys == was.Keys + KeySet(keys)
    && forall k :: k in now ==> now[k] == if k in keys then target else was[k]
  }

  lemma RepointOne(now: map<Key, IdSet>, was: map<Key, IdSet>, keys: seq<Key>, key: Key, target: IdSet)
    requires Repointed(now, was, keys, target)
    ensures Repointed(now[key := target], was, keys + [key], target)
  {
  }

  /** Filing the keys so far has led from `was` to `now`, and `moved` says whether that
      is any longer. */
  ghost predicate Progress(was: Ids, now: Ids, keys: seq<Key>, i: nat, role: Role, already: bool, moved: bool)
    requires i <= |keys|
  {
    && AddKeys(now, keys[i..], role) == AddKeys(was, keys, role)
    && Size(was) <= Size(now)
    && (moved <==> already || Size(was) < Size(now))
  }

  lemma ProgressStep(was: Ids, before: Ids, now: Ids, keys: seq<Key>, i: nat, role: Role,
                     already: bool, moved: bool, changed: bool)
    requires i < |keys| && Progress(was, before, keys, i, role, already, moved)
    requires now == Added(before, keys[i], role)
    requires if changed then Size(before) < Size(now) else before == now
    ensures Progress(was, now, keys, i + 1, role, already, moved || changed)
  {
    AddKeysFrom(before, keys, i, role);
  }

  ghost predicate Closed(b: Binding) {
    forall k, j :: k in b && j in b[k].all ==> j in b
  }

  /** How far the merging has moved things: something was merged exactly when the
      target now holds more than the class of one of its keys did. */
  ghost predicate Moved(b: Binding, target: Option<Ids>, moved: bool) {
    if moved then
      target.Some? && exists k :: k in b && k in target.value.all && |b[k].all| < |target.value.all|
    else
      target.Some? ==> exists k :: k in b && k in target.value.all && b[k] == target.value
  }

  lemma MovedStep(b: Binding, key: Key, target: Option<Ids>, moved: bool)
    requires Partition(b) && (target.Some? ==> UnionOf(b, target.value)) && Moved(b, target, moved)
    ensures Moved(b, ImsBinding.Absorb(b, key, target),
                  moved || (target.Some? && key in b && key !in target.value.all))
  {
    if key in b && target.None? {
      assert key in b[key].all;
    } else if key in b && key !in target.value.all {
      MergedIsMore(b, key, target.value, AddAll(target.value, b[key]));
    }
  }

  lemma MergedIsMore(b: Binding, key: Key, was: Ids, now: Ids)
    requires Partition(b) && UnionOf(b, was) && key in b && key !in was.all
    requires now == AddAll(was, b[key])
    ensures |was.all| < |now.all|
    ensures key in now.all && |b[key].all| <= |now.all|
    ensures forall k :: k in was.all ==> k in now.all
    ensures was.all != [] ==> exists k :: k in b && k in now.all && |b[k].all| < |now.all|
  {
    AddAllHas(was, b[key]);
    var u := AddKeys(was, b[key].impi, Impi);
    AddKeysGrows(was, b[key].impi, Impi);
    AddKeysGrows(u, b[key].impu, Impu);
    assert was.all <= now.all;
    assert key in now.all;
    if was.all != [] {
      var k := was.all[0];
      assert k in was.all;
      ClassFits(b, k, was);
    }
    ClassFits(b, key, now);
  }

  lemma ClassFits(b: Binding, k: Key, t: Ids)
    requires Partition(b) && k in b && Covered(t) && forall j :: j in b[k].all ==> j in t.all
    ensures |b[k].all| <= |t.all|
  {
    DistinctSize(b[k].all);
    DistinctSize(t.all);
    SubsetSize(KeySet(b[k].all), KeySet(t.all));
  }

  lemma {:induction false} DistinctSize(keys: seq<Key>)
    requires NoDuplicates(keys)
    ensures |KeySet(keys)| == |keys|
    decreases |keys|
  {
    if keys != [] {
      var n := |keys| - 1;
      DistinctSize(keys[..n]);
      assert KeySet(keys) == KeySet(keys[..n]) + {keys[n]};
    }
  }

  function Size(s: Ids): nat {
    |s.all| + |s.impi| + |s.impu|
  }

  lemma AddAllGrows(s: Ids, t: Ids)
    ensures var u := AddAll(s, t);
      s.all <= u.all && Size(s) <= Size(u) && (Size(s) == Size(u) ==> s == u)
  {
    var w := AddKeys(s, t.impi, Impi);
    AddKeysGrows(s, t.impi, Impi);
    AddKeysGrows(w, t.impu, Impu);
    assert s.impi <= AddAll(s, t).impi && s.impu <= AddAll(s, t).impu;
  }

  lemma TargetPastFound(b: Binding, observed: Ids)
    requires Partition(b) && Covered(observed)
    ensures var s, t := OrNew(Found(b, observed)), Target(b, observed);
      && s.all <= t.all && Size(s) <= Size(t) && (Size(s) == Size(t) ==> s == t)
      && (forall k :: k in s.all ==> k in b)
      && (forall k :: k in observed.all && k in b ==> k in s.all)
      && (observed.Empty() ==> Found(b, observed).None?)
  {
    var first := Gather(b, observed.impi, None);
    GatherUnion(b, observed.impi, None);
    GatherUnion(b, observed.impu, first);
    AddAllGrows(OrNew(Found(b, observed)), observed);
    forall k | k in observed.all && k in b ensures k in OrNew(Found(b, observed)).all {
      assert k in b[k].all;
      if k in observed.impi {
        assert Touches(b, observed.impi, k);
      } else {
        assert Touches(b, observed.impu, k);
      }
    }
  }

  /** The report of `unite`: something it reads has moved, unless the message spelled
      nothing at all. */
  lemma MovedMeans(b: Binding, observed: Ids, merged: bool)
    requires Partition(b) && Covered(observed) && Moved(b, Found(b, observed), merged)
    ensures ImsBinding.Unite(b, observed) != b || observed.Empty() <==>
      (merged || Found(b, observed).None? || Size(Target(b, observed)) > Size(OrNew(Found(b, observed))))
  {
    TargetPastFound(b, observed);
    if Found(b, observed).None? {
      NewMoves(b, observed);
    } else {
      FoundMoves(b, observed, merged);
    }
  }

  lemma NewMoves(b: Binding, observed: Ids)
    requires Partition(b) && Covered(observed) && Found(b, observed).None?
    ensures ImsBinding.Unite(b, observed) != b || observed.Empty()
  {
    TargetPastFound(b, observed);
    UniteKeepsPartition(b, observed);
    if !observed.Empty() {
      var k := if |observed.impi| > 0 then observed.impi[0] else observed.impu[0];
      assert k in observed.all;
    }
  }

  lemma FoundMoves(b: Binding, observed: Ids, merged: bool)
    requires Partition(b) && Covered(observed) && Moved(b, Found(b, observed), merged)
    requires Found(b, observed).Some?
    ensures ImsBinding.Unite(b, observed) != b <==>
      merged || Size(Target(b, observed)) > Size(Found(b, observed).value)
    ensures !observed.Empty()
  {
    var found, t := Found(b, observed).value, Target(b, observed);
    TargetPastFound(b, observed);
    var k :| k in b && k in found.all && if merged then |b[k].all| < |found.all| else b[k] == found;
    assert ImsBinding.Unite(b, observed)[k] == t;
    if !merged && t == found {
      SameClass(b, observed, k);
    }
  }

  lemma SameClass(b: Binding, observed: Ids, k: Key)
    requires Partition(b) && k in b && b[k] == Target(b, observed)
    ensures ImsBinding.Unite(b, observed) == b
  {
    assert forall j :: j in b[k].all ==> j in b && b[j] == b[k];
  }
}
