/** The tables of identities in plugins/ims.lua: a list for each role, a list of them all,
    and no list with a key in it twice. */
module ImsSets {

  type Key = string

  datatype Role = Impi | Impu

  /** The value of an identity set: its three lists, in the order they were filled. */
  datatype Ids = Ids(all: seq<Key>, impi: seq<Key>, impu: seq<Key>) {
    function Of(role: Role): seq<Key> {
      if role.Impi? then impi else impu
    }

    predicate Empty() {
      |impi| == 0 && |impu| == 0
    }

    predicate Has(key: Key, role: Role) {
      key in Of(role)
    }
  }

  const NoIds := Ids([], [], [])

  ghost predicate NoDuplicates(keys: seq<Key>) {
    forall i, j :: 0 <= i < j < |keys| ==> keys[i] != keys[j]
  }

  /** No list holds a key twice. */
  ghost predicate Listed(s: Ids) {
    NoDuplicates(s.all) && NoDuplicates(s.impi) && NoDuplicates(s.impu)
  }

  /** A set in which every key has a role. Frames and classes are such sets; a widened set
      need not be, for a barred key is in `all` and in neither role. */
  ghost predicate Covered(s: Ids) {
    && Listed(s)
    && (forall key :: key in s.all <==> key in s.impi || key in s.impu)
  }

  function Pushed(keys: seq<Key>, key: Key): seq<Key> {
    if key in keys then keys else keys + [key]
  }

  function Added(s: Ids, key: Key, role: Role): Ids {
    Ids(Pushed(s.all, key),
        if role.Impi? then Pushed(s.impi, key) else s.impi,
        if role.Impu? then Pushed(s.impu, key) else s.impu)
  }

  function AddKeys(s: Ids, keys: seq<Key>, role: Role): Ids
    decreases |keys|
  {
    if keys == [] then s else AddKeys(Added(s, keys[0], role), keys[1..], role)
  }

  /** One turn of a loop over `keys`. */
  lemma AddKeysFrom(s: Ids, keys: seq<Key>, i: nat, role: Role)
    requires i < |keys|
    ensures AddKeys(s, keys[i..], role) == AddKeys(Added(s, keys[i], role), keys[i + 1..], role)
  {
    assert keys[i..][1..] == keys[i + 1..];
  }

  /** Every identity of `t` added to `s`, the private ones first. */
  function AddAll(s: Ids, t: Ids): Ids {
    AddKeys(AddKeys(s, t.impi, Impi), t.impu, Impu)
  }

  lemma {:induction false} AddKeysHas(s: Ids, keys: seq<Key>, role: Role)
    ensures forall k, r :: AddKeys(s, keys, role).Has(k, r) <==> s.Has(k, r) || (r == role && k in keys)
    ensures forall k :: k in AddKeys(s, keys, role).all <==> k in s.all || k in keys
    decreases |keys|
  {
    if keys != [] {
      var t := Added(s, keys[0], role);
      AddKeysHas(t, keys[1..], role);
      assert forall k :: k in keys <==> k == keys[0] || k in keys[1..];
      assert forall k, r :: t.Has(k, r) <==> s.Has(k, r) || (r == role && k == keys[0]);
    }
  }

  lemma {:induction false} AddKeysListed(s: Ids, keys: seq<Key>, role: Role)
    ensures Listed(s) ==> Listed(AddKeys(s, keys, role))
    ensures Covered(s) ==> Covered(AddKeys(s, keys, role))
    decreases |keys|
  {
    if keys != [] {
      AddKeysListed(Added(s, keys[0], role), keys[1..], role);
    }
  }

  lemma {:induction false} AddKeysGrows(s: Ids, keys: seq<Key>, role: Role)
    ensures s.all <= AddKeys(s, keys, role).all
    ensures s.impi <= AddKeys(s, keys, role).impi
    ensures s.impu <= AddKeys(s, keys, role).impu
    ensures (forall k :: k in keys ==> s.Has(k, role) && k in s.all) <==> AddKeys(s, keys, role) == s
    decreases |keys|
  {
    if keys != [] {
      var t := Added(s, keys[0], role);
      AddKeysGrows(t, keys[1..], role);
      assert forall k :: k in keys <==> k == keys[0] || k in keys[1..];
      if s.Has(keys[0], role) && keys[0] in s.all {
        assert t == s;
      } else {
        assert |t.all| > |s.all| || |t.impi| > |s.impi| || |t.impu| > |s.impu|;
        var u := AddKeys(t, keys[1..], role);
        assert u != s;
      }
    }
  }

  /** What adding a whole set does: the union, role by role, and no list repeated. */
  lemma AddAllHas(s: Ids, t: Ids)
    ensures forall k, r :: AddAll(s, t).Has(k, r) <==> s.Has(k, r) || t.Has(k, r)
    ensures Covered(t) ==> forall k :: k in AddAll(s, t).all <==> k in s.all || k in t.all
    ensures Listed(s) ==> Listed(AddAll(s, t))
    ensures Covered(s) ==> Covered(AddAll(s, t))
  {
    var u := AddKeys(s, t.impi, Impi);
    AddKeysHas(s, t.impi, Impi);
    AddKeysHas(u, t.impu, Impu);
    AddKeysListed(s, t.impi, Impi);
    AddKeysListed(u, t.impu, Impu);
    forall k, r ensures AddAll(s, t).Has(k, r) <==> s.Has(k, r) || t.Has(k, r) {
      assert AddAll(s, t).Has(k, r) <==> u.Has(k, r) || (r == Impu && k in t.impu);
      assert u.Has(k, r) <==> s.Has(k, r) || (r == Impi && k in t.impi);
    }
  }

  /** Adding changes nothing exactly when nothing is new. */
  lemma AddAllSame(s: Ids, t: Ids)
    requires Covered(s)
    ensures AddAll(s, t) == s <==> forall k, r :: t.Has(k, r) ==> s.Has(k, r)
  {
    var u := AddKeys(s, t.impi, Impi);
    AddKeysGrows(s, t.impi, Impi);
    AddKeysGrows(u, t.impu, Impu);
    AddAllHas(s, t);
    if forall k, r :: t.Has(k, r) ==> s.Has(k, r) {
      forall k | k in t.impi ensures s.Has(k, Impi) && k in s.all {
        assert t.Has(k, Impi);
      }
      assert u == s;
      forall k | k in t.impu ensures s.Has(k, Impu) && k in s.all {
        assert t.Has(k, Impu);
      }
    }
  }

  /** The table behind an identity set, with the lookups that keep its lists free of
      repeats beside the lists themselves. */
  class IdSet {
    var all: seq<Key>
    var seen: set<Key>
    var impi: seq<Key>
    var impu: seq<Key>
    var roleImpi: set<Key>
    var roleImpu: set<Key>

    ghost predicate Valid()
      reads this
    {
      && (forall k :: k in seen <==> k in all)
      && (forall k :: k in roleImpi <==> k in impi)
      && (forall k :: k in roleImpu <==> k in impu)
    }

    ghost function Value(): Ids
      reads this
    {
      Ids(all, impi, impu)
    }

    constructor ()
      ensures Valid() && Value() == NoIds
    {
      all, impi, impu := [], [], [];
      seen, roleImpi, roleImpu := {}, {}, {};
    }

    method Push(key: Key)
      requires Valid()
      modifies this
      ensures Valid()
      ensures Value() == old(Value()).(all := Pushed(old(all), key))
    {
      if key !in seen {
        seen := seen + {key};
        all := all + [key];
      }
    }

    /** Files `key` under `role`, and says whether that was new. */
    method Add(key: Key, role: Role) returns (isNew: bool)
      requires Valid()
      modifies this
      ensures Valid()
      ensures Value() == Added(old(Value()), key, role)
      ensures isNew <==> !old(Value()).Has(key, role)
    {
      if role.Impi? {
        isNew := key !in roleImpi;
        if isNew {
          roleImpi := roleImpi + {key};
          impi := impi + [key];
        }
      } else {
        isNew := key !in roleImpu;
        if isNew {
          roleImpu := roleImpu + {key};
          impu := impu + [key];
        }
      }
      Push(key);
    }

    function List(role: Role): seq<Key>
      reads this
    {
      if role.Impi? then impi else impu
    }

    /** Copies the keys of one role of another set into this one. */
    method AddList(keys: seq<Key>, role: Role)
      requires Valid()
      modifies this
      ensures Valid() && Value() == AddKeys(old(Value()), keys, role)
    {
      var i := 0;
      while i < |keys|
        invariant 0 <= i <= |keys|
        invariant Valid()
        invariant AddKeys(Value(), keys[i..], role) == AddKeys(old(Value()), keys, role)
      {
        AddKeysFrom(Value(), keys, i, role);
        var _ := Add(keys[i], role);
        i := i + 1;
      }
    }
  }
}
