/** `relate` of plugins/ims.lua over the shared class tables, proved against the
    widening by value. It reads them and grows nothing but the set it hands out. */
module ImsWidening {
  import opened ImsSets
  import opened ImsBinding
  import opened ImsRelate
  import opened ImsPlugin

  ghost function Values(tables: seq<IdSet>): seq<Ids>
    reads tables
  {
    seq(|tables|, i requires 0 <= i < |tables| reads tables => tables[i].Value())
  }

  function RoleSize(s: Ids): nat {
    |s.impi| + |s.impu|
  }

  /** Files an identity unless it is refused the role, and says whether it is new. */
  method Keep(out: IdSet, barred: set<Key>, private: set<Key>, key: Key, role: Role) returns (added: bool)
    requires out.Valid()
    modifies out
    ensures out.Valid() && out.Value() == Kept(old(out.Value()), barred, private, key, role)
    ensures added <==> RoleSize(out.Value()) > RoleSize(old(out.Value()))
    ensures RoleSize(out.Value()) >= RoleSize(old(out.Value()))
  {
    if role == Impu && (key in barred || key in private) {
      out.Push(key);
      added := false;
    } else {
      added := out.Add(key, role);
    }
  }

  method KeepList(out: IdSet, barred: set<Key>, private: set<Key>, keys: seq<Key>, role: Role)
      returns (added: bool)
    requires out.Valid()
    modifies out
    ensures out.Valid() && out.Value() == KeepKeys(old(out.Value()), barred, private, keys, role)
    ensures added <==> RoleSize(out.Value()) > RoleSize(old(out.Value()))
    ensures RoleSize(out.Value()) >= RoleSize(old(out.Value()))
  {
    added := false;
    ghost var was := out.Value();
    var i := 0;
    while i < |keys|
      invariant 0 <= i <= |keys|
      invariant out.Valid()
      invariant KeepKeys(out.Value(), barred, private, keys[i..], role) == KeepKeys(was, barred, private, keys, role)
      invariant added <==> RoleSize(out.Value()) > RoleSize(was)
      invariant RoleSize(out.Value()) >= RoleSize(was)
    {
      assert keys[i..][1..] == keys[i + 1..];
      var more := Keep(out, barred, private, keys[i], role);
      added := added || more;
      i := i + 1;
    }
  }

  method KeepTable(out: IdSet, barred: set<Key>, private: set<Key>, table: IdSet) returns (added: bool)
    requires out.Valid() && table != out
    modifies out
    ensures out.Valid() && out.Value() == KeepSet(old(out.Value()), barred, private, table.Value())
    ensures added <==> RoleSize(out.Value()) > RoleSize(old(out.Value()))
    ensures RoleSize(out.Value()) >= RoleSize(old(out.Value()))
  {
    added := KeepList(out, barred, private, table.impi, Impi);
    var more := KeepList(out, barred, private, table.impu, Impu);
    added := added || more;
  }

  method KeepTables(out: IdSet, barred: set<Key>, private: set<Key>, tables: seq<IdSet>) returns (added: bool)
    requires out.Valid() && out !in tables
    modifies out
    ensures out.Valid() && out.Value() == KeepClasses(old(out.Value()), barred, private, Values(tables))
    ensures added <==> RoleSize(out.Value()) > RoleSize(old(out.Value()))
  {
    added := false;
    ghost var was, values := out.Value(), Values(tables);
    var i := 0;
    while i < |tables|
      invariant 0 <= i <= |tables|
      invariant out.Valid() && Values(tables) == values
      invariant KeepClasses(out.Value(), barred, private, values[i..]) == KeepClasses(was, barred, private, values)
      invariant added <==> RoleSize(out.Value()) > RoleSize(was)
      invariant RoleSize(out.Value()) >= RoleSize(was)
    {
      assert values[i..][1..] == values[i + 1..];
      assert values[i] == tables[i].Value();
      var more := KeepTable(out, barred, private, tables[i]);
      added := added || more;
      i := i + 1;
    }
  }

  method ReachKey(subs: Subscribers, key: Key, tables: seq<IdSet>) returns (all: seq<IdSet>)
    requires subs.Valid() && Tables(subs, tables)
    ensures Tables(subs, all)
    ensures Values(all) == Classes(subs.View(), [key], Values(tables))
  {
    all := tables;
    if key in subs.classOf {
      var cls := subs.classOf[key];
      SameTable(subs, all, key);
      if cls !in all {
        all := all + [cls];
        assert Values(all) == Values(tables) + [cls.Value()];
      }
    }
  }

  /** The distinct tables the keys lead to, each once. */
  method Reach(subs: Subscribers, keys: seq<Key>, tables: seq<IdSet>) returns (all: seq<IdSet>)
    requires subs.Valid() && Tables(subs, tables)
    ensures Tables(subs, all)
    ensures Values(all) == Classes(subs.View(), keys, Values(tables))
  {
    all := tables;
    ghost var b := subs.View();
    var i := 0;
    while i < |keys|
      invariant 0 <= i <= |keys|
      invariant Tables(subs, all)
      invariant Classes(b, keys[i..], Values(all)) == Classes(b, keys, Values(tables))
    {
      ClassesStep(b, keys, i, Values(all));
      all := ReachKey(subs, keys[i], all);
      i := i + 1;
    }
  }

  lemma ClassesStep(b: Binding, keys: seq<Key>, i: nat, acc: seq<Ids>)
    requires i < |keys|
    ensures Classes(b, keys[i..], acc) == Classes(b, keys[i + 1..], Classes(b, [keys[i]], acc))
  {
    assert keys[i..][1..] == keys[i + 1..] && [keys[i]][1..] == [];
  }

  method ReachAll(subs: Subscribers, observed: IdSet) returns (tables: seq<IdSet>)
    requires subs.Valid()
    ensures forall t :: t in tables ==> t in subs.Classes
    ensures Values(tables) == Reached(subs.View(), observed.Value())
  {
    assert Values([]) == [];
    tables := Reach(subs, observed.impi, []);
    tables := Reach(subs, observed.impu, tables);
  }

  ghost predicate Tables(subs: Subscribers, tables: seq<IdSet>)
    reads subs, subs.Classes
  {
    forall t :: t in tables ==> exists k :: k in subs.classOf && subs.classOf[k] == t && t in subs.Classes
  }

  /** Two tables in use never hold the same identities. */
  lemma SameTable(subs: Subscribers, tables: seq<IdSet>, key: Key)
    requires subs.Valid() && Tables(subs, tables) && key in subs.classOf
    ensures subs.classOf[key] in tables <==> subs.View()[key] in Values(tables)
  {
    var cls, values := subs.classOf[key], Values(tables);
    if cls in tables {
      var i :| 0 <= i < |tables| && tables[i] == cls;
      assert values[i] == cls.Value();
    }
    if cls.Value() in values {
      var i :| 0 <= i < |values| && values[i] == cls.Value();
      assert tables[i] in tables;
      var k :| k in subs.classOf && subs.classOf[k] == tables[i];
      assert key in cls.all;
      assert key in tables[i].all;
      assert subs.classOf[key] == tables[i];
    }
  }

  method PrivateKeys(observed: IdSet, tables: seq<IdSet>) returns (private: set<Key>)
    ensures private == KeySet(observed.impi) + PrivateOf(Values(tables))
  {
    private := set k | k in observed.impi;
    ghost var values := Values(tables);
    var i := 0;
    while i < |tables|
      invariant 0 <= i <= |tables|
      invariant private == KeySet(observed.impi) + PrivateOf(values[..i])
    {
      assert values[i] == tables[i].Value();
      assert PrivateOf(values[..i + 1]) == PrivateOf(values[..i]) + KeySet(tables[i].impi) by {
        assert forall c :: c in values[..i + 1] <==> c in values[..i] || c == values[i];
      }
      private := private + set k | k in tables[i].impi;
      i := i + 1;
    }
    assert values[..i] == values;
  }

  method KeepAll(observed: IdSet, tables: seq<IdSet>, barred: set<Key>, private: set<Key>)
      returns (out: IdSet, related: bool)
    requires observed.Valid()
    ensures fresh(out) && out.Valid()
    ensures var own := KeepSet(NoIds, barred, private, observed.Value());
      && out.Value() == KeepClasses(own, barred, private, Values(tables))
      && (related <==> RoleSize(out.Value()) > RoleSize(own))
  {
    ghost var values := Values(tables);
    out := new IdSet();
    var _ := KeepTable(out, barred, private, observed);
    assert Values(tables) == values;
    related := KeepTables(out, barred, private, tables);
    assert Values(tables) == values;
  }

  /** Widening adds a role to a key exactly when it makes the lists longer. */
  lemma RelatedBySize(b: Binding, barred: set<Key>, observed: Ids)
    ensures Related(b, barred, observed) <==>
      RoleSize(Widen(b, barred, observed)) > RoleSize(Own(b, barred, observed))
  {
    KeepClassesHas(Own(b, barred, observed), barred, Private(b, observed), Reached(b, observed));
  }

  /** The widened set of a frame in a new table, and the flag that goes with it. */
  method Relate(subs: Subscribers, barred: set<Key>, observed: IdSet) returns (out: IdSet, related: bool)
    requires subs.Valid() && observed.Valid()
    ensures fresh(out) && out.Valid()
    ensures out.Value() == Widen(subs.View(), barred, observed.Value())
    ensures related <==> Related(subs.View(), barred, observed.Value())
  {
    ghost var b, o := subs.View(), observed.Value();
    var tables := ReachAll(subs, observed);
    var private := PrivateKeys(observed, tables);
    assert private == Private(b, o);
    out, related := KeepAll(observed, tables, barred, private);
    assert subs.View() == b && observed.Value() == o;
    RelatedBySize(b, barred, o);
  }
}
