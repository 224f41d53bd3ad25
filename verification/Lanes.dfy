/** The order of the lanes of the flow diagram (src/web/app.js). */
module Lanes {
  type Address = string

  // ------------------------------------------------------------------- lists --

  predicate Distinct(s: seq<Address>) {
    forall i, j :: 0 <= i < j < |s| ==> s[i] != s[j]
  }

  /** The addresses of one list that another has, and those it has not, in order. */
  function Within(s: seq<Address>, other: seq<Address>): (r: seq<Address>)
    ensures forall a :: a in r <==> a in s && a in other
  {
    if s == [] then []
    else
      var n := |s| - 1;
      Within(s[..n], other) + (if s[n] in other then [s[n]] else [])
  }

  function Without(s: seq<Address>, other: seq<Address>): (r: seq<Address>)
    ensures forall a :: a in r <==> a in s && a !in other
  {
    if s == [] then []
    else
      var n := |s| - 1;
      Without(s[..n], other) + (if s[n] !in other then [s[n]] else [])
  }

  /** Where the lanes belong: first those the reader has arranged and that are there, in
      the order they were put in, and then the rest as they were first seen. */
  function Layout(order: seq<Address>, seen: seq<Address>): seq<Address> {
    Within(order, seen) + Without(seen, order)
  }

  // -------------------------------------------------------------------- rank --

  /** Where an address is in the arranged order, or past the end of it. */
  function Rank(order: seq<Address>, a: Address): (r: nat)
    ensures r <= |order| && (r < |order| <==> a in order)
    ensures r < |order| ==> order[r] == a
  {
    if order == [] then 0
    else
      var n := |order| - 1;
      if a in order[..n] then Rank(order[..n], a)
      else if order[n] == a then n
      else |order|
  }

  lemma {:induction false} RankIs(order: seq<Address>, i: nat)
    requires Distinct(order) && i < |order|
    ensures Rank(order, order[i]) == i
  {
    var r := Rank(order, order[i]);
    assert order[r] == order[i];
  }

  /** Where a stable sort puts one more address: after all those of no greater rank. */
  function Insert(s: seq<Address>, a: Address, order: seq<Address>): (r: seq<Address>)
    ensures forall x :: x in r <==> x in s || x == a
  {
    if s == [] then [a]
    else
      var n := |s| - 1;
      if Rank(order, s[n]) <= Rank(order, a) then s + [a] else Insert(s[..n], a, order) + [s[n]]
  }

  function StableSort(s: seq<Address>, order: seq<Address>): (r: seq<Address>)
    ensures forall x :: x in r <==> x in s
  {
    if s == [] then [] else Insert(StableSort(s[..|s| - 1], order), s[|s| - 1], order)
  }

  predicate Sorted(s: seq<Address>, order: seq<Address>) {
    forall i, j :: 0 <= i < j < |s| ==> Rank(order, s[i]) <= Rank(order, s[j])
  }

  /** The addresses of one rank, in order. */
  function OfRank(s: seq<Address>, order: seq<Address>, rank: nat): seq<Address> {
    if s == [] then []
    else
      var n := |s| - 1;
      OfRank(s[..n], order, rank) + (if Rank(order, s[n]) == rank then [s[n]] else [])
  }

  lemma OfRankMore(s: seq<Address>, a: Address, order: seq<Address>, rank: nat)
    ensures OfRank(s + [a], order, rank) == OfRank(s, order, rank) + (if Rank(order, a) == rank then [a] else [])
  {
    assert (s + [a])[..|s|] == s;
  }

  lemma {:induction false} InsertSorts(s: seq<Address>, a: Address, order: seq<Address>)
    requires Sorted(s, order)
    ensures Sorted(Insert(s, a, order), order)
    decreases |s|
  {
    if s != [] && Rank(order, s[|s| - 1]) > Rank(order, a) {
      var n := |s| - 1;
      var t := Insert(s[..n], a, order);
      InsertSorts(s[..n], a, order);
      assert forall x :: x in s[..n] ==> Rank(order, x) <= Rank(order, s[n]);
      forall i | 0 <= i < |t| ensures Rank(order, t[i]) <= Rank(order, s[n]) {
        assert t[i] in t;
      }
    }
  }

  lemma {:induction false} InsertStable(s: seq<Address>, a: Address, order: seq<Address>, rank: nat)
    ensures Sorted(s, order) ==> OfRank(Insert(s, a, order), order, rank) == OfRank(s + [a], order, rank)
    decreases |s|
  {
    OfRankMore(s, a, order, rank);
    if s != [] && Rank(order, s[|s| - 1]) > Rank(order, a) {
      var n := |s| - 1;
      InsertStable(s[..n], a, order, rank);
      assert s == s[..n] + [s[n]];
      StableOver(s[..n], s[n], a, order, rank);
    }
  }

  lemma StableOver(init: seq<Address>, last: Address, a: Address, order: seq<Address>, rank: nat)
    requires Rank(order, last) > Rank(order, a)
    requires Sorted(init, order) ==> OfRank(Insert(init, a, order), order, rank) == OfRank(init + [a], order, rank)
    ensures Sorted(init + [last], order) ==>
      OfRank(Insert(init + [last], a, order), order, rank) == OfRank(init + [last] + [a], order, rank)
  {
    InsertBefore(init, last, a, order);
    OfRankMore(init, a, order, rank);
    OfRankMore(init, last, order, rank);
    OfRankMore(init + [last], a, order, rank);
    OfRankMore(Insert(init, a, order), last, order, rank);
    if Sorted(init + [last], order) {
      assert forall i :: 0 <= i < |init| ==> (init + [last])[i] == init[i];
    }
  }

  /** It sorts by rank, and keeps addresses of one rank as they were. */
  lemma {:induction false} StableSorts(s: seq<Address>, order: seq<Address>, rank: nat)
    ensures Sorted(StableSort(s, order), order)
    ensures OfRank(StableSort(s, order), order, rank) == OfRank(s, order, rank)
  {
    if s != [] {
      var n := |s| - 1;
      StableSorts(s[..n], order, rank);
      InsertSorts(StableSort(s[..n], order), s[n], order);
      InsertStable(StableSort(s[..n], order), s[n], order, rank);
      OfRankMore(StableSort(s[..n], order), s[n], order, rank);
    }
  }

  lemma {:induction false} SortSorted(s: seq<Address>, order: seq<Address>)
    requires Sorted(s, order)
    ensures StableSort(s, order) == s
  {
    if s != [] {
      var n := |s| - 1;
      SortSorted(s[..n], order);
      assert s == s[..n] + [s[n]];
    }
  }

  // --------------------------------------------------------- where one goes --

  lemma {:induction false} WithoutMore(seen: seq<Address>, a: Address, order: seq<Address>)
    ensures Without(seen + [a], order) == Without(seen, order) + (if a in order then [] else [a])
  {
    assert (seen + [a])[..|seen|] == seen;
  }

  /** Without `a`, what is within either list is the same. */
  lemma {:induction false} WithinSame(s: seq<Address>, seen: seq<Address>, a: Address)
    requires a !in s
    ensures Within(s, seen + [a]) == Within(s, seen)
  {
    if s != [] {
      WithinSame(s[..|s| - 1], seen, a);
    }
  }

  lemma WithinMore(init: seq<Address>, last: Address, other: seq<Address>)
    ensures Within(init + [last], other) == Within(init, other) + (if last in other then [last] else [])
  {
    assert (init + [last])[..|init|] == init;
  }

  /** An address of the arranged order goes where that order has it. */
  lemma {:induction false} InsertKnown(prefix: seq<Address>, order: seq<Address>, seen: seq<Address>, a: Address)
    requires Distinct(order) && prefix <= order && a in prefix && a !in seen
    ensures Insert(Within(prefix, seen), a, order) == Within(prefix, seen + [a])
  {
    var n := |prefix| - 1;
    var last, init := prefix[n], prefix[..n];
    assert prefix == init + [last];
    if last == a {
      LastIsNew(init, a, order, seen);
    } else {
      InsertKnown(init, order, seen, a);
      StepOver(init, last, order, seen, a);
    }
  }

  lemma StepOver(init: seq<Address>, last: Address, order: seq<Address>, seen: seq<Address>, a: Address)
    requires Distinct(order) && init + [last] <= order && a in init && last != a
    requires Insert(Within(init, seen), a, order) == Within(init, seen + [a])
    ensures Insert(Within(init + [last], seen), a, order) == Within(init + [last], seen + [a])
  {
    WithinMore(init, last, seen);
    WithinMore(init, last, seen + [a]);
    if last in seen {
      RankIs(order, |init|);
      RankBefore(order, init, a);
      assert order[|init|] == last;
      InsertBefore(Within(init, seen), last, a, order);
    } else {
      assert Within(init + [last], seen) == Within(init, seen);
    }
  }

  lemma LastIsNew(init: seq<Address>, a: Address, order: seq<Address>, seen: seq<Address>)
    requires Distinct(order) && init + [a] <= order && a !in seen
    ensures Insert(Within(init + [a], seen), a, order) == Within(init + [a], seen + [a])
  {
    NotBefore(init, a, order);
    WithinMore(init, a, seen);
    WithinMore(init, a, seen + [a]);
    WithinSame(init, seen, a);
    InsertLast(Within(init, seen), a, order, init);
    assert Within(init + [a], seen) == Within(init, seen);
  }

  lemma NotBefore(init: seq<Address>, a: Address, order: seq<Address>)
    requires Distinct(order) && init + [a] <= order
    ensures a !in init
  {
    assert forall i :: 0 <= i < |init| ==> init[i] == order[i];
    assert order[|init|] == a;
  }

  lemma InsertBefore(s: seq<Address>, last: Address, a: Address, order: seq<Address>)
    requires Rank(order, last) > Rank(order, a)
    ensures Insert(s + [last], a, order) == Insert(s, a, order) + [last]
  {
    assert (s + [last])[..|s|] == s;
  }

  /** What comes earlier in the order has a smaller rank. */
  lemma RankBefore(order: seq<Address>, init: seq<Address>, a: Address)
    requires Distinct(order) && init <= order && a in init
    ensures Rank(order, a) < |init|
  {
    var i :| 0 <= i < |init| && init[i] == a;
    RankIs(order, i);
  }

  lemma InsertLast(s: seq<Address>, a: Address, order: seq<Address>, init: seq<Address>)
    requires Distinct(order) && init + [a] <= order && forall x :: x in s ==> x in init
    ensures Insert(s, a, order) == s + [a]
  {
    RankIs(order, |init|);
    assert order[|init|] == a;
    if s != [] {
      assert s[|s| - 1] in s;
      RankBefore(order, init, s[|s| - 1]);
    }
  }

  /** It passes over those the order does not know. */
  lemma {:induction false} InsertPasses(s: seq<Address>, tail: seq<Address>, a: Address, order: seq<Address>)
    requires a in order && forall x :: x in tail ==> x !in order
    ensures Insert(s + tail, a, order) == Insert(s, a, order) + tail
  {
    if tail == [] {
      assert s + tail == s && Insert(s, a, order) + tail == Insert(s, a, order);
    } else {
      var n := |tail| - 1;
      assert tail[n] in tail;
      assert (s + tail)[..|s + tail| - 1] == s + tail[..n];
      InsertPasses(s, tail[..n], a, order);
      assert tail == tail[..n] + [tail[n]];
    }
  }

  /** Sorting one more address in keeps the layout. */
  lemma InsertKeepsLayout(order: seq<Address>, seen: seq<Address>, a: Address)
    requires Distinct(order) && a !in seen
    ensures Insert(Layout(order, seen), a, order) == Layout(order, seen + [a])
  {
    WithoutMore(seen, a, order);
    if a in order {
      InsertPasses(Within(order, seen), Without(seen, order), a, order);
      InsertKnown(order, order, seen, a);
    } else {
      WithinSame(order, seen, a);
      InsertUnknown(Within(order, seen) + Without(seen, order), a, order);
      Regroup(Within(order, seen), Without(seen, order), [a]);
    }
  }

  lemma InsertUnknown(s: seq<Address>, a: Address, order: seq<Address>)
    requires a !in order
    ensures Insert(s, a, order) == s + [a]
  {
  }

  lemma {:induction false} LayoutSorted(order: seq<Address>, seen: seq<Address>)
    requires Distinct(order) && Distinct(seen)
    ensures StableSort(Layout(order, seen), order) == Layout(order, seen)
  {
    WithinSorted(order, order, seen);
    var known, rest := Within(order, seen), Without(seen, order);
    var all := known + rest;
    forall i, j | 0 <= i < j < |all| ensures Rank(order, all[i]) <= Rank(order, all[j]) {
      if j >= |known| {
        assert all[j] in rest;
      }
    }
    SortSorted(all, order);
  }

  lemma {:induction false} WithinSorted(prefix: seq<Address>, order: seq<Address>, seen: seq<Address>)
    requires Distinct(order) && prefix <= order
    ensures Sorted(Within(prefix, seen), order)
  {
    if prefix != [] {
      var n := |prefix| - 1;
      var init := prefix[..n];
      WithinSorted(init, order, seen);
      RankIs(order, n);
      forall x | x in Within(init, seen) ensures Rank(order, x) < n {
        RankBefore(order, init, x);
      }
    }
  }

  /** Sorting the lanes again after more have been seen puts every one where it belongs. */
  lemma {:induction false} SortKeepsLayout(order: seq<Address>, seen: seq<Address>, more: seq<Address>)
    requires Distinct(order) && Distinct(seen + more)
    ensures StableSort(Layout(order, seen) + more, order) == Layout(order, seen + more)
    decreases |more|
  {
    if more == [] {
      assert seen + more == seen && Layout(order, seen) + more == Layout(order, seen);
      LayoutSorted(order, seen);
    } else {
      var n := |more| - 1;
      var init := more[..n];
      LastSeen(seen, init, more[n], more);
      SortKeepsLayout(order, seen, init);
      SortOneMore(Layout(order, seen), init, more[n], more, order);
      InsertKeepsLayout(order, seen + init, more[n]);
    }
  }

  lemma LastSeen(seen: seq<Address>, init: seq<Address>, a: Address, more: seq<Address>)
    requires more == init + [a] && Distinct(seen + more)
    ensures seen + more == (seen + init) + [a] && Distinct(seen + init) && a !in seen + init
  {
    var all, n := seen + more, |seen + init|;
    assert seen + init == all[..n] && all[n] == a;
  }

  lemma SortOneMore(s: seq<Address>, init: seq<Address>, a: Address, more: seq<Address>, order: seq<Address>)
    requires more == init + [a]
    ensures StableSort(s + more, order) == Insert(StableSort(s + init, order), a, order)
  {
    assert s + more == (s + init) + [a];
    assert ((s + init) + [a])[..|s + init|] == s + init;
  }

  /** The arranged lanes come back in their order whatever order the pages bring them in. */
  lemma {:induction false} ArrangedWhicheverWay(order: seq<Address>, seen: seq<Address>, other: seq<Address>)
    requires forall a :: a in order ==> (a in seen <==> a in other)
    ensures Within(order, seen) == Within(order, other)
  {
    if order != [] {
      ArrangedWhicheverWay(order[..|order| - 1], seen, other);
    }
  }

  // ----------------------------------------------------------- moving a lane --

  /** One lane taken out and put in at another place, or at the end. */
  function Moved(s: seq<Address>, at: nat, to: nat): seq<Address>
    requires at < |s|
  {
    var rest := s[..at] + s[at + 1..];
    var t := if to > |rest| then |rest| else to;
    rest[..t] + [s[at]] + rest[t..]
  }

  lemma {:induction false} WithoutAppend(a: seq<Address>, b: seq<Address>, other: seq<Address>)
    ensures Without(a + b, other) == Without(a, other) + Without(b, other)
  {
    if b == [] {
      assert a + b == a && Without(a, other) + [] == Without(a, other);
    } else {
      var n := |b| - 1;
      WithoutAppend(a, b[..n], other);
      assert b == b[..n] + [b[n]];
      assert a + b == (a + b[..n]) + [b[n]];
      WithoutMore(a + b[..n], b[n], other);
      WithoutMore(b[..n], b[n], other);
      Regroup(Without(a, other), Without(b[..n], other), if b[n] in other then [] else [b[n]]);
    }
  }

  lemma Regroup(p: seq<Address>, q: seq<Address>, t: seq<Address>)
    ensures (p + q) + t == p + (q + t)
  {
  }

  lemma {:induction false} WithoutNothing(s: seq<Address>, other: seq<Address>)
    requires forall a :: a in s ==> a !in other
    ensures Without(s, other) == s
  {
    if s != [] {
      WithoutNothing(s[..|s| - 1], other);
      assert s == s[..|s| - 1] + [s[|s| - 1]];
    }
  }

  /** The lane lands where it was put, and all the others keep their order. */
  lemma MovesOne(s: seq<Address>, at: nat, to: nat)
    requires Distinct(s) && at < |s|
    ensures Distinct(Moved(s, at, to)) && forall x :: x in Moved(s, at, to) <==> x in s
    ensures |Moved(s, at, to)| == |s| && Moved(s, at, to)[if to < |s| then to else |s| - 1] == s[at]
    ensures Without(Moved(s, at, to), [s[at]]) == Without(s, [s[at]])
  {
    var r := s[..at] + s[at + 1..];
    var t := if to > |r| then |r| else to;
    MovesBetween(s, s[..at], s[at + 1..], s[at], t);
  }

  lemma MovesBetween(s: seq<Address>, x: seq<Address>, y: seq<Address>, a: Address, t: nat)
    requires s == x + [a] + y && Distinct(s) && t <= |x + y|
    ensures var moved := (x + y)[..t] + [a] + (x + y)[t..];
      && Distinct(moved) && |moved| == |s| && moved[t] == a
      && (forall z :: z in moved <==> z in s) && Without(moved, [a]) == Without(s, [a])
  {
    var r := x + y;
    var v, w := r[..t], r[t..];
    assert r == v + w;
    PutIn(x, y, a);
    PutIn(v, w, a);
  }

  /** Whatever place it is put in, what is around it is the same. */
  lemma PutIn(x: seq<Address>, y: seq<Address>, a: Address)
    ensures Distinct(x + [a] + y) <==> Distinct(x + y) && a !in x + y
    ensures forall z :: z in x + [a] + y <==> z in x + y || z == a
    ensures Without(x + [a] + y, [a]) == Without(x + y, [a])
  {
    PutInDistinct(x, y, a);
    PutInWithout(x, y, a);
  }

  lemma PutInWithout(x: seq<Address>, y: seq<Address>, a: Address)
    ensures Without(x + [a] + y, [a]) == Without(x + y, [a])
  {
    var p, q := Without(x, [a]), Without(y, [a]);
    WithoutAppend(x + [a], y, [a]);
    WithoutAppend(x, y, [a]);
    WithoutItself(x, a);
    assert Without((x + [a]) + y, [a]) == p + q;
  }

  lemma WithoutItself(x: seq<Address>, a: Address)
    ensures Without(x + [a], [a]) == Without(x, [a])
  {
    assert (x + [a])[..|x|] == x;
  }

  lemma PutInDistinct(x: seq<Address>, y: seq<Address>, a: Address)
    ensures Distinct(x + [a] + y) <==> Distinct(x + y) && a !in x + y
  {
    var s, r, n := x + [a] + y, x + y, |x|;
    if Distinct(s) {
      forall i, j | 0 <= i < j < |r| ensures r[i] != r[j] {
        assert r[i] == s[if i < n then i else i + 1] && r[j] == s[if j < n then j else j + 1];
      }
      forall i | 0 <= i < |r| ensures r[i] != a {
        assert r[i] == s[if i < n then i else i + 1] && s[n] == a;
      }
    }
    if Distinct(r) && a !in r {
      forall i, j | 0 <= i < j < |s| ensures s[i] != s[j] {
        assert s[i] == if i == n then a else r[if i < n then i else i - 1];
        assert s[j] == if j == n then a else r[if j < n then j else j - 1];
      }
    }
  }

  /** After a move the arranged order is the lanes as they stand. */
  lemma {:induction false} LayoutOfItself(s: seq<Address>, seen: seq<Address>)
    requires forall a :: a in s <==> a in seen
    ensures Layout(s, seen) == s
  {
    WithinAll(s, seen);
    WithoutAll(seen, s);
  }

  lemma MovedLayout(s: seq<Address>, seen: seq<Address>, at: nat, to: nat)
    requires Distinct(s) && at < |s| && forall a :: a in s <==> a in seen
    ensures Distinct(Moved(s, at, to)) && Layout(Moved(s, at, to), seen) == Moved(s, at, to)
  {
    MovesOne(s, at, to);
    LayoutOfItself(Moved(s, at, to), seen);
  }

  lemma {:induction false} WithinAll(s: seq<Address>, seen: seq<Address>)
    requires forall a :: a in s ==> a in seen
    ensures Within(s, seen) == s
  {
    if s != [] {
      WithinAll(s[..|s| - 1], seen);
      assert s == s[..|s| - 1] + [s[|s| - 1]];
    }
  }

  lemma {:induction false} WithoutAll(s: seq<Address>, other: seq<Address>)
    requires forall a :: a in s ==> a in other
    ensures Without(s, other) == []
  {
    if s != [] {
      WithoutAll(s[..|s| - 1], other);
    }
  }

  // --------------------------------------------------------------- the lanes --

  /** The lanes of the diagram. `seen` is every address of the pages fetched since they
      were last thrown away, as first seen. */
  class Diagram {
    var nodes: seq<Address>
    var node: map<Address, nat>
    var order: seq<Address>
    ghost var seen: seq<Address>

    ghost predicate Valid()
      reads this
    {
      && Distinct(seen) && Distinct(order)
      && nodes == Layout(order, seen) && Inverse(node, nodes)
    }

    constructor ()
      ensures Valid() && nodes == [] && order == []
    {
      nodes, node, order, seen := [], map[], [], [];
    }

    method Renumber()
      modifies `node
      requires Distinct(nodes)
      ensures Inverse(node, nodes)
    {
      node := map[];
      for i := 0 to |nodes|
        invariant Inverse(node, nodes[..i])
      {
        assert nodes[..i + 1] == nodes[..i] + [nodes[i]];
        assert nodes[i] !in nodes[..i];
        node := node[nodes[i] := i];
      }
      assert nodes[..|nodes|] == nodes;
    }

    method Arrange(ghost all: seq<Address>)
      requires Distinct(order) && Distinct(all) && Distinct(nodes) && Inverse(node, nodes)
      requires order == [] ==> nodes == Layout(order, all)
      requires StableSort(nodes, order) == Layout(order, all)
      modifies `nodes, `node
      ensures nodes == Layout(order, all) && Inverse(node, nodes)
    {
      if order == [] {
        return;
      }
      nodes := StableSort(nodes, order);
      LayoutDistinct(order, all);
      Renumber();
    }

    /** The lanes a page of frames adds. */
    method Nodes(rows: seq<(Address, Address)>)
      requires Valid()
      modifies this
      ensures Valid() && order == old(order) && seen == Sight(old(seen), Spelled(rows))
    {
      ghost var before := seen;
      LayoutDistinct(order, seen);
      LayoutMembers(order, seen);
      var added, more := SeeRows(rows);
      SortKeepsLayout(order, before, more);
      if added {
        NoneArranged(order, before, more);
        Arrange(seen);
      } else {
        assert before + more == before;
      }
    }

    /** New lanes at the end, as addresses not seen before come up. */
    ghost predicate Growing(base: seq<Address>, before: seq<Address>, more: seq<Address>, added: bool)
      reads `nodes, `node, `seen
    {
      && seen == before + more && Distinct(seen) && (added <==> more != [])
      && nodes == base + more && Inverse(node, nodes) && Distinct(nodes)
      && forall x :: x in nodes <==> x in seen
    }

    method SeeRows(rows: seq<(Address, Address)>) returns (added: bool, ghost more: seq<Address>)
      requires Distinct(seen) && Inverse(node, nodes) && Distinct(nodes) && forall x :: x in nodes <==> x in seen
      modifies `nodes, `node, `seen
      ensures Growing(old(nodes), old(seen), more, added) && seen == Sight(old(seen), Spelled(rows))
    {
      ghost var before, base := seen, nodes;
      added, more := false, [];
      for i := 0 to |rows|
        invariant Growing(base, before, more, added) && seen == Sight(before, Spelled(rows[..i]))
      {
        assert rows[..i + 1][..i] == rows[..i];
        SightTwo(before, Spelled(rows[..i]), rows[i].0, rows[i].1);
        more, added := See(rows[i].0, base, before, more, added);
        more, added := See(rows[i].1, base, before, more, added);
      }
      assert rows[..|rows|] == rows;
    }

    method See(a: Address, ghost base: seq<Address>, ghost before: seq<Address>,
               ghost more: seq<Address>, added: bool)
        returns (ghost now: seq<Address>, still: bool)
      requires Growing(base, before, more, added)
      modifies `nodes, `node, `seen
      ensures Growing(base, before, now, still) && seen == Sight(old(seen), [a])
    {
      now, still := more, added;
      SightOne(seen, a);
      if a == "" || a in node {
        return;
      }
      Appends(base, more, a);
      Appends(before, more, a);
      AddsInverse(node, nodes, a);
      node := node[a := |nodes|];
      nodes := nodes + [a];
      seen := seen + [a];
      now, still := more + [a], true;
    }

    /** A lane dragged to another place. */
    method Place(a: Address, to: nat)
      requires Valid()
      modifies this
      ensures Valid() && seen == old(seen)
      ensures a in old(nodes) && old(node)[a] != to ==> nodes == Moved(old(nodes), old(node)[a], to) && order == nodes
      ensures !(a in old(nodes) && old(node)[a] != to) ==> nodes == old(nodes) && order == old(order)
    {
      assert Inverse(node, nodes);
      if a !in node || node[a] == to {
        return;
      }
      LayoutDistinct(order, seen);
      LayoutMembers(order, seen);
      MovedLayout(nodes, seen, node[a], to);
      Settle(Moved(nodes, node[a], to));
    }

    /** The lanes in another order, which is the arranged order from now on. */
    method Settle(moved: seq<Address>)
      requires Distinct(seen) && Distinct(moved) && Layout(moved, seen) == moved
      modifies `nodes, `node, `order
      ensures Valid() && nodes == moved && order == moved
    {
      nodes := moved;
      Renumber();
      order := nodes;
    }

    /** The pages thrown away, and the lanes with them, but not how they were arranged. */
    method Rewind()
      requires Valid()
      modifies this
      ensures Valid() && nodes == [] && order == old(order) && seen == []
    {
      nodes, node, seen := [], map[], [];
      NothingSeen(order);
    }

    /** Another capture: nothing is arranged. */
    method Forget()
      requires Valid()
      modifies this
      ensures Valid() && nodes == [] && order == []
    {
      order, nodes, node, seen := [], [], map[], [];
    }
  }

  ghost predicate Inverse(node: map<Address, nat>, nodes: seq<Address>) {
    && (forall a :: a in node <==> a in nodes)
    && forall i :: 0 <= i < |nodes| ==> nodes[i] in node && node[nodes[i]] == i
  }

  /** The addresses of rows, in the order a page spells them. */
  function Spelled(rows: seq<(Address, Address)>): seq<Address> {
    if rows == [] then [] else Spelled(rows[..|rows| - 1]) + [rows[|rows| - 1].0, rows[|rows| - 1].1]
  }

  /** What is seen once more addresses have been spelled: each once, where it was first. */
  function Sight(seen: seq<Address>, spelled: seq<Address>): seq<Address> {
    if spelled == [] then seen
    else
      var so, a := Sight(seen, spelled[..|spelled| - 1]), spelled[|spelled| - 1];
      if a == "" || a in so then so else so + [a]
  }

  lemma SightOne(seen: seq<Address>, a: Address)
    ensures Sight(seen, [a]) == if a == "" || a in seen then seen else seen + [a]
  {
    assert [a][..0] == [];
  }

  lemma Appends(x: seq<Address>, y: seq<Address>, a: Address)
    ensures x + y + [a] == x + (y + [a])
  {
  }

  lemma AddsInverse(node: map<Address, nat>, nodes: seq<Address>, a: Address)
    requires Inverse(node, nodes) && Distinct(nodes) && a !in node
    ensures Inverse(node[a := |nodes|], nodes + [a]) && Distinct(nodes + [a])
  {
  }

  lemma SightTwo(seen: seq<Address>, spelled: seq<Address>, a: Address, b: Address)
    ensures Sight(seen, spelled + [a, b]) == Sight(Sight(Sight(seen, spelled), [a]), [b])
  {
    assert (spelled + [a, b])[..|spelled| + 1] == spelled + [a];
    assert (spelled + [a])[..|spelled|] == spelled;
    assert [a][..0] == [] && [b][..0] == [];
  }

  lemma {:induction false} LayoutOfNone(seen: seq<Address>)
    ensures Layout([], seen) == seen
  {
    WithoutNothing(seen, []);
  }

  /** Where nothing has been arranged, the lanes are as they were seen. */
  lemma NoneArranged(order: seq<Address>, before: seq<Address>, more: seq<Address>)
    ensures order == [] ==> Layout(order, before) + more == Layout(order, before + more)
  {
    LayoutOfNone(before);
    LayoutOfNone(before + more);
  }

  lemma {:induction false} NothingSeen(order: seq<Address>)
    ensures Layout(order, []) == []
  {
    if order != [] {
      NothingSeen(order[..|order| - 1]);
    }
  }

  lemma LayoutMembers(order: seq<Address>, seen: seq<Address>)
    ensures forall a :: a in Layout(order, seen) <==> a in seen
  {
  }

  lemma LayoutDistinct(order: seq<Address>, seen: seq<Address>)
    requires Distinct(order) && Distinct(seen)
    ensures Distinct(Layout(order, seen))
  {
    WithinDistinct(order, seen);
    WithoutDistinct(seen, order);
    var known, rest := Within(order, seen), Without(seen, order);
    forall i, j | 0 <= i < |known| && 0 <= j < |rest| ensures known[i] != rest[j] {
      assert known[i] in known && rest[j] in rest;
    }
  }

  lemma {:induction false} WithinDistinct(s: seq<Address>, other: seq<Address>)
    requires Distinct(s)
    ensures Distinct(Within(s, other))
  {
    if s != [] {
      WithinDistinct(s[..|s| - 1], other);
    }
  }

  lemma {:induction false} WithoutDistinct(s: seq<Address>, other: seq<Address>)
    requires Distinct(s)
    ensures Distinct(Without(s, other))
  {
    if s != [] {
      WithoutDistinct(s[..|s| - 1], other);
    }
  }

  // ----------------------------------------------------------- first sights --

  /** The addresses of a page by place: the source of a frame and then its destination. */
  function At(rows: seq<(Address, Address)>, place: nat): Address
    requires place < 2 * |rows|
  {
    if place % 2 == 0 then rows[place / 2].0 else rows[place / 2].1
  }

  /** Where an address is first on a page. */
  predicate FirstAt(rows: seq<(Address, Address)>, a: Address, place: nat) {
    && place < 2 * |rows| && At(rows, place) == a
    && forall p: nat :: p < place ==> At(rows, p) != a
  }

  lemma {:induction false} SpelledAt(rows: seq<(Address, Address)>)
    ensures |Spelled(rows)| == 2 * |rows|
    ensures forall p: nat :: p < 2 * |rows| ==> Spelled(rows)[p] == At(rows, p)
    decreases |rows|
  {
    if rows != [] {
      var n := |rows| - 1;
      SpelledAt(rows[..n]);
      assert Spelled(rows) == Spelled(rows[..n]) + [rows[n].0, rows[n].1];
      forall p: nat | p < 2 * |rows| ensures Spelled(rows)[p] == At(rows, p) {
        if p < 2 * n {
          EarlierAt(rows, n, p);
        } else {
          LastAt(rows, n, p);
        }
      }
    }
  }

  lemma EarlierAt(rows: seq<(Address, Address)>, n: nat, p: nat)
    requires n <= |rows| && p < 2 * n
    ensures At(rows[..n], p) == At(rows, p)
  {
  }

  lemma LastAt(rows: seq<(Address, Address)>, n: nat, p: nat)
    requires n == |rows| - 1 && 2 * n <= p < 2 * |rows|
    ensures At(rows, p) == if p == 2 * n then rows[n].0 else rows[n].1
  {
  }

  /** One address is spelled before another ever is. */
  ghost predicate SpelledFirst(spelled: seq<Address>, a: Address, b: Address) {
    exists p :: 0 <= p < |spelled| && spelled[p] == a && b !in spelled[..p + 1]
  }

  /** What is seen grows at its end, by what is spelled and new, each once and in the order of
      first sight. */
  ghost predicate SeenAfter(seen: seq<Address>, spelled: seq<Address>, now: seq<Address>) {
    && seen <= now
    && (forall a :: a in now <==> a in seen || (a != "" && a in spelled))
    && (forall i, j :: 0 <= i < j < |now| && j >= |seen| ==> now[i] != now[j])
    && forall i, j :: |seen| <= i < j < |now| ==> SpelledFirst(spelled, now[i], now[j])
  }

  lemma {:induction false} SightIs(seen: seq<Address>, spelled: seq<Address>)
    ensures SeenAfter(seen, spelled, Sight(seen, spelled))
    decreases |spelled|
  {
    if spelled != [] {
      var n := |spelled| - 1;
      SightIs(seen, spelled[..n]);
      assert spelled == spelled[..n] + [spelled[n]];
      SightMore(seen, spelled[..n], spelled[n], Sight(seen, spelled[..n]));
    }
  }

  lemma SightMore(seen: seq<Address>, init: seq<Address>, a: Address, so: seq<Address>)
    requires SeenAfter(seen, init, so)
    ensures SeenAfter(seen, init + [a], if a == "" || a in so then so else so + [a])
  {
    var spelled, now := init + [a], if a == "" || a in so then so else so + [a];
    forall i, j | |seen| <= i < j < |now| ensures SpelledFirst(spelled, now[i], now[j]) {
      if j < |so| {
        StillFirst(init, a, so[i], so[j]);
      } else {
        NewFirst(seen, init, so, i, a);
      }
    }
  }

  lemma StillFirst(init: seq<Address>, a: Address, x: Address, y: Address)
    requires SpelledFirst(init, x, y)
    ensures SpelledFirst(init + [a], x, y)
  {
    var p :| 0 <= p < |init| && init[p] == x && y !in init[..p + 1];
    assert (init + [a])[p] == x && (init + [a])[..p + 1] == init[..p + 1];
  }

  /** A new address is spelled before one that is not seen at all. */
  lemma NewFirst(seen: seq<Address>, init: seq<Address>, so: seq<Address>, i: nat, a: Address)
    requires SeenAfter(seen, init, so) && |seen| <= i < |so| && a != "" && a !in so
    ensures SpelledFirst(init + [a], so[i], a)
  {
    assert so[i] in so;
    assert so[i] !in seen by {
      assert forall j :: 0 <= j < |seen| ==> seen[j] == so[j];
    }
    var p :| 0 <= p < |init| && init[p] == so[i];
    assert (init + [a])[p] == so[i] && (init + [a])[..p + 1] == init[..p + 1];
  }

  /** So the lanes of a page are the addresses that were there, and its own as first seen, the
      source of a frame before its destination. */
  lemma PageSeen(seen: seq<Address>, rows: seq<(Address, Address)>)
    ensures var now := Sight(seen, Spelled(rows));
      && seen <= now
      && (forall a :: a in now <==> a in seen || (a != "" && exists r :: r in rows && (r.0 == a || r.1 == a)))
      && forall i, j, p: nat, q: nat ::
           |seen| <= i < j < |now| && FirstAt(rows, now[i], p) && FirstAt(rows, now[j], q) ==> p < q
  {
    var spelled, now := Spelled(rows), Sight(seen, Spelled(rows));
    SightIs(seen, spelled);
    forall a ensures a in spelled <==> exists r :: r in rows && (r.0 == a || r.1 == a) {
      SpelledIn(rows, a);
    }
    forall i, j, p: nat, q: nat | |seen| <= i < j < |now| && FirstAt(rows, now[i], p) && FirstAt(rows, now[j], q)
      ensures p < q
    {
      FirstIsFirst(rows, now[i], now[j], p, q);
    }
  }

  lemma FirstIsFirst(rows: seq<(Address, Address)>, a: Address, b: Address, p: nat, q: nat)
    requires SpelledFirst(Spelled(rows), a, b) && FirstAt(rows, a, p) && FirstAt(rows, b, q)
    ensures p < q
  {
    var spelled := Spelled(rows);
    SpelledAt(rows);
    var k: nat :| k < |spelled| && spelled[k] == a && b !in spelled[..k + 1];
    assert At(rows, k) == a;
    forall i: nat | i <= k ensures spelled[i] != b {
      assert spelled[..k + 1][i] == spelled[i];
    }
  }

  lemma {:induction false} SpelledIn(rows: seq<(Address, Address)>, a: Address)
    ensures a in Spelled(rows) <==> exists r :: r in rows && (r.0 == a || r.1 == a)
    decreases |rows|
  {
    if rows != [] {
      var n := |rows| - 1;
      SpelledIn(rows[..n], a);
      assert rows == rows[..n] + [rows[n]];
    }
  }
}
