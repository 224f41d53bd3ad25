/** A dissection session of plugins/ims.lua by value: which frames bind, which borrow,
    what is cached of each, and when a cached widening may be used again. */
module ImsMachine {
  import opened Options
  import opened ImsSets
  import opened ImsBinding
  import opened ImsClosure
  import opened ImsRelate

  // -------------------------------------------------------------- User-Data --

  datatype Element = PrivateId | PublicIdentity | Identity | BarringIndication | OtherElement

  /** One item of the Cx User-Data walk: a tag, or a text read both as an xs:boolean
      and as a normalized identity. */
  datatype Item = Open(element: Element) | Close | Text(flag: bool, key: Option<Key>)

  /** The walk so far: the element the next text belongs to, whether the identity to
      come is barred, and what the frame, the barred keys and `gen` have become. */
  datatype Reading = Reading(current: Option<Element>, barring: bool,
                             observed: Ids, barred: set<Key>, gen: nat)

  function ReadText(r: Reading, flag: bool, key: Option<Key>): Reading {
    if r.current == Some(BarringIndication) then r.(barring := flag)
    else if r.current.None? || key.None? then r
    else if r.current == Some(PrivateId) then r.(observed := Added(r.observed, key.value, Impi))
    else
      var learnt := r.barring && key.value !in r.barred;
      r.(observed := Added(r.observed, key.value, Impu),
         barred := if r.barring then r.barred + {key.value} else r.barred,
         gen := if learnt then r.gen + 1 else r.gen)
  }

  function ReadItem(r: Reading, item: Item): Reading {
    match item
    case Open(element) =>
      r.(current := if element in {PrivateId, Identity, BarringIndication} then Some(element) else None,
         barring := if element.PublicIdentity? then false else r.barring)
    case Close => r.(current := None)
    case Text(flag, key) => ReadText(r, flag, key)
  }

  function ReadItems(r: Reading, items: seq<Item>): Reading
    decreases |items|
  {
    if items == [] then r else ReadItems(ReadItem(r, items[0]), items[1..])
  }

  /** Items of elements the walk has no use for. */
  predicate OfNoUse(items: seq<Item>) {
    forall i :: 0 <= i < |items| && items[i].Open? ==> items[i].element.OtherElement?
  }

  /** A <PublicIdentity> of a User-Data document: barred or not, if it says, and who; and
      whatever else stands in it, before, between and after. */
  datatype Public = Public(before: seq<Item>, barring: Option<bool>, between: seq<Item>, key: Key, after: seq<Item>)

  predicate InOrder(p: Public) {
    OfNoUse(p.before) && OfNoUse(p.between) && OfNoUse(p.after)
  }

  function BarringItems(p: Public): seq<Item> {
    if p.barring.Some? then [Open(BarringIndication), Text(p.barring.value, None), Close] else []
  }

  function NamingItems(p: Public): seq<Item> {
    [Open(Identity), Text(false, Some(p.key)), Close]
  }

  function PublicItems(p: Public): seq<Item> {
    [Open(PublicIdentity)] + (p.before + (BarringItems(p) + (p.between + (NamingItems(p) + (p.after + [Close])))))
  }

  function PublicsItems(ps: seq<Public>): seq<Item> {
    if ps == [] then [] else PublicItems(ps[0]) + PublicsItems(ps[1..])
  }

  function BarredBy(ps: seq<Public>): set<Key> {
    set p | p in ps && p.barring == Some(true) :: p.key
  }

  lemma {:induction false} ReadItemsAppend(r: Reading, items: seq<Item>, more: seq<Item>)
    ensures ReadItems(r, items + more) == ReadItems(ReadItems(r, items), more)
    decreases |items|
  {
    if items == [] {
      assert items + more == more;
    } else {
      assert (items + more)[1..] == items[1..] + more;
      ReadItemsAppend(ReadItem(r, items[0]), items[1..], more);
    }
  }

  lemma {:induction false} ReadOfNoUse(r: Reading, items: seq<Item>)
    requires OfNoUse(items) && r.current.None?
    ensures ReadItems(r, items) == r
    decreases |items|
  {
    if items != [] {
      assert items[0].Open? ==> items[0].element.OtherElement?;
      ReadOfNoUse(ReadItem(r, items[0]), items[1..]);
    }
  }

  lemma PassOver(r: Reading, items: seq<Item>, more: seq<Item>)
    requires OfNoUse(items) && r.current.None?
    ensures ReadItems(r, items + more) == ReadItems(r, more)
  {
    ReadItemsAppend(r, items, more);
    ReadOfNoUse(r, items);
  }

  lemma ReadPublic(r: Reading, p: Public)
    requires InOrder(p)
    ensures var s := ReadItems(r, PublicItems(p));
      && s.current == None
      && s.observed == Added(r.observed, p.key, Impu)
      && s.barred == r.barred + (if p.barring == Some(true) then {p.key} else {})
      && s.gen >= r.gen && (s.gen == r.gen <==> s.barred == r.barred)
  {
    var named := NamingItems(p) + (p.after + [Close]);
    var flagged := BarringItems(p) + (p.between + named);
    var q := r.(current := None, barring := false);
    assert PublicItems(p)[1..] == p.before + flagged;
    PassOver(q, p.before, flagged);
    var z := q.(barring := p.barring == Some(true));
    ReadBarring(q, p, p.between + named);
    PassOver(z, p.between, named);
    ReadNamed(z, p);
  }

  lemma ReadBarring(r: Reading, p: Public, more: seq<Item>)
    requires r.current.None? && !r.barring
    ensures ReadItems(r, BarringItems(p) + more) == ReadItems(r.(barring := p.barring == Some(true)), more)
  {
    ReadItemsAppend(r, BarringItems(p), more);
    if p.barring.Some? {
      ReadThree(r, BarringItems(p));
    }
  }

  lemma ReadNamed(r: Reading, p: Public)
    requires r.current.None? && OfNoUse(p.after)
    ensures ReadItems(r, NamingItems(p) + (p.after + [Close]))
      == ReadText(r.(current := Some(Identity)), false, Some(p.key)).(current := None)
  {
    var s := ReadText(r.(current := Some(Identity)), false, Some(p.key)).(current := None);
    ReadItemsAppend(r, NamingItems(p), p.after + [Close]);
    ReadThree(r, NamingItems(p));
    PassOver(s, p.after, [Close]);
    assert ReadItems(s, [Close]) == ReadItems(ReadItem(s, Close), []);
  }

  lemma ReadThree(r: Reading, items: seq<Item>)
    requires |items| == 3
    ensures ReadItems(r, items) == ReadItem(ReadItem(ReadItem(r, items[0]), items[1]), items[2])
  {
    var r1 := ReadItem(r, items[0]);
    var r2 := ReadItem(r1, items[1]);
    assert ReadItems(r, items) == ReadItems(r1, items[1..]);
    assert ReadItems(r1, items[1..]) == ReadItems(r2, items[1..][1..]);
    assert items[1..][1..] == [items[2]];
    assert ReadItems(r2, [items[2]]) == ReadItems(ReadItem(r2, items[2]), []);
  }

  ghost predicate AllInOrder(ps: seq<Public>) {
    forall i :: 0 <= i < |ps| ==> InOrder(ps[i])
  }

  ghost predicate Names(ps: seq<Public>, key: Key) {
    exists p :: p in ps && p.key == key
  }

  lemma OneMorePublic(p: Public, ps: seq<Public>)
    ensures BarredBy([p] + ps) == (if p.barring == Some(true) then {p.key} else {}) + BarredBy(ps)
    ensures forall k :: Names([p] + ps, k) <==> k == p.key || Names(ps, k)
  {
    assert forall q :: q in [p] + ps <==> q == p || q in ps;
  }

  /** Every identity of the set has been read under the public role, and the barred ones are
      exactly those whose own element says so. */
  ghost predicate ReadAll(r: Reading, s: Reading, ps: seq<Public>) {
    && (forall k, x :: s.observed.Has(k, x) <==> r.observed.Has(k, x) || (x == Impu && Names(ps, k)))
    && s.barred == r.barred + BarredBy(ps)
    && s.gen >= r.gen && (s.gen == r.gen <==> s.barred == r.barred)
  }

  lemma ReadOneMore(r: Reading, t: Reading, s: Reading, p: Public, ps: seq<Public>)
    requires t.observed == Added(r.observed, p.key, Impu)
    requires t.barred == r.barred + (if p.barring == Some(true) then {p.key} else {})
    requires t.gen >= r.gen && (t.gen == r.gen <==> t.barred == r.barred) && ReadAll(t, s, ps)
    ensures ReadAll(r, s, [p] + ps)
  {
    OneMorePublic(p, ps);
  }

  /** A whole implicit registration set, with whatever else stands in it. */
  lemma {:induction false} ReadPublics(r: Reading, ps: seq<Public>)
    requires AllInOrder(ps)
    ensures ReadAll(r, ReadItems(r, PublicsItems(ps)), ps)
    decreases |ps|
  {
    if ps == [] {
      assert ReadItems(r, []) == r;
    } else {
      var t := ReadItems(r, PublicItems(ps[0]));
      ReadPublic(r, ps[0]);
      ReadItemsAppend(r, PublicItems(ps[0]), PublicsItems(ps[1..]));
      ReadPublics(t, ps[1..]);
      ReadOneMore(r, t, ReadItems(t, PublicsItems(ps[1..])), ps[0], ps[1..]);
      assert ps == [ps[0]] + ps[1..];
    }
  }

  // ------------------------------------------------------------------ state --

  datatype Widened = Unread | Wide(ids: Ids, related: bool, gen: nat)

  datatype Entry = Entry(observed: Ids, linked: bool, widened: Widened)

  /** What is cached of a frame: that it says nothing, or what it said. */
  datatype Slot = Nothing | Seen(entry: Entry)

  /** `bound` is the history of binding messages since the last reset. */
  datatype State = State(binding: Binding, barred: set<Key>, bySession: map<string, Ids>,
                         cache: map<nat, Slot>, gen: nat, bound: seq<Ids>)

  function Fresh(gen: nat): State {
    State(map[], {}, map[], map[], gen, [])
  }

  function UniteIn(st: State, observed: Ids): State {
    var next := Unite(st.binding, observed);
    st.(binding := next,
        gen := if next != st.binding || observed.Empty() then st.gen + 1 else st.gen,
        bound := st.bound + [observed])
  }

  /** What a frame offers the readers: normalized identities under their roles, and
      the rest of what decides how it is read. */
  datatype Frame =
    | Diameter(commands: nat, spelled: seq<(Key, Role)>, userData: seq<Item>, sessions: seq<string>)
    | Sip(spelled: seq<(Key, Role)>, register: bool)
    | Media(setup: nat)
    | Silent

  function AddPairs(s: Ids, pairs: seq<(Key, Role)>): Ids
    decreases |pairs|
  {
    if pairs == [] then s else AddPairs(Added(s, pairs[0].0, pairs[0].1), pairs[1..])
  }

  /** The identities remembered for the sessions an answer names. */
  function Recall(bySession: map<string, Ids>, sessions: seq<string>, s: Ids): Ids
    decreases |sessions|
  {
    if sessions == [] then s
    else Recall(bySession, sessions[1..],
                if sessions[0] in bySession then AddAll(s, bySession[sessions[0]]) else s)
  }

  function ReadDiameter(st: State, f: Frame): (State, Entry)
    requires f.Diameter?
  {
    var r := ReadItems(Reading(None, false, AddPairs(NoIds, f.spelled), st.barred, st.gen), f.userData);
    var read := st.(barred := r.barred, gen := r.gen);
    if r.observed.Empty() then
      var recalled := Recall(st.bySession, f.sessions, r.observed);
      (read, Entry(recalled, !recalled.Empty(), Unread))
    else
      var kept := if |f.sessions| == 1
                  then read.(bySession := read.bySession[f.sessions[0] := r.observed]) else read;
      (if f.commands == 1 then UniteIn(kept, r.observed) else kept, Entry(r.observed, false, Unread))
  }

  function ReadSip(st: State, f: Frame): (State, Entry)
    requires f.Sip?
  {
    var observed := AddPairs(NoIds, f.spelled);
    (if f.register then UniteIn(st, observed) else st, Entry(observed, false, Unread))
  }

  /** What a media frame borrows from its setup frame, and whether that is still to be
      read: it is complete only if the setup frame said something already. */
  function ReadMedia(st: State, f: Frame): (Entry, bool)
    requires f.Media?
  {
    if f.setup in st.cache && st.cache[f.setup].Seen? then
      var borrowed := AddAll(NoIds, st.cache[f.setup].entry.observed);
      (Entry(borrowed, !borrowed.Empty(), Unread), false)
    else (Entry(NoIds, false, Unread), true)
  }

  /** The widening an entry carries once its identities have been asked for. */
  function Refreshed(st: State, entry: Entry): Entry {
    if entry.widened.Wide? && entry.widened.gen == st.gen then entry
    else entry.(widened := Wide(Widen(st.binding, st.barred, entry.observed),
                                Related(st.binding, st.barred, entry.observed), st.gen))
  }

  /** The state after a frame has been read for the first time, with its entry and
      whether that is to be kept. */
  function ReadFrame(st: State, f: Frame): (State, Slot, bool) {
    match f
    case Diameter(_, _, _, _) => var (next, entry) := ReadDiameter(st, f); (next, Seen(entry), true)
    case Sip(_, _) => var (next, entry) := ReadSip(st, f); (next, Seen(entry), true)
    case Media(_) => var (entry, partial) := ReadMedia(st, f); (st, Seen(entry), !partial)
    case Silent => (st, Nothing, true)
  }

  /** One call of the dissector on frame `number`: the state it leaves and what it
      shows, with the identities widened if anything asked for them. */
  function Look(st: State, number: nat, f: Frame, ids: bool): (State, Slot) {
    var (read, slot, keep) :=
      if number in st.cache then (st, st.cache[number], true) else ReadFrame(st, f);
    var shown := if slot.Seen? && ids then Seen(Refreshed(read, slot.entry)) else slot;
    (if keep then read.(cache := read.cache[number := shown]) else read, shown)
  }

  /** The first half of a call: what is cached of the frame, read and kept first if
      nothing is. */
  function Fetched(st: State, number: nat, f: Frame): (State, Slot, bool) {
    var (read, slot, keep) :=
      if number in st.cache then (st, st.cache[number], true) else ReadFrame(st, f);
    (if keep then read.(cache := read.cache[number := slot]) else read, slot, keep)
  }

  /** The second half: the identities, if they are asked for. */
  function Showing(st: State, number: nat, slot: Slot, keep: bool, ids: bool): (State, Slot) {
    if slot.Seen? && ids then
      var shown := Seen(Refreshed(st, slot.entry));
      (if keep then st.(cache := st.cache[number := shown]) else st, shown)
    else (st, slot)
  }

  lemma LookInHalves(st: State, number: nat, f: Frame, ids: bool)
    ensures var (next, slot, keep) := Fetched(st, number, f);
      Look(st, number, f, ids) == Showing(next, number, slot, keep, ids)
  {
    var (read, slot, keep) :=
      if number in st.cache then (st, st.cache[number], true) else ReadFrame(st, f);
    if keep && slot.Seen? && ids {
      var shown := Seen(Refreshed(read, slot.entry));
      assert read.cache[number := slot][number := shown] == read.cache[number := shown];
    }
  }

  datatype Event = Reset | Dissect(number: nat, frame: Frame, ids: bool)

  function Step(st: State, e: Event): State {
    match e
    case Reset => Fresh(st.gen + 1)
    case Dissect(number, frame, ids) => Look(st, number, frame, ids).0
  }

  /** A session from the moment the plugin is loaded. */
  function Run(events: seq<Event>): State {
    if events == [] then Fresh(1) else Step(Run(events[..|events| - 1]), events[|events| - 1])
  }

  // -------------------------------------------------------------- invariant --

  /** The widening is the one a fresh look through the classes would give. */
  ghost predicate Exact(st: State, entry: Entry) {
    && Covered(entry.observed)
    && (entry.widened.Wide? ==> entry.widened.gen <= st.gen)
    && (entry.widened.Wide? && entry.widened.gen == st.gen ==>
          && entry.widened.ids == Widen(st.binding, st.barred, entry.observed)
          && entry.widened.related == Related(st.binding, st.barred, entry.observed))
  }

  ghost predicate Cached(st: State) {
    forall n :: n in st.cache && st.cache[n].Seen? ==> Exact(st, st.cache[n].entry)
  }

  ghost predicate Inv(st: State) {
    && AllCovered(st.bound)
    && st.binding == Bind(st.bound)
    && Partition(st.binding)
    && (forall s :: s in st.bySession ==> Covered(st.bySession[s]))
    && Cached(st)
  }

  /** `gen` standing still means that nothing the widening reads has moved. */
  ghost predicate Advanced(st: State, next: State) {
    && st.gen <= next.gen
    && (st.gen == next.gen ==> next.binding == st.binding && next.barred == st.barred)
  }

  /** `next` is a later moment of the same session, with no reset in between. */
  ghost predicate Later(st: State, next: State) {
    Grown(st.binding, next.binding) && st.barred <= next.barred && Advanced(st, next)
  }

  lemma AdvancedKeepsCache(st: State, next: State)
    requires Cached(st) && Advanced(st, next) && next.cache == st.cache
    ensures Cached(next)
  {
    forall n | n in next.cache && next.cache[n].Seen? ensures Exact(next, next.cache[n].entry) {
      assert Exact(st, st.cache[n].entry);
    }
  }

  lemma {:induction false} AddPairsCovered(s: Ids, pairs: seq<(Key, Role)>)
    requires Covered(s)
    ensures Covered(AddPairs(s, pairs))
    decreases |pairs|
  {
    if pairs != [] {
      AddKeysListed(s, [pairs[0].0], pairs[0].1);
      assert AddKeys(s, [pairs[0].0], pairs[0].1) == Added(s, pairs[0].0, pairs[0].1);
      AddPairsCovered(Added(s, pairs[0].0, pairs[0].1), pairs[1..]);
    }
  }

  lemma {:induction false} ReadItemsKeep(r: Reading, items: seq<Item>)
    requires Covered(r.observed)
    ensures var s := ReadItems(r, items);
      && Covered(s.observed) && r.barred <= s.barred && r.gen <= s.gen
      && (r.gen == s.gen ==> r.barred == s.barred)
    decreases |items|
  {
    if items != [] {
      var t := ReadItem(r, items[0]);
      assert Covered(t.observed) by {
        if items[0].Text? && items[0].key.Some? {
          AddPairsCovered(r.observed, [(items[0].key.value, Impi)]);
          AddPairsCovered(r.observed, [(items[0].key.value, Impu)]);
          assert AddPairs(r.observed, [(items[0].key.value, Impi)]) == Added(r.observed, items[0].key.value, Impi);
          assert AddPairs(r.observed, [(items[0].key.value, Impu)]) == Added(r.observed, items[0].key.value, Impu);
        }
      }
      ReadItemsKeep(t, items[1..]);
    }
  }

  lemma {:induction false} RecallCovered(bySession: map<string, Ids>, sessions: seq<string>, s: Ids)
    requires Covered(s)
    ensures Covered(Recall(bySession, sessions, s))
    decreases |sessions|
  {
    if sessions != [] {
      var t := if sessions[0] in bySession then AddAll(s, bySession[sessions[0]]) else s;
      if sessions[0] in bySession {
        AddAllHas(s, bySession[sessions[0]]);
      }
      RecallCovered(bySession, sessions[1..], t);
    }
  }

  lemma UniteInInv(st: State, observed: Ids)
    requires Inv(st) && Covered(observed)
    ensures Inv(UniteIn(st, observed))
    ensures Advanced(st, UniteIn(st, observed))
    ensures Grown(st.binding, UniteIn(st, observed).binding)
  {
    var next := UniteIn(st, observed);
    assert next.bound[..|next.bound| - 1] == st.bound;
    UniteKeepsPartition(st.binding, observed);
    UniteGrows(st.binding, observed);
    AdvancedKeepsCache(st, next);
  }

  /** Reading a frame keeps the invariant, and what it learns only adds. */
  ghost predicate GoodRead(st: State, next: State, entry: Entry) {
    && Inv(next) && next.cache == st.cache
    && Later(st, next)
    && Covered(entry.observed) && entry.widened.Unread?
  }

  lemma ReadDiameterInv(st: State, f: Frame)
    requires Inv(st) && f.Diameter?
    ensures GoodRead(st, ReadDiameter(st, f).0, ReadDiameter(st, f).1)
  {
    AddPairsCovered(NoIds, f.spelled);
    var r0 := Reading(None, false, AddPairs(NoIds, f.spelled), st.barred, st.gen);
    var r := ReadItems(r0, f.userData);
    ReadItemsKeep(r0, f.userData);
    var read := st.(barred := r.barred, gen := r.gen);
    AdvancedKeepsCache(st, read);
    if r.observed.Empty() {
      RecallCovered(st.bySession, f.sessions, r.observed);
    } else {
      RequestInv(read, f, r.observed);
    }
  }

  /** What a request leaves behind, once it is read. */
  lemma RequestInv(read: State, f: Frame, observed: Ids)
    requires Inv(read) && f.Diameter? && Covered(observed)
    ensures var kept := if |f.sessions| == 1
                        then read.(bySession := read.bySession[f.sessions[0] := observed]) else read;
      var next := if f.commands == 1 then UniteIn(kept, observed) else kept;
      Inv(next) && next.cache == read.cache && Later(read, next)
  {
    var kept := if |f.sessions| == 1
                then read.(bySession := read.bySession[f.sessions[0] := observed]) else read;
    AdvancedKeepsCache(read, kept);
    UniteInInv(kept, observed);
  }

  lemma ReadFrameInv(st: State, f: Frame)
    requires Inv(st)
    ensures var (next, slot, keep) := ReadFrame(st, f);
      && Inv(next) && next.cache == st.cache && Later(st, next)
      && (slot.Seen? ==> GoodRead(st, next, slot.entry))
  {
    match f
    case Diameter(_, _, _, _) =>
      ReadDiameterInv(st, f);
    case Sip(spelled, register) =>
      AddPairsCovered(NoIds, spelled);
      UniteInInv(st, AddPairs(NoIds, spelled));
    case Media(setup) =>
      if setup in st.cache && st.cache[setup].Seen? {
        AddAllHas(NoIds, st.cache[setup].entry.observed);
      }
    case Silent =>
  }

  lemma LookInv(st: State, number: nat, f: Frame, ids: bool)
    requires Inv(st)
    ensures Inv(Look(st, number, f, ids).0)
    ensures Later(st, Look(st, number, f, ids).0)
  {
    if number in st.cache {
      assert st.cache[number].Seen? ==> Exact(st, st.cache[number].entry);
      CacheOne(st, number, if st.cache[number].Seen? && ids then Seen(Refreshed(st, st.cache[number].entry))
                           else st.cache[number]);
    } else {
      ReadFrameInv(st, f);
      var (read, slot, _) := ReadFrame(st, f);
      CacheOne(read, number, if slot.Seen? && ids then Seen(Refreshed(read, slot.entry)) else slot);
    }
  }

  /** Caching what is exact keeps everything as it should be. */
  lemma CacheOne(st: State, number: nat, slot: Slot)
    requires Inv(st) && (slot.Seen? ==> Exact(st, slot.entry))
    ensures Inv(st.(cache := st.cache[number := slot]))
    ensures Later(st, st.(cache := st.cache[number := slot]))
  {
  }

  lemma {:induction false} RunInv(events: seq<Event>)
    ensures Inv(Run(events))
    decreases |events|
  {
    if events != [] {
      var before, e := Run(events[..|events| - 1]), events[|events| - 1];
      RunInv(events[..|events| - 1]);
      if e.Dissect? {
        LookInv(before, e.number, e.frame, e.ids);
      }
    }
  }

  // ---------------------------------------------------------------- theorems --

  /** In every reachable state, a cached widening that may be used again is the one a
      fresh look would give. */
  lemma CacheIsExact(events: seq<Event>, n: nat)
    requires n in Run(events).cache && Run(events).cache[n].Seen?
    requires Run(events).cache[n].entry.widened.Wide?
    requires Run(events).cache[n].entry.widened.gen == Run(events).gen
    ensures var st, e := Run(events), Run(events).cache[n].entry;
      && e.widened.ids == Widen(st.binding, st.barred, e.observed)
      && e.widened.related == Related(st.binding, st.barred, e.observed)
  {
    RunInv(events);
    assert Exact(Run(events), Run(events).cache[n].entry);
  }

  /** So what a frame shows is always what the classes of that moment say of it,
      however often and in whatever order frames have been looked at before. */
  lemma ShownIsFresh(events: seq<Event>, number: nat, f: Frame)
    requires Look(Run(events), number, f, true).1.Seen?
    ensures var (st, shown) := Look(Run(events), number, f, true);
      && shown.entry.widened.Wide?
      && shown.entry.widened.ids == Widen(st.binding, st.barred, shown.entry.observed)
      && shown.entry.widened.related == Related(st.binding, st.barred, shown.entry.observed)
  {
    var before := Run(events);
    RunInv(events);
    if number in before.cache {
      assert Exact(before, before.cache[number].entry);
    } else {
      ReadFrameInv(before, f);
    }
  }

  /** In every reachable state the classes are the closure of the messages bound since
      the last reset. */
  lemma RunIsClosure(events: seq<Event>)
    ensures ClosureOf(Run(events).binding, Run(events).bound)
  {
    RunInv(events);
    BindIsClosure(Run(events).bound);
  }

  lemma LaterStep(st: State, mid: State, e: Event)
    requires Later(st, mid) && Inv(mid) && e.Dissect?
    ensures Later(st, Step(mid, e))
  {
    LookInv(mid, e.number, e.frame, e.ids);
    var next := Step(mid, e);
    forall k | k in st.binding
      ensures k in next.binding && forall j, r :: st.binding[k].Has(j, r) ==> next.binding[k].Has(j, r)
    {
      assert k in mid.binding;
    }
  }

  lemma RunNext(events: seq<Event>, e: Event, all: seq<Event>)
    requires all == events + [e]
    ensures Run(all) == Step(Run(events), e)
  {
    assert all[..|all| - 1] == events;
  }

  lemma {:induction false} RunExtends(events: seq<Event>, more: seq<Event>)
    requires Reset !in more
    ensures Later(Run(events), Run(events + more))
    decreases |more|
  {
    if more == [] {
      assert events + more == events;
    } else {
      var n := |more| - 1;
      RunExtends(events, more[..n]);
      RunInv(events + more[..n]);
      assert more[n] in more;
      RunNext(events + more[..n], more[n], events + more);
      LaterStep(Run(events), Run(events + more[..n]), more[n]);
    }
  }

  /** Between resets a frame's identities and private identities only grow, and a
      public one is lost only by being barred or turning out to be private. */
  lemma FrameOnlyGrows(events: seq<Event>, more: seq<Event>, observed: Ids)
    requires Reset !in more && Covered(observed)
    ensures var a, c := Run(events), Run(events + more);
      var v, w := Widen(a.binding, a.barred, observed), Widen(c.binding, c.barred, observed);
      && (forall k :: k in v.all ==> k in w.all)
      && (forall k :: k in v.impi ==> k in w.impi)
      && (forall k :: k in v.impu ==> (k !in w.impu <==> k in c.barred || k in w.impi))
  {
    RunInv(events);
    RunInv(events + more);
    RunExtends(events, more);
    var a, c := Run(events), Run(events + more);
    WidenGrows(a.binding, c.binding, a.barred, c.barred, observed);
  }
}
