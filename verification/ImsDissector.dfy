/** The entry points of plugins/ims.lua over its shared tables: what one call of the
    dissector does to them is one step of the session by value. */
module ImsDissector {
  import opened Options
  import opened ImsSets
  import opened ImsMachine
  import opened ImsPlugin
  import opened ImsWidening

  /** What is kept of one frame. `ids` is null until they have been asked for. */
  class Record {
    var observed: IdSet
    var linked: bool
    var ids: IdSet?
    var related: bool
    var stamp: nat

    ghost function Value(): Entry
      reads this, observed, ids
    {
      Entry(observed.Value(), linked,
            if ids == null then Unread else Wide(ids.Value(), related, stamp))
    }

    constructor (observed: IdSet, linked: bool)
      ensures this.observed == observed && this.linked == linked && ids == null
    {
      this.observed, this.linked := observed, linked;
      ids, related, stamp := null, false, 0;
    }
  }

  ghost function SlotOf(r: Record?): Slot
    reads r, if r == null then {} else {r.observed} + (if r.ids == null then {} else {r.ids})
  {
    if r == null then Nothing else Seen(r.Value())
  }

  class Plugin {
    var subs: Subscribers
    var barred: set<Key>
    var bySession: map<string, IdSet>
    var cache: map<nat, Record?>
    var gen: nat
    ghost var bound: seq<Ids>
    ghost var Frozen: set<IdSet>
    ghost var Records: set<Record>

    /** What is kept of frames stays within the frozen tables, and no two frames share
        a record. */
    ghost predicate Frames()
      reads `bySession, `cache, `Frozen, `Records, Frozen, Records
    {
      && (forall s :: s in Frozen ==> s.Valid())
      && (forall s :: s in bySession ==> bySession[s] in Frozen)
      && (forall n :: n in cache && cache[n] != null ==> cache[n] in Records)
      && (forall r :: r in Records ==> r.observed in Frozen && (r.ids != null ==> r.ids in Frozen))
      && (forall n, m :: n in cache && m in cache && cache[n] != null && cache[n] == cache[m] ==> n == m)
    }

    /** The tables of frames are never those of a subscriber. */
    ghost predicate Shape()
      reads `subs, `bySession, `cache, `Frozen, `Records, subs, subs.Classes, Frozen, Records
    {
      subs.Valid() && Frozen !! subs.Classes && Frames()
    }

    ghost function Sessions(): map<string, Ids>
      reads `bySession, `Frozen, Frozen
      requires forall s :: s in bySession ==> bySession[s] in Frozen
    {
      map s | s in bySession :: bySession[s].Value()
    }

    ghost function Slots(): map<nat, Slot>
      reads `cache, `Frozen, `Records, Frozen, Records
      requires forall n :: n in cache && cache[n] != null ==> cache[n] in Records
      requires forall r :: r in Records ==> r.observed in Frozen && (r.ids != null ==> r.ids in Frozen)
    {
      map n | n in cache :: SlotOf(cache[n])
    }

    ghost function Abstract(): State
      reads this, subs, subs.Classes, Frozen, Records
      requires Shape()
    {
      State(subs.View(), barred, Sessions(), Slots(), gen, bound)
    }

    ghost predicate Valid()
      reads this, subs, subs.Classes, Frozen, Records
    {
      Shape() && Inv(Abstract())
    }

    ghost predicate Blank()
      reads this, subs, subs.Classes
    {
      && subs.Valid() && subs.View() == map[] && subs.Classes == {}
      && barred == {} && bySession == map[] && cache == map[] && bound == []
      && Frozen == {} && Records == {}
    }

    lemma BlankIsFresh()
      requires Blank()
      ensures Valid() && Abstract() == Fresh(gen)
    {
      assert Sessions() == map[] && Slots() == map[];
    }

    constructor ()
      ensures Valid() && Abstract() == Fresh(1)
      ensures fresh(subs) && subs.Classes == {} && Frozen == {} && Records == {}
    {
      subs := new Subscribers();
      barred, bySession, cache := {}, map[], map[];
      gen, bound, Frozen, Records := 1, [], {}, {};
      new;
      BlankIsFresh();
    }

    /** One capture file ends and another begins. */
    method Reset()
      requires Shape()
      modifies this
      ensures Valid() && Abstract() == Fresh(old(gen) + 1)
    {
      subs := new Subscribers();
      barred, bySession, cache := {}, map[], map[];
      gen := gen + 1;
      bound, Frozen, Records := [], {}, {};
      BlankIsFresh();
    }

    /** What the tables of the frames say is not changed by writing to other tables. */
    twostate lemma FramesSame()
      requires old(Shape())
      requires bySession == old(bySession) && cache == old(cache)
      requires old(Frozen) <= Frozen && old(Records) <= Records
      requires forall s :: s in old(Frozen) ==> unchanged(s)
      requires forall r :: r in old(Records) ==> unchanged(r)
      requires forall r :: r in Records ==> r.observed in Frozen && (r.ids != null ==> r.ids in Frozen)
      ensures Sessions() == old(Sessions()) && Slots() == old(Slots())
    {
    }

    /** ...nor are the subscribers, as long as none of their own tables is. */
    twostate lemma SubscribersSame()
      requires old(subs.Valid()) && subs == old(subs) && unchanged(subs)
      requires forall c :: c in old(subs.Classes) ==> unchanged(c)
      ensures subs.Valid() && subs.View() == old(subs.View())
    {
    }

    // ---------------------------------------------------------------- reading --

    static method ReadPairs(pairs: seq<(Key, Role)>) returns (observed: IdSet)
      ensures fresh(observed) && observed.Valid() && observed.Value() == AddPairs(NoIds, pairs)
    {
      observed := new IdSet();
      var i := 0;
      while i < |pairs|
        invariant 0 <= i <= |pairs|
        invariant observed.Valid()
        invariant AddPairs(observed.Value(), pairs[i..]) == AddPairs(NoIds, pairs)
      {
        assert pairs[i..][1..] == pairs[i + 1..];
        var _ := observed.Add(pairs[i].0, pairs[i].1);
        i := i + 1;
      }
    }

    /** The walk of the User-Data, which is where keys are learnt to be barred. */
    method ReadUserData(observed: IdSet, items: seq<Item>)
      requires observed.Valid()
      modifies this`barred, this`gen, observed
      ensures observed.Valid()
      ensures var r := ReadItems(Reading(None, false, old(observed.Value()), old(barred), old(gen)), items);
        observed.Value() == r.observed && barred == r.barred && gen == r.gen
    {
      var current, barring := None, false;
      ghost var start := Reading(None, false, observed.Value(), barred, gen);
      var i := 0;
      while i < |items|
        invariant 0 <= i <= |items|
        invariant observed.Valid()
        invariant ReadItems(Reading(current, barring, observed.Value(), barred, gen), items[i..])
               == ReadItems(start, items)
      {
        assert items[i..][1..] == items[i + 1..];
        match items[i] {
          case Open(element) =>
            current := if element in {PrivateId, Identity, BarringIndication} then Some(element) else None;
            if element == PublicIdentity {
              barring := false;
            }
          case Close =>
            current := None;
          case Text(flag, key) =>
            if current == Some(BarringIndication) {
              barring := flag;
            } else if current.Some? && key.Some? {
              var role := if current.value == PrivateId then Impi else Impu;
              if barring && role == Impu && key.value !in barred {
                barred := barred + {key.value};
                gen := gen + 1;
              }
              assert barring && role == Impu ==> barred == barred + {key.value};
              var _ := observed.Add(key.value, role);
            }
        }
        i := i + 1;
      }
    }

    /** Copies what another frame spelled, and says whether that was anything. */
    static method Borrow(observed: IdSet, from: IdSet) returns (linked: bool)
      requires observed.Valid() && from != observed
      modifies observed
      ensures observed.Valid() && observed.Value() == AddAll(old(observed.Value()), from.Value())
      ensures linked <==> !from.Value().Empty()
      ensures observed.Value().Empty() <==> old(observed.Value().Empty()) && !linked
    {
      AddAllEmpty(observed.Value(), from.Value());
      observed.AddList(from.impi, Impi);
      observed.AddList(from.impu, Impu);
      linked := |from.impi| > 0 || |from.impu| > 0;
    }

    /** The identities remembered for the sessions an answer names, copied. */
    method RecallInto(observed: IdSet, sessions: seq<string>) returns (linked: bool)
      requires Shape() && observed.Valid() && observed !in Frozen && observed.Value().Empty()
      modifies observed
      ensures observed.Valid()
      ensures observed.Value() == Recall(Sessions(), sessions, old(observed.Value()))
      ensures linked <==> !observed.Value().Empty()
    {
      linked := false;
      ghost var known, was := Sessions(), observed.Value();
      var i := 0;
      while i < |sessions|
        invariant 0 <= i <= |sessions|
        invariant observed.Valid()
        invariant Recall(known, sessions[i..], observed.Value()) == Recall(known, sessions, was)
        invariant linked <==> !observed.Value().Empty()
      {
        assert sessions[i..][1..] == sessions[i + 1..];
        if sessions[i] in bySession {
          var remembered := bySession[sessions[i]];
          assert known[sessions[i]] == remembered.Value();
          var more := Borrow(observed, remembered);
          linked := linked || more;
        }
        i := i + 1;
      }
    }

    // ---------------------------------------------------------------- keeping --

    /** From here on nothing writes to this table. */
    ghost method Freeze(observed: IdSet)
      requires Shape() && observed.Valid() && observed !in subs.Classes
      modifies this`Frozen
      ensures Shape() && Frozen == old(Frozen) + {observed}
      ensures Abstract() == old(Abstract())
    {
      Frozen := Frozen + {observed};
      SubscribersSame();
      FramesSame();
    }

    method NewRecord(observed: IdSet, linked: bool) returns (r: Record)
      requires Shape() && observed in Frozen
      modifies this`Records
      ensures Shape() && Records == old(Records) + {r} && fresh(r)
      ensures Abstract() == old(Abstract())
      ensures r.Value() == Entry(observed.Value(), linked, Unread)
    {
      r := new Record(observed, linked);
      Records := Records + {r};
      SubscribersSame();
      FramesSame();
    }

    method Tick(moved: bool, ghost message: Ids)
      requires Shape()
      modifies this`gen, this`bound
      ensures Shape()
      ensures Abstract() == old(Abstract()).(gen := gen, bound := old(bound) + [message])
      ensures gen == if moved then old(gen) + 1 else old(gen)
    {
      gen, bound := if moved then gen + 1 else gen, bound + [message];
      SubscribersSame();
      FramesSame();
    }

    method UniteFrozen(observed: IdSet) returns (moved: bool)
      requires Shape() && observed in Frozen && Covered(observed.Value())
      modifies subs, subs.Classes
      ensures Shape() && fresh(subs.Classes - old(subs.Classes))
      ensures Abstract() == old(Abstract()).(binding := ImsBinding.Unite(old(subs.View()), observed.Value()))
      ensures moved <==> subs.View() != old(subs.View()) || observed.Value().Empty()
    {
      moved := subs.Unite(observed);
      FramesSame();
    }

    /** Binds what one message spells, and counts that if it moved anything. */
    method Bind(observed: IdSet)
      requires Shape() && observed in Frozen && Covered(observed.Value())
      modifies this`gen, this`bound, subs, subs.Classes
      ensures Shape() && fresh(subs.Classes - old(subs.Classes))
      ensures Abstract() == UniteIn(old(Abstract()), observed.Value())
    {
      ghost var o := observed.Value();
      var moved := UniteFrozen(observed);
      Tick(moved, o);
    }

    /** Remembers a request's identities for the answer, if one session is named. */
    method Remember(observed: IdSet, sessions: seq<string>)
      requires Shape() && observed in Frozen
      modifies this`bySession
      ensures Shape()
      ensures Abstract() == var st := old(Abstract());
        if |sessions| == 1 then st.(bySession := st.bySession[sessions[0] := observed.Value()]) else st
    {
      ghost var was := Sessions();
      if |sessions| == 1 {
        bySession := bySession[sessions[0] := observed];
        assert Sessions() == was[sessions[0] := observed.Value()];
      }
      SubscribersSame();
    }

    method ReadSpelled(f: Frame) returns (observed: IdSet)
      requires Shape() && f.Diameter?
      modifies this`barred, this`gen
      ensures Shape() && fresh(observed) && observed.Valid()
      ensures var st := old(Abstract());
        var r := ReadItems(Reading(None, false, AddPairs(NoIds, f.spelled), st.barred, st.gen), f.userData);
        Abstract() == st.(barred := r.barred, gen := r.gen) && observed.Value() == r.observed
    {
      observed := ReadPairs(f.spelled);
      ReadUserData(observed, f.userData);
      SubscribersSame();
      FramesSame();
    }

    /** An answer spells nothing, and is given what its session's request did. */
    method KeepAnswer(observed: IdSet, sessions: seq<string>) returns (r: Record)
      requires Shape() && observed.Valid() && observed !in Frozen && observed !in subs.Classes
      requires observed.Value().Empty()
      modifies this`Frozen, this`Records, observed
      ensures Shape() && Frozen == old(Frozen) + {observed}
      ensures fresh(r) && Records == old(Records) + {r}
      ensures Abstract() == old(Abstract())
      ensures var recalled := Recall(old(Sessions()), sessions, old(observed.Value()));
        r.Value() == Entry(recalled, !recalled.Empty(), Unread)
    {
      var linked := RecallInto(observed, sessions);
      SubscribersSame();
      FramesSame();
      Freeze(observed);
      r := NewRecord(observed, linked);
    }

    /** A message that spells identities, remembered and bound if it is the only one. */
    method KeepRequest(observed: IdSet, sessions: seq<string>, commands: nat) returns (r: Record)
      requires Shape() && observed.Valid() && observed !in Frozen && observed !in subs.Classes
      requires Covered(observed.Value())
      modifies this`gen, this`bySession, this`bound, this`Frozen, this`Records, subs, subs.Classes
      ensures Shape() && fresh(subs.Classes - old(subs.Classes)) && Frozen == old(Frozen) + {observed}
      ensures fresh(r) && Records == old(Records) + {r}
      ensures Abstract() == var st := old(Abstract()); var o := old(observed.Value());
        var kept := if |sessions| == 1 then st.(bySession := st.bySession[sessions[0] := o]) else st;
        if commands == 1 then UniteIn(kept, o) else kept
      ensures r.Value() == Entry(old(observed.Value()), false, Unread)
    {
      Freeze(observed);
      Remember(observed, sessions);
      r := KeepRead(observed, commands == 1);
    }

    /** The record of a frame that was read, bound first if it is a binding message. */
    method KeepRead(observed: IdSet, binds: bool) returns (r: Record)
      requires Shape() && observed in Frozen && Covered(observed.Value())
      modifies this`gen, this`bound, this`Records, subs, subs.Classes
      ensures Shape() && fresh(subs.Classes - old(subs.Classes))
      ensures fresh(r) && Records == old(Records) + {r}
      ensures Abstract() == if binds then UniteIn(old(Abstract()), observed.Value()) else old(Abstract())
      ensures r.Value() == Entry(observed.Value(), false, Unread)
    {
      if binds {
        Bind(observed);
      }
      r := NewRecord(observed, false);
    }

    method ReadDiameterFrame(f: Frame) returns (r: Record)
      requires Valid() && f.Diameter?
      modifies this`barred, this`gen, this`bySession, this`bound, this`Frozen, this`Records, subs, subs.Classes
      ensures Shape() && fresh(subs.Classes - old(subs.Classes)) && fresh(Frozen - old(Frozen))
      ensures fresh(r) && Records == old(Records) + {r}
      ensures Abstract() == ReadDiameter(old(Abstract()), f).0
      ensures r.Value() == ReadDiameter(old(Abstract()), f).1
    {
      ReadDiameterInv(Abstract(), f);
      var observed := ReadSpelled(f);
      if |observed.impi| == 0 && |observed.impu| == 0 {
        r := KeepAnswer(observed, f.sessions);
      } else {
        r := KeepRequest(observed, f.sessions, f.commands);
      }
    }

    method ReadSipFrame(f: Frame) returns (r: Record)
      requires Valid() && f.Sip?
      modifies this`gen, this`bound, this`Frozen, this`Records, subs, subs.Classes
      ensures Shape() && fresh(subs.Classes - old(subs.Classes)) && fresh(Frozen - old(Frozen))
      ensures fresh(r) && Records == old(Records) + {r}
      ensures Abstract() == ReadSip(old(Abstract()), f).0
      ensures r.Value() == ReadSip(old(Abstract()), f).1
    {
      AddPairsCovered(NoIds, f.spelled);
      var observed := ReadPairs(f.spelled);
      SubscribersSame();
      FramesSame();
      Freeze(observed);
      r := KeepRead(observed, f.register);
    }

    /** Whoever the frame that set the stream up was between, borrowed and not bound. */
    method ReadMediaFrame(f: Frame) returns (r: Record, partial: bool)
      requires Valid() && f.Media?
      modifies this`Frozen, this`Records
      ensures Shape() && fresh(Frozen - old(Frozen))
      ensures fresh(r) && Records == old(Records) + {r}
      ensures Abstract() == old(Abstract())
      ensures (r.Value(), partial) == ReadMedia(old(Abstract()), f)
    {
      var observed, linked;
      observed, linked, partial := BorrowSetup(f);
      Freeze(observed);
      r := NewRecord(observed, linked);
    }

    /** What that frame said, copied: nothing when it has not been seen to say anything. */
    method BorrowSetup(f: Frame) returns (observed: IdSet, linked: bool, partial: bool)
      requires Shape() && f.Media?
      ensures fresh(observed) && observed.Valid() && Shape() && Abstract() == old(Abstract())
      ensures (Entry(observed.Value(), linked, Unread), partial) == ReadMedia(old(Abstract()), f)
    {
      observed := new IdSet();
      linked, partial := false, true;
      ghost var slots := Slots();
      if f.setup in cache && cache[f.setup] != null {
        partial := false;
        assert slots[f.setup] == Seen(cache[f.setup].Value());
        linked := Borrow(observed, cache[f.setup].observed);
      }
      SubscribersSame();
      FramesSame();
    }

    /** The first look at a frame: a record of it, or null if it says nothing. */
    method ReadFrameInto(f: Frame) returns (r: Record?, keep: bool)
      requires Valid()
      modifies this`barred, this`gen, this`bySession, this`bound, this`Frozen, this`Records, subs, subs.Classes
      ensures Shape() && fresh(subs.Classes - old(subs.Classes))
      ensures r != null ==> fresh(r) && r in Records
      ensures fresh(Records - old(Records))
      ensures var (next, slot, kept) := ReadFrame(old(Abstract()), f);
        Abstract() == next && keep == kept && SlotOf(r) == slot
    {
      match f {
        case Diameter(_, _, _, _) =>
          keep := true;
          r := ReadDiameterFrame(f);
        case Sip(_, _) =>
          keep := true;
          r := ReadSipFrame(f);
        case Media(_) =>
          var partial;
          r, partial := ReadMediaFrame(f);
          keep := !partial;
        case Silent =>
          r, keep := null, true;
      }
    }

    // ---------------------------------------------------------------- showing --

    /** A record written to is seen through its own frame number and no other. */
    twostate lemma RecordWritten(r: Record)
      requires old(Frames()) && r in old(Records)
      requires bySession == old(bySession) && cache == old(cache)
      requires Frozen == old(Frozen) && Records == old(Records)
      requires forall s :: s in Frozen ==> unchanged(s)
      requires forall x :: x in Records && x != r ==> unchanged(x)
      requires r.observed in Frozen && (r.ids != null ==> r.ids in Frozen)
      ensures Frames() && Sessions() == old(Sessions())
      ensures Slots() == map n | n in old(Slots()) :: if cache[n] == r then Seen(r.Value()) else old(Slots())[n]
    {
    }

    method Stamp(r: Record, ids: IdSet, related: bool)
      requires Shape() && r in Records && ids in Frozen
      modifies r
      ensures Shape()
      ensures r.Value() == old(r.Value()).(widened := Wide(ids.Value(), related, gen))
      ensures Abstract() == old(Abstract()).(cache :=
        map n | n in old(Slots()) :: if cache[n] == r then Seen(r.Value()) else old(Slots())[n])
    {
      r.ids, r.related, r.stamp := ids, related, gen;
      SubscribersSame();
      RecordWritten(r);
    }

    /** Widens the identities of a frame, unless what it was widened to still stands. */
    method Refresh(r: Record)
      requires Shape() && r in Records
      modifies this`Frozen, r
      ensures Shape()
      ensures r.Value() == Refreshed(old(Abstract()), old(r.Value()))
      ensures Abstract() == old(Abstract()).(cache :=
        map n | n in old(Slots()) :: if cache[n] == r then Seen(r.Value()) else old(Slots())[n])
    {
      if r.ids == null || r.stamp != gen {
        var ids, related := Relate(subs, barred, r.observed);
        SubscribersSame();
        FramesSame();
        Freeze(ids);
        Stamp(r, ids, related);
      } else {
        RecordWritten(r);
      }
    }

    /** What is cached of a frame, read and kept first if nothing is. */
    method Fetch(number: nat, f: Frame) returns (r: Record?, keep: bool)
      requires Valid()
      modifies this`barred, this`gen, this`bySession, this`bound, this`Frozen, this`Records, this`cache,
               subs, subs.Classes
      ensures Shape() && fresh(subs.Classes - old(subs.Classes)) && fresh(Records - old(Records))
      ensures r != null ==> r in Records && forall n :: n in cache && cache[n] == r ==> keep && n == number
      ensures keep ==> number in cache && cache[number] == r
      ensures (Abstract(), SlotOf(r), keep) == Fetched(old(Abstract()), number, f)
    {
      ghost var st := Abstract();
      if number in cache {
        r, keep := cache[number], true;
        assert st.cache[number := st.cache[number]] == st.cache;
      } else {
        r, keep := ReadFrameInto(f);
        if keep {
          Cache(number, r);
        }
      }
    }

    method Cache(number: nat, r: Record?)
      requires Shape() && number !in cache && (r != null ==> r in Records)
      requires forall n :: n in cache && cache[n] != null ==> cache[n] != r
      modifies this`cache
      ensures Shape() && cache == old(cache)[number := r]
      ensures var st, slot := old(Abstract()), SlotOf(r);
        Abstract() == st.(cache := st.cache[number := slot])
    {
      cache := cache[number := r];
      SubscribersSame();
      SlotPut(number);
    }

    twostate lemma SlotPut(number: nat)
      requires old(Shape()) && Frames() && number in cache && number !in old(cache)
      requires cache == old(cache)[number := cache[number]]
      requires bySession == old(bySession) && Frozen == old(Frozen) && Records == old(Records)
      requires forall s :: s in Frozen ==> unchanged(s)
      requires forall x :: x in Records ==> unchanged(x)
      ensures Sessions() == old(Sessions()) && Slots() == old(Slots())[number := SlotOf(cache[number])]
    {
    }

    /** Widens a record that is cached under one frame number, or under none. */
    method RefreshAt(number: nat, r: Record, ghost keep: bool)
      requires Shape() && r in Records
      requires forall n :: n in cache && cache[n] == r ==> keep && n == number
      requires keep ==> number in cache && cache[number] == r
      modifies this`Frozen, r
      ensures Shape()
      ensures r.Value() == Refreshed(old(Abstract()), old(r.Value()))
      ensures var st := old(Abstract());
        Abstract() == if keep then st.(cache := st.cache[number := Seen(r.Value())]) else st
    {
      ghost var slots := Slots();
      Refresh(r);
      assert Slots() == if keep then slots[number := Seen(r.Value())] else slots;
    }

    /** One call of the dissector: the record whose identities are shown, or null for a
        frame that says nothing. */
    method Dissect(number: nat, f: Frame, ids: bool) returns (shown: Record?)
      requires Valid()
      modifies this`barred, this`gen, this`bySession, this`bound, this`Frozen, this`Records, this`cache,
               subs, subs.Classes, Records
      ensures Valid() && fresh(subs.Classes - old(subs.Classes)) && fresh(Records - old(Records))
      ensures Abstract() == Look(old(Abstract()), number, f, ids).0
      ensures SlotOf(shown) == Look(old(Abstract()), number, f, ids).1
    {
      ghost var before := Abstract();
      LookInHalves(before, number, f, ids);
      LookInv(before, number, f, ids);
      var keep;
      shown, keep := Fetch(number, f);
      Show(number, shown, keep, ids);
    }

    method Show(number: nat, shown: Record?, ghost keep: bool, ids: bool)
      requires Shape()
      requires shown != null ==> shown in Records
      requires forall n :: n in cache && cache[n] == shown && shown != null ==> keep && n == number
      requires keep ==> number in cache && cache[number] == shown
      modifies this`Frozen, if shown == null then {} else {shown}
      ensures Shape()
      ensures (Abstract(), SlotOf(shown)) == Showing(old(Abstract()), number, old(SlotOf(shown)), keep, ids)
    {
      if shown != null && ids {
        RefreshAt(number, shown, keep);
      }
    }
  }

  lemma AddAllEmpty(s: Ids, t: Ids)
    ensures AddAll(s, t).Empty() <==> s.Empty() && t.Empty()
  {
    AddAllHas(s, t);
    if !AddAll(s, t).Empty() {
      var r := if |AddAll(s, t).impi| > 0 then Impi else Impu;
      var k := AddAll(s, t).Of(r)[0];
      assert AddAll(s, t).Has(k, r);
      assert k in s.Of(r) || k in t.Of(r);
    }
    if !s.Empty() {
      var r := if |s.impi| > 0 then Impi else Impu;
      var k := s.Of(r)[0];
      assert s.Has(k, r);
      assert AddAll(s, t).Has(k, r);
    }
    if !t.Empty() {
      var r := if |t.impi| > 0 then Impi else Impu;
      var k := t.Of(r)[0];
      assert t.Has(k, r);
      assert AddAll(s, t).Has(k, r);
    }
  }
}
