/** What a session of plugins/ims.lua makes of each kind of frame, told by what the frame
    says and what is shown of it and of later ones. */
module ImsSessions {
  import opened Options
  import opened ImsSets
  import opened ImsBinding
  import opened ImsRelate
  import opened ImsMachine

  /** The identities of a message are just these. */
  ghost predicate Says(m: Ids, pairs: seq<(Key, Role)>) {
    Covered(m) && forall k, r :: m.Has(k, r) <==> (k, r) in pairs
  }

  /** Everything spelled is in one class, in the role it was spelled in. */
  ghost predicate BoundTogether(b: Binding, m: Ids) {
    forall k, j, r :: k in m.all && m.Has(j, r) ==> k in b && b[k].Has(j, r)
  }

  lemma {:induction false} AddPairsHas(s: Ids, pairs: seq<(Key, Role)>)
    ensures forall k, r :: AddPairs(s, pairs).Has(k, r) <==> s.Has(k, r) || (k, r) in pairs
    decreases |pairs|
  {
    if pairs != [] {
      var t := Added(s, pairs[0].0, pairs[0].1);
      AddPairsHas(t, pairs[1..]);
      assert pairs == [pairs[0]] + pairs[1..];
      assert pairs[0] == (pairs[0].0, pairs[0].1);
      forall k, r ensures t.Has(k, r) <==> s.Has(k, r) || (k, r) == pairs[0] {
      }
    }
  }

  lemma SaysAdded(pairs: seq<(Key, Role)>)
    ensures Says(AddPairs(NoIds, pairs), pairs)
  {
    AddPairsHas(NoIds, pairs);
    AddPairsCovered(NoIds, pairs);
  }

  lemma UniteBinds(b: Binding, m: Ids)
    requires Partition(b) && Covered(m)
    ensures BoundTogether(Unite(b, m), m)
  {
    TargetHas(b, m);
  }

  /** Nothing is learnt: the classes, the barred keys, what is remembered and the counter
      are as they were. */
  predicate Unmoved(st: State, next: State) {
    && next.binding == st.binding && next.bound == st.bound && next.gen == st.gen
    && next.barred == st.barred && next.bySession == st.bySession
  }

  lemma After(events: seq<Event>, n: nat, f: Frame, ids: bool)
    ensures Run(events + [Dissect(n, f, ids)]) == Look(Run(events), n, f, ids).0
  {
    RunNext(events, Dissect(n, f, ids), events + [Dissect(n, f, ids)]);
  }

  // -------------------------------------------------------------------- SIP --

  /** A SIP frame shows what it spells, and it binds exactly if it belongs to a REGISTER: then
      all of it is one subscriber's. */
  lemma SipBinds(events: seq<Event>, n: nat, spelled: seq<(Key, Role)>, register: bool, ids: bool)
    requires n !in Run(events).cache
    ensures var f := Sip(spelled, register);
      var st, next, shown := Run(events), Run(events + [Dissect(n, f, ids)]), Look(Run(events), n, f, ids).1;
      && shown.Seen? && Says(shown.entry.observed, spelled) && !shown.entry.linked
      && next.cache == st.cache[n := shown]
      && (!register ==> Unmoved(st, next))
      && (register ==>
            next.bound == st.bound + [shown.entry.observed] && BoundTogether(next.binding, shown.entry.observed)
            && next.barred == st.barred && next.bySession == st.bySession)
  {
    var f := Sip(spelled, register);
    After(events, n, f, ids);
    RunInv(events);
    SaysAdded(spelled);
    UniteBinds(Run(events).binding, AddPairs(NoIds, spelled));
  }

  /** The counter stands still exactly if some class has everything already: repeating a
      registration spoils no cached widening. */
  lemma SipCounts(events: seq<Event>, n: nat, spelled: seq<(Key, Role)>, ids: bool)
    requires n !in Run(events).cache
    ensures var st, next := Run(events), Run(events + [Dissect(n, Sip(spelled, true), ids)]);
      if spelled != [] && exists k :: k in st.binding && forall j, r :: (j, r) in spelled ==> st.binding[k].Has(j, r)
      then next.gen == st.gen && next.binding == st.binding else next.gen == st.gen + 1
  {
    var st, m := Run(events), AddPairs(NoIds, spelled);
    After(events, n, Sip(spelled, true), ids);
    RunInv(events);
    SaysAdded(spelled);
    UniteSame(st.binding, m);
    assert m.Empty() <==> spelled == [] by {
      assert m.impi != [] ==> m.Has(m.impi[0], Impi);
      assert m.impu != [] ==> m.Has(m.impu[0], Impu);
      assert spelled != [] ==> (spelled[0].0, spelled[0].1) in spelled && m.Has(spelled[0].0, spelled[0].1);
    }
    forall j, r ensures m.Has(j, r) <==> (j, r) in spelled {
    }
  }

  /** What is shown of any frame is covered, and whatever comes of looking only adds. */
  lemma ShownLater(events: seq<Event>, number: nat, f: Frame)
    requires Look(Run(events), number, f, true).1.Seen?
    ensures var (st, shown) := Look(Run(events), number, f, true);
      Inv(st) && Later(Run(events), st) && Covered(shown.entry.observed)
  {
    var before := Run(events);
    RunInv(events);
    LookInv(before, number, f, true);
    if number in before.cache {
      assert Exact(before, before.cache[number].entry);
    } else {
      ReadFrameInv(before, f);
    }
  }

  lemma BoundLater(b: Binding, c: Binding, m: Ids)
    requires BoundTogether(b, m) && Grown(b, c)
    ensures BoundTogether(c, m)
  {
    forall k, j, r | k in m.all && m.Has(j, r) ensures k in c && c[k].Has(j, r) {
      assert b[k].Has(j, r);
    }
  }

  /** A frame that spells one identity of a message that was bound is widened by all. */
  lemma WidenedByBound(b: Binding, barred: set<Key>, m: Ids, observed: Ids, k: Key, j: Key, r: Role)
    requires Partition(b) && Covered(m) && Covered(observed) && BoundTogether(b, m)
    requires k in m.all && k in observed.all && m.Has(j, r)
    ensures var w := Widen(b, barred, observed);
      && j in w.all && (r == Impi ==> j in w.impi) && (r == Impu ==> j in w.impu || j in barred || j in w.impi)
      && (r == Impi && !observed.Has(j, Impi) ==> Related(b, barred, observed))
  {
    assert b[k].Has(j, r) && j in b[k].all && b[j] == b[k];
    assert Touches(b, observed.all, j);
    assert Known(b, observed, j, r);
    WidenHolds(b, barred, observed, j);
    if r == Impi && !observed.Has(j, Impi) {
      RelatedExactly(b, barred, observed);
      ReachedHold(b, observed);
      KeepSetHas(NoIds, barred, Private(b, observed), observed);
      assert b[k] in Reached(b, observed) && b[k].Has(j, Impi);
      assert !Refused(barred, Private(b, observed), j, Impi) && !Own(b, barred, observed).Has(j, Impi);
    }
  }

  /** What a registration said is shown of every later frame of the file that has any of its
      identities: its private identities as such, and its public ones but for those barred or
      private; and a frame without one of its private identities is told to be related. */
  lemma RegisteredIsShown(events: seq<Event>, n: nat, spelled: seq<(Key, Role)>, ids: bool, more: seq<Event>,
                          number: nat, f: Frame, k: Key, j: Key, r: Role)
    requires n !in Run(events).cache && Reset !in more && (j, r) in spelled && Of(spelled, k)
    requires Look(Run(events + [Dissect(n, Sip(spelled, true), ids)] + more), number, f, true).1.Seen?
    requires k in Look(Run(events + [Dissect(n, Sip(spelled, true), ids)] + more), number, f, true).1.entry.observed.all
    ensures var (st, shown) := Look(Run(events + [Dissect(n, Sip(spelled, true), ids)] + more), number, f, true);
      shown.entry.widened.Wide?
      && var w := shown.entry.widened.ids;
      && j in w.all && (r == Impi ==> j in w.impi) && (r == Impu ==> j in w.impu || j in st.barred || j in w.impi)
      && (r == Impi && j !in shown.entry.observed.impi ==> shown.entry.widened.related)
  {
    var bound := events + [Dissect(n, Sip(spelled, true), ids)];
    var m := AddPairs(NoIds, spelled);
    SipBinds(events, n, spelled, true, ids);
    SaysAdded(spelled);
    var (st, shown) := Look(Run(bound + more), number, f, true);
    RunExtends(bound, more);
    ShownLater(bound + more, number, f);
    ShownIsFresh(bound + more, number, f);
    BoundLater(Run(bound).binding, Run(bound + more).binding, m);
    BoundLater(Run(bound + more).binding, st.binding, m);
    SpelledKey(spelled, m, k);
    WidenedByBound(st.binding, st.barred, m, shown.entry.observed, k, j, r);
  }

  ghost predicate Of(pairs: seq<(Key, Role)>, k: Key) {
    (k, Impi) in pairs || (k, Impu) in pairs
  }

  lemma SpelledKey(pairs: seq<(Key, Role)>, m: Ids, k: Key)
    requires Says(m, pairs) && Of(pairs, k)
    ensures k in m.all
  {
    assert m.Has(k, Impi) || m.Has(k, Impu);
  }

  // --------------------------------------------------------------- Diameter --

  /** The User-Data of a subscriber: a private identity, if it has one, and the public ones. */
  function Profile(private: Option<Key>, ps: seq<Public>): seq<Item> {
    (if private.Some? then [Open(PrivateId), Text(false, private), Close] else []) + PublicsItems(ps)
  }

  /** An identity of a Diameter message, in its AVPs or its User-Data. */
  ghost predicate Named(spelled: seq<(Key, Role)>, private: Option<Key>, ps: seq<Public>, k: Key, r: Role) {
    (k, r) in spelled || (r == Impi && private == Some(k)) || (r == Impu && Names(ps, k))
  }

  ghost predicate SaysAll(m: Ids, spelled: seq<(Key, Role)>, private: Option<Key>, ps: seq<Public>) {
    Covered(m) && forall k, r :: m.Has(k, r) <==> Named(spelled, private, ps, k, r)
  }

  lemma ProfileRead(r: Reading, private: Option<Key>, ps: seq<Public>)
    requires r.current.None? && AllInOrder(ps)
    ensures var s := ReadItems(r, Profile(private, ps));
      && (forall k, x :: s.observed.Has(k, x) <==>
            r.observed.Has(k, x) || (x == Impi && private == Some(k)) || (x == Impu && Names(ps, k)))
      && s.barred == r.barred + BarredBy(ps) && s.gen >= r.gen && (s.gen == r.gen <==> s.barred == r.barred)
  {
    if private.Some? {
      var first := [Open(PrivateId), Text(false, private), Close];
      ReadItemsAppend(r, first, PublicsItems(ps));
      ReadThree(r, first);
      var t := ReadItems(r, first);
      assert t.observed == Added(r.observed, private.value, Impi) && t.barred == r.barred && t.gen == r.gen;
      assert forall k, x :: t.observed.Has(k, x) <==> r.observed.Has(k, x) || (x == Impi && k == private.value);
      ReadPublics(t, ps);
    } else {
      assert Profile(private, ps) == PublicsItems(ps);
      ReadPublics(r, ps);
    }
  }

  lemma DiameterReads(st: State, f: Frame, private: Option<Key>, ps: seq<Public>)
    requires f.Diameter? && f.userData == Profile(private, ps) && AllInOrder(ps)
    ensures var r := ReadItems(Reading(None, false, AddPairs(NoIds, f.spelled), st.barred, st.gen), f.userData);
      SaysAll(r.observed, f.spelled, private, ps) && r.barred == st.barred + BarredBy(ps)
      && (r.gen == st.gen <==> r.barred == st.barred) && r.gen >= st.gen
  {
    var r0 := Reading(None, false, AddPairs(NoIds, f.spelled), st.barred, st.gen);
    SaysAdded(f.spelled);
    ProfileRead(r0, private, ps);
    ReadItemsKeep(r0, f.userData);
  }

  ghost predicate NamesAny(f: Frame, private: Option<Key>, ps: seq<Public>)
    requires f.Diameter?
  {
    exists k, r :: Named(f.spelled, private, ps, k, r)
  }

  lemma SaysSomething(m: Ids, f: Frame, private: Option<Key>, ps: seq<Public>)
    requires f.Diameter? && SaysAll(m, f.spelled, private, ps)
    ensures m.Empty() <==> !NamesAny(f, private, ps)
  {
    assert m.impi != [] ==> m.Has(m.impi[0], Impi);
    assert m.impu != [] ==> m.Has(m.impu[0], Impu);
  }

  /** A Diameter frame that names anybody shows whom it names. It bars whom its User-Data
      bars; it is remembered for its session, if it has just one; and it binds exactly if it
      is a single command. */
  lemma DiameterBinds(events: seq<Event>, n: nat, f: Frame, ids: bool, private: Option<Key>, ps: seq<Public>)
    requires n !in Run(events).cache && f.Diameter? && f.userData == Profile(private, ps) && AllInOrder(ps)
    requires NamesAny(f, private, ps)
    ensures var st, next, shown := Run(events), Run(events + [Dissect(n, f, ids)]), Look(Run(events), n, f, ids).1;
      && shown.Seen? && SaysAll(shown.entry.observed, f.spelled, private, ps) && !shown.entry.linked
      && next.cache == st.cache[n := shown] && next.barred == st.barred + BarredBy(ps)
      && next.bySession == (if |f.sessions| == 1 then st.bySession[f.sessions[0] := shown.entry.observed]
                            else st.bySession)
      && (f.commands == 1 ==>
            next.bound == st.bound + [shown.entry.observed] && BoundTogether(next.binding, shown.entry.observed))
      && (f.commands != 1 ==>
            next.bound == st.bound && next.binding == st.binding && (next.gen == st.gen <==> next.barred == st.barred))
  {
    var st := Run(events);
    var r := ReadItems(Reading(None, false, AddPairs(NoIds, f.spelled), st.barred, st.gen), f.userData);
    After(events, n, f, ids);
    RunInv(events);
    DiameterReads(st, f, private, ps);
    SaysSomething(r.observed, f, private, ps);
    UniteBinds(st.binding, r.observed);
  }

  ghost predicate Remembered(bySession: map<string, Ids>, sessions: seq<string>, k: Key, r: Role) {
    exists s :: s in sessions && s in bySession && bySession[s].Has(k, r)
  }

  lemma {:induction false} RecallHas(bySession: map<string, Ids>, sessions: seq<string>, m: Ids)
    ensures forall k, r :: Recall(bySession, sessions, m).Has(k, r) <==>
      m.Has(k, r) || Remembered(bySession, sessions, k, r)
    decreases |sessions|
  {
    if sessions != [] {
      var s, rest := sessions[0], sessions[1..];
      assert sessions == [s] + rest;
      var next := if s in bySession then AddAll(m, bySession[s]) else m;
      if s in bySession {
        AddAllHas(m, bySession[s]);
      }
      RecallHas(bySession, rest, next);
      forall k, r ensures Remembered(bySession, sessions, k, r)
        <==> (s in bySession && bySession[s].Has(k, r)) || Remembered(bySession, rest, k, r)
      {
      }
    }
  }

  /** One that names nobody shows whom its sessions are remembered for, says so, and teaches
      nothing. */
  lemma AnswerRecalls(events: seq<Event>, n: nat, f: Frame, ids: bool)
    requires n !in Run(events).cache && f.Diameter? && f.spelled == [] && f.userData == []
    ensures var st, next, shown := Run(events), Run(events + [Dissect(n, f, ids)]), Look(Run(events), n, f, ids).1;
      && Unmoved(st, next) && shown.Seen? && next.cache == st.cache[n := shown]
      && (forall k, r :: shown.entry.observed.Has(k, r) <==> Remembered(st.bySession, f.sessions, k, r))
      && (shown.entry.linked <==> exists k, r :: Remembered(st.bySession, f.sessions, k, r))
  {
    var st := Run(events);
    After(events, n, f, ids);
    RecallHas(st.bySession, f.sessions, NoIds);
    var m := Recall(st.bySession, f.sessions, NoIds);
    assert m.impi != [] ==> m.Has(m.impi[0], Impi);
    assert m.impu != [] ==> m.Has(m.impu[0], Impu);
  }

  // ------------------------------------------------------- media and the rest --

  /** A media frame shows whom its setup frame was between, if that said anything, and says
      so; if it is not known yet the frame is read again the next time. It teaches nothing. */
  lemma MediaBorrows(events: seq<Event>, n: nat, setup: nat, ids: bool)
    requires n !in Run(events).cache
    ensures var st := Run(events);
      var next, shown := Run(events + [Dissect(n, Media(setup), ids)]), Look(st, n, Media(setup), ids).1;
      && Unmoved(st, next) && shown.Seen?
      && (if setup in st.cache && st.cache[setup].Seen? then
            next.cache == st.cache[n := shown]
            && (forall k, r :: shown.entry.observed.Has(k, r) <==> st.cache[setup].entry.observed.Has(k, r))
            && (shown.entry.linked <==> exists k, r :: shown.entry.observed.Has(k, r))
          else next.cache == st.cache && shown.entry.observed == NoIds && !shown.entry.linked)
  {
    var st := Run(events);
    After(events, n, Media(setup), ids);
    if setup in st.cache && st.cache[setup].Seen? {
      var m := AddAll(NoIds, st.cache[setup].entry.observed);
      AddAllHas(NoIds, st.cache[setup].entry.observed);
      assert m.impi != [] ==> m.Has(m.impi[0], Impi);
      assert m.impu != [] ==> m.Has(m.impu[0], Impu);
    }
  }

  /** A frame looked at before shows what it said then, and teaches nothing; nor does one that
      says nothing, which is remembered too. */
  lemma LookedAtBefore(events: seq<Event>, n: nat, f: Frame, ids: bool)
    requires n in Run(events).cache || f.Silent?
    ensures var st, next, shown := Run(events), Run(events + [Dissect(n, f, ids)]), Look(Run(events), n, f, ids).1;
      && Unmoved(st, next) && next.cache == st.cache[n := shown]
      && (n !in st.cache ==> shown.Nothing?)
      && (n in st.cache ==> (shown.Seen? <==> st.cache[n].Seen?))
      && (n in st.cache && shown.Seen? ==>
            shown.entry.observed == st.cache[n].entry.observed && shown.entry.linked == st.cache[n].entry.linked)
  {
    After(events, n, f, ids);
  }

  /** Another capture begins with nothing known, and with no widening of the last one good. */
  lemma ResetForgets(events: seq<Event>)
    ensures var st, next := Run(events), Run(events + [Reset]);
      && next.binding == map[] && next.barred == {} && next.bySession == map[] && next.cache == map[]
      && next.bound == [] && next.gen == st.gen + 1
  {
    RunNext(events, Reset, events + [Reset]);
  }

  // ---------------------------------------------------------- over sessions --

  /** Nothing but another message with that session alone, and a reset, takes from a session
      what it is remembered for. */
  ghost predicate LeavesSession(e: Event, s: string) {
    e.Dissect? && !(e.frame.Diameter? && e.frame.sessions == [s])
  }

  lemma {:induction false} SessionStays(events: seq<Event>, more: seq<Event>, s: string)
    requires s in Run(events).bySession && forall i :: 0 <= i < |more| ==> LeavesSession(more[i], s)
    ensures s in Run(events + more).bySession && Run(events + more).bySession[s] == Run(events).bySession[s]
    decreases |more|
  {
    if more == [] {
      assert events + more == events;
    } else {
      var n := |more| - 1;
      SessionStays(events, more[..n], s);
      RunNext(events + more[..n], more[n], events + more);
      assert LeavesSession(more[n], s);
      SessionStep(Run(events + more[..n]), more[n], s);
    }
  }

  lemma SessionStep(st: State, e: Event, s: string)
    requires s in st.bySession && LeavesSession(e, s)
    ensures s in Step(st, e).bySession && Step(st, e).bySession[s] == st.bySession[s]
  {
    if e.frame.Diameter? && |e.frame.sessions| == 1 {
      assert e.frame.sessions == [e.frame.sessions[0]];
    }
  }

  /** So an answer that names nobody shows whom the request of its session named, however much
      comes between. */
  lemma AnswerIsStitched(events: seq<Event>, n: nat, request: Frame, ids: bool, private: Option<Key>,
                         ps: seq<Public>, more: seq<Event>, m: nat, answer: Frame, asked: bool, k: Key, r: Role)
    requires n !in Run(events).cache && request.Diameter? && request.userData == Profile(private, ps) && AllInOrder(ps)
    requires |request.sessions| == 1 && Named(request.spelled, private, ps, k, r)
    requires forall i :: 0 <= i < |more| ==> LeavesSession(more[i], request.sessions[0])
    requires m !in Run(events + [Dissect(n, request, ids)] + more).cache
    requires answer.Diameter? && answer.spelled == [] && answer.userData == [] && request.sessions[0] in answer.sessions
    ensures var shown := Look(Run(events + [Dissect(n, request, ids)] + more), m, answer, asked).1;
      shown.Seen? && shown.entry.observed.Has(k, r) && shown.entry.linked
  {
    var asking := events + [Dissect(n, request, ids)];
    DiameterBinds(events, n, request, ids, private, ps);
    SessionStays(asking, more, request.sessions[0]);
    AnswerRecalls(asking + more, m, answer, asked);
    var st := Run(asking + more);
    assert st.bySession[request.sessions[0]].Has(k, r);
    assert Remembered(st.bySession, answer.sessions, k, r);
  }
}
