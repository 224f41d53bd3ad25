/** What the recovery of security associations has come to after any run of frames and
    files (plugins/ims_esp/packet-ims-esp.c). */
module EspRuns {
  import opened Options
  import opened EspHeader
  import opened EspRecords

  /** `keys`, `clients`, `kept` and `visited` belong to the file; `installed` and `loaded`
      outlive it. */
  datatype State = State(keys: map<string, Keys>, clients: map<string, Spis>, kept: map<nat, seq<string>>,
                         visited: set<nat>, installed: set<string>, loaded: seq<string>)

  const Fresh := State(map[], map[], map[], {}, {}, [])

  /** One record into the table, unless it is there already, or there is no table, or the
      table refuses it. */
  function Install(s: State, f: Frame, record: string): State {
    if record in s.installed || !f.table || record in f.refused then s
    else s.(installed := s.installed + {record}, loaded := s.loaded + [record])
  }

  function InstallAll(s: State, f: Frame, records: seq<string>): State {
    if records == [] then s
    else Install(InstallAll(s, f, records[..|records| - 1]), f, records[|records| - 1])
  }

  function Lookup<T>(m: map<string, T>, call: string): Option<T> {
    if call in m then Some(m[call]) else None
  }

  /** What a frame adds to what is known of its registration. */
  function Learn(s: State, f: Frame): State {
    if f.call.None? || f.call.value == "" then s
    else
      var call := f.call.value;
      s.(keys := if KeysIn(f).Some? then s.keys[call := KeysIn(f).value] else s.keys,
         clients := if ClientIn(f).Some? then s.clients[call := ClientIn(f).value] else s.clients)
  }

  function Derived(s: State, f: Frame): seq<string> {
    if f.call.None? || f.call.value == "" then []
    else RecordsOf(f, Lookup(s.keys, f.call.value), Lookup(s.clients, f.call.value))
  }

  /** The associations of a frame, loaded and kept with it. */
  function Yield(s: State, n: nat, f: Frame): State {
    var records := Derived(s, f);
    var t := InstallAll(s, f, records);
    if records == [] then t else t.(kept := t.kept[n := records])
  }

  function Derive(s: State, n: nat, f: Frame): State {
    Yield(Learn(s, f), n, f)
  }

  function Dissect(s: State, n: nat, f: Frame): State {
    (if n in s.visited then s else Derive(s, n, f)).(visited := s.visited + {n})
  }

  /** What is shown of a frame. */
  function Shown(s: State, n: nat): seq<string> {
    if n in s.kept then s.kept[n] else []
  }

  datatype Event = Dissection(n: nat, frame: Frame) | NewFile

  function Step(s: State, e: Event): State {
    match e
    case Dissection(n, f) => Dissect(s, n, f)
    case NewFile => s.(keys := map[], clients := map[], kept := map[], visited := {})
  }

  function After(events: seq<Event>): State {
    if events == [] then Fresh else Step(After(events[..|events| - 1]), events[|events| - 1])
  }

  // ------------------------------------------------------------- what stays --

  lemma {:induction false} InstallAllOnly(s: State, f: Frame, records: seq<string>)
    ensures var t := InstallAll(s, f, records);
      t == s.(installed := t.installed, loaded := t.loaded) && s.installed <= t.installed && s.loaded <= t.loaded
    decreases |records|
  {
    if records != [] {
      InstallAllOnly(s, f, records[..|records| - 1]);
    }
  }

  ghost predicate Once(s: State) {
    && (forall i, j :: 0 <= i < j < |s.loaded| ==> s.loaded[i] != s.loaded[j])
    && (forall r :: r in s.installed <==> r in s.loaded)
  }

  lemma {:induction false} InstallAllOnce(s: State, f: Frame, records: seq<string>)
    requires Once(s)
    ensures Once(InstallAll(s, f, records))
    ensures forall r :: r in records && f.table && r !in f.refused ==> r in InstallAll(s, f, records).loaded
    decreases |records|
  {
    if records != [] {
      var n := |records| - 1;
      InstallAllOnce(s, f, records[..n]);
      assert records == records[..n] + [records[n]];
    }
  }

  /** However often frames are dissected and files opened, no record is loaded twice. */
  lemma {:induction false} NeverLoadedTwice(events: seq<Event>)
    ensures Once(After(events))
    decreases |events|
  {
    if events != [] {
      var n := |events| - 1;
      NeverLoadedTwice(events[..n]);
      if events[n].Dissection? {
        var s := Learn(After(events[..n]), events[n].frame);
        InstallAllOnce(s, events[n].frame, Derived(s, events[n].frame));
      }
    }
  }

  // ------------------------------------------------------- what is known of --

  /** A frame read for the first time in its file, which is the file still open. */
  predicate ReadAt(events: seq<Event>, i: nat)
    requires i < |events|
  {
    && events[i].Dissection? && events[i].n !in After(events[..i]).visited
    && forall j :: i < j < |events| ==> events[j].Dissection?
  }

  /** It brings something of a registration. */
  predicate Brings<T(!new)>(events: seq<Event>, i: nat, call: string, of: Frame -> Option<T>)
    requires i < |events|
  {
    ReadAt(events, i) && Calls(events[i].frame, call) && of(events[i].frame).Some?
  }

  /** And is the latest that does. */
  predicate Latest<T(!new)>(events: seq<Event>, i: nat, call: string, of: Frame -> Option<T>)
    requires i < |events|
  {
    Brings(events, i, call, of) && forall j :: i < j < |events| ==> !Brings(events, j, call, of)
  }

  lemma ReadAtInit(events: seq<Event>, i: nat)
    requires 0 < |events| && i < |events| - 1
    ensures ReadAt(events, i) <==> ReadAt(events[..|events| - 1], i) && events[|events| - 1].Dissection?
  {
    var n := |events| - 1;
    assert events[..n][..i] == events[..i];
    assert forall j :: 0 <= j < n ==> events[..n][j] == events[j];
  }

  lemma BringsInit<T(!new)>(events: seq<Event>, i: nat, call: string, of: Frame -> Option<T>)
    requires 0 < |events| && i < |events| - 1
    ensures Brings(events, i, call, of)
      <==> Brings(events[..|events| - 1], i, call, of) && events[|events| - 1].Dissection?
  {
    ReadAtInit(events, i);
  }

  /** Which frame is the latest after one event more. */
  lemma LatestStep<T(!new)>(events: seq<Event>, i: nat, call: string, of: Frame -> Option<T>)
    requires i < |events|
    ensures var n := |events| - 1;
      Latest(events, i, call, of) <==>
      if Brings(events, n, call, of) then i == n
      else i < n && events[n].Dissection? && Latest(events[..n], i, call, of)
  {
    var n := |events| - 1;
    if i < n {
      forall j | i <= j < n
        ensures Brings(events, j, call, of) <==> Brings(events[..n], j, call, of) && events[n].Dissection?
      {
        BringsInit(events, j, call, of);
      }
    }
  }

  /** What a step does to what is known. */
  lemma StepKnown(s: State, n: nat, f: Frame, call: string)
    ensures Lookup(Dissect(s, n, f).keys, call) ==
      if n !in s.visited && Calls(f, call) && KeysIn(f).Some? then KeysIn(f) else Lookup(s.keys, call)
    ensures Lookup(Dissect(s, n, f).clients, call) ==
      if n !in s.visited && Calls(f, call) && ClientIn(f).Some? then ClientIn(f) else Lookup(s.clients, call)
  {
    var t := Learn(s, f);
    InstallAllOnly(t, f, Derived(t, f));
  }

  /** What is known is what the latest frame brought, and nothing when no frame did. */
  ghost predicate IsLatest<T(!new)>(events: seq<Event>, call: string, of: Frame -> Option<T>, known: Option<T>) {
    && (known.Some? <==> exists i :: 0 <= i < |events| && Latest(events, i, call, of))
    && forall i :: 0 <= i < |events| && Latest(events, i, call, of) ==> known == of(events[i].frame)
  }

  lemma IsLatestStep<T(!new)>(events: seq<Event>, call: string, of: Frame -> Option<T>, known: Option<T>, next: Option<T>)
    requires events != [] && IsLatest(events[..|events| - 1], call, of, known)
    requires next ==
      if events[|events| - 1].NewFile? then None
      else if Brings(events, |events| - 1, call, of) then of(events[|events| - 1].frame) else known
    ensures IsLatest(events, call, of, next)
  {
    var n := |events| - 1;
    forall i | 0 <= i < |events|
      ensures Latest(events, i, call, of) <==>
        if Brings(events, n, call, of) then i == n
        else i < n && events[n].Dissection? && Latest(events[..n], i, call, of)
    {
      LatestStep(events, i, call, of);
    }
    assert forall i :: 0 <= i < n ==> events[..n][i] == events[i];
    if Brings(events, n, call, of) {
      assert Latest(events, n, call, of);
    } else if known.Some? && events[n].Dissection? {
      var i :| 0 <= i < n && Latest(events[..n], i, call, of);
      assert Latest(events, i, call, of);
    }
  }

  /** What is known for a Call-ID, keys and client SPIs alike, comes from the latest frame of
      this file that brought any, and is nothing when no frame did. */
  lemma {:induction false} KnownIsLatest(events: seq<Event>, call: string)
    ensures IsLatest(events, call, KeysIn, Lookup(After(events).keys, call))
    ensures IsLatest(events, call, ClientIn, Lookup(After(events).clients, call))
    decreases |events|
  {
    if events != [] {
      var n := |events| - 1;
      var s := After(events[..n]);
      KnownIsLatest(events[..n], call);
      if events[n].Dissection? {
        StepKnown(s, events[n].n, events[n].frame, call);
      }
      IsLatestStep(events, call, KeysIn, Lookup(s.keys, call), Lookup(After(events).keys, call));
      IsLatestStep(events, call, ClientIn, Lookup(s.clients, call), Lookup(After(events).clients, call));
    }
  }

  ghost predicate KeptVisited(s: State) {
    forall n :: n in s.kept ==> n in s.visited
  }

  lemma {:induction false} KeptIsVisited(events: seq<Event>)
    ensures KeptVisited(After(events))
    decreases |events|
  {
    if events != [] {
      var n := |events| - 1;
      KeptIsVisited(events[..n]);
      if events[n].Dissection? {
        var t := Learn(After(events[..n]), events[n].frame);
        InstallAllOnly(t, events[n].frame, Derived(t, events[n].frame));
      }
    }
  }

  /** What a frame yields when it is first read: the associations of its own Security-Server
      with the keys and client SPIs known by then, its own included. */
  lemma FirstReading(events: seq<Event>, n: nat, f: Frame, call: string)
    requires n !in After(events).visited && Calls(f, call)
    ensures var s := After(events + [Dissection(n, f)]);
      Shown(s, n) == RecordsOf(f, Lookup(s.keys, call), Lookup(s.clients, call))
  {
    var s := After(events);
    KeptIsVisited(events);
    assert (events + [Dissection(n, f)])[..|events|] == events;
    var t := Learn(s, f);
    InstallAllOnly(t, f, Derived(t, f));
  }

  lemma StepShows(s: State, e: Event, n: nat)
    requires n in s.visited && e.Dissection?
    ensures n in Step(s, e).visited && Shown(Step(s, e), n) == Shown(s, n)
  {
    var t := Learn(s, e.frame);
    InstallAllOnly(t, e.frame, Derived(t, e.frame));
  }

  /** Every later dissection in the file shows what the first one did. */
  lemma {:induction false} ShownAgain(events: seq<Event>, more: seq<Event>, n: nat)
    requires n in After(events).visited && forall i :: 0 <= i < |more| ==> more[i].Dissection?
    ensures n in After(events + more).visited && Shown(After(events + more), n) == Shown(After(events), n)
    decreases |more|
  {
    if more == [] {
      assert events + more == events;
    } else {
      var m := |more| - 1;
      ShownAgain(events, more[..m], n);
      assert (events + more)[..|events + more| - 1] == events + more[..m];
      StepShows(After(events + more[..m]), more[m], n);
    }
  }
}
