/** The session pool of src/sharkd.go as objects: the sections run under the pool's lock,
    and the session's own under its mutex. */
module Pool {
  import opened PoolRules

  /** A line on sharkd's stdout: greeting, or the answer to a request. */
  datatype Line = Noise | Answer(id: nat, reply: Reply)
  datatype Reply = Result | Refusal | Garbage

  datatype Outcome = Answered(id: nat) | Refused(id: nat) | Dead

  class Session {
    var requests: nat
    var used: int
    var dead: bool
    var torn: nat
    var out: seq<Line>

    constructor (now: int)
      ensures requests == 0 && used == now && !dead && torn == 0 && out == []
    {
      requests, used, dead, torn, out := 0, now, false, 0, [];
    }

    /** Ends a session that is still alive. Tearing the process down is for the one that
        finds it alive. */
    method Close() returns (teardown: bool)
      modifies `dead, `torn
      ensures dead && (teardown <==> !old(dead))
      ensures torn == if teardown then old(torn) + 1 else old(torn)
    {
      teardown := !dead;
      if dead {
        return;
      }
      dead := true;
      torn := torn + 1;
    }

    /** One request, its write failing or not: the lines up to the first answer are
        consumed, and the session is dead after anything but an answer that parses. */
    method Do(now: int, writes: bool) returns (r: Outcome)
      modifies `requests, `used, `dead, `out
      ensures old(dead) ==> r == Dead && unchanged(this)
      ensures !old(dead) ==> requests == old(requests) + 1 && used == now
      ensures !old(dead) && !writes ==> r == Dead && out == old(out)
      ensures !old(dead) && writes ==> var n := Greeting(old(out));
        if n == |old(out)| then r == Dead && out == []
        else out == old(out)[n + 1..] && match old(out)[n].reply
          case Result => r == Answered(old(out)[n].id)
          case Refusal => r == Refused(old(out)[n].id)
          case Garbage => r == Dead
      ensures dead <==> r == Dead
    {
      if dead {
        return Dead;
      }
      used := now;
      requests := requests + 1;
      if !writes {
        dead := true;
        return Dead;
      }
      ghost var lines := out;
      ghost var n := 0;
      while true
        invariant n <= |lines| && out == lines[n..] && !dead
        invariant n <= Greeting(lines)
        invariant used == now && requests == old(requests) + 1
        decreases |out|
      {
        if out == [] {
          dead := true;
          return Dead;
        }
        var line := out[0];
        out := out[1..];
        n := n + 1;
        GreetingStep(lines, n - 1);
        if line.Noise? {
          continue;
        }
        r := OutcomeOf(line);
        dead := r == Dead;
        return;
      }
    }
  }

  /** How many lines come before the first answer. */
  function Greeting(lines: seq<Line>): (n: nat)
    ensures n <= |lines| && (n < |lines| ==> lines[n].Answer?)
    ensures forall i :: 0 <= i < n ==> lines[i].Noise?
  {
    if lines == [] || lines[0].Answer? then 0 else 1 + Greeting(lines[1..])
  }

  lemma GreetingStep(lines: seq<Line>, n: nat)
    requires n < |lines| && n <= Greeting(lines)
    ensures lines[n].Noise? ==> n + 1 <= Greeting(lines)
    ensures lines[n].Answer? ==> n == Greeting(lines)
  {
  }

  function OutcomeOf(line: Line): Outcome
    requires line.Answer?
  {
    match line.reply
    case Result => Answered(line.id)
    case Refusal => Refused(line.id)
    case Garbage => Dead
  }

  class Sessions {
    const max: nat
    var live: map<Ref, Session>

    constructor (max: nat)
      ensures this.max == max && live == map[]
    {
      this.max := max;
      live := map[];
    }

    /** The name of a session used no later than any other. The empty name stands for
        none yet, which no reference is. */
    method Oldest() returns (oldest: Ref)
      requires live.Keys != {} && "" !in live
      ensures oldest in live && forall r :: r in live ==> live[oldest].used <= live[r].used
    {
      var found: string := "";
      var todo := live.Keys;
      while todo != {}
        invariant todo <= live.Keys
        invariant found == "" ==> todo == live.Keys
        invariant found != "" ==> found in live
        invariant found != "" ==> forall r :: r in live && r !in todo ==> live[found].used <= live[r].used
        decreases todo
      {
        var name :| name in todo;
        if found == "" || live[name].used < live[found].used {
          found := name;
        }
        todo := todo - {name};
      }
      oldest := found;
    }

    /** What is held is what was held at the start, less the evictions so far. */
    ghost predicate Evicted(start: map<Ref, Session>, names: seq<Ref>, victims: seq<Session>)
      reads `live, start.Values
    {
      && (forall r :: r in live <==> r in start && r !in names)
      && (forall r :: r in live ==> live[r] == start[r])
      && |live| == |start| - |names|
      && Evicting(UsedOf(start), max, names)
      && |victims| == |names|
      && forall i :: 0 <= i < |names| ==> names[i] in start && victims[i] == start[names[i]]
    }

    /** One turn of the eviction loop. */
    method EvictOldest(ghost start: map<Ref, Session>, ghost names: seq<Ref>, victims: seq<Session>)
        returns (more: seq<Session>, ghost also: seq<Ref>)
      requires max >= 1 && "" !in live && |live| >= max && Evicted(start, names, victims)
      modifies `live
      ensures Evicted(start, also, more) && "" !in live && |live| == |old(live)| - 1
    {
      NotEmpty(live);
      var oldest := Oldest();
      UsedSize(start);
      EvictsSnoc(UsedOf(start), max, names, oldest);
      more, also := victims + [live[oldest]], names + [oldest];
      MinusOne(live, oldest);
      live := live - {oldest};
    }

    /** Room for one more session, those used least recently going first. */
    method Evict() returns (victims: seq<Session>, ghost names: seq<Ref>)
      requires max >= 1 && "" !in live
      modifies `live
      ensures Evicted(old(live), names, victims) && |live| < max
    {
      victims, names := [], [];
      ghost var start := live;
      while |live| >= max
        invariant Evicted(start, names, victims) && "" !in live
        decreases |live|
      {
        victims, names := EvictOldest(start, names, victims);
      }
    }

    /** The first section of acquire: the session held for `ref` if it is alive, or room
        made for a new one, the evicted sessions left to be closed. */
    method Lookup(ref: Ref, now: int) returns (hit: bool, victims: seq<Session>, ghost names: seq<Ref>)
      requires max >= 1 && "" !in live
      modifies `live, live.Values`used
      ensures hit <==> ref in old(live) && !old(live)[ref].dead
      ensures hit ==> live == old(live) && victims == [] && live[ref].used == now
      ensures hit ==> forall s :: s in live.Values && s != live[ref] ==> s.used == old(s.used)
      ensures !hit ==> UsedOf(old(live)) == old(UsedOf(live))
      ensures !hit ==> Evicts(UsedOf(old(live)), max, names) && live == old(live) - Names(names)
      ensures !hit ==> |victims| == |names| && forall i :: 0 <= i < |names| ==>
        names[i] in old(live) && victims[i] == old(live)[names[i]]
    {
      hit, victims, names := ref in live && !live[ref].dead, [], [];
      if hit {
        live[ref].used := now;
        return;
      }
      ghost var start := live;
      victims, names := Evict();
      UsedSize(start);
      assert live == start - Names(names);
    }

    /** The second section of acquire: the session just loaded is published, unless a
        live one was published for the reference meanwhile. */
    method Publish(ref: Ref, s: Session) returns (kept: Session)
      modifies `live
      ensures ref in old(live) && !old(live)[ref].dead ==> kept == old(live)[ref] && live == old(live)
      ensures !(ref in old(live) && !old(live)[ref].dead) ==> kept == s && live == old(live)[ref := s]
    {
      if ref in live && !live[ref].dead {
        return live[ref];
      }
      live := live[ref := s];
      return s;
    }

    /** Takes a failed session out, if it is still the one held. */
    method Drop(ref: Ref, s: Session)
      modifies `live
      ensures live == if ref in old(live) && old(live)[ref] == s then old(live) - {ref} else old(live)
    {
      if ref in live && live[ref] == s {
        live := live - {ref};
      }
    }

    method CloseFile(ref: Ref) returns (s: Session?)
      modifies `live
      ensures live == old(live) - {ref}
      ensures s == if ref in old(live) then old(live)[ref] else null
    {
      s := if ref in live then live[ref] else null;
      live := live - {ref};
    }

    /** One tick of the reaper: the sessions last used before the cutoff go, and no other. */
    method Reap(cutoff: int) returns (victims: set<Session>)
      modifies `live
      ensures forall r :: r in old(live) ==> (r in live <==> old(live)[r].used >= cutoff)
      ensures forall r :: r in live ==> r in old(live) && live[r] == old(live)[r]
      ensures forall s :: s in victims <==> s in old(live).Values && s.used < cutoff
      ensures live == old(live) - Idle(old(UsedOf(live)), cutoff)
    {
      victims := {};
      ghost var start, used := live, UsedOf(live);
      var todo := live.Keys;
      ghost var done: set<Ref> := {};
      while todo != {}
        invariant todo + done == start.Keys && todo !! done
        invariant live == start - (Idle(used, cutoff) * done)
        invariant forall s :: s in victims <==> exists r :: r in Idle(used, cutoff) * done && start[r] == s
        decreases todo
      {
        var name :| name in todo;
        var s := live[name];
        if s.used < cutoff {
          live := live - {name};
          victims := victims + {s};
        }
        todo := todo - {name};
        done := done + {name};
        assert Idle(used, cutoff) * done ==
          Idle(used, cutoff) * (done - {name}) + (if s.used < cutoff then {name} else {});
      }
      assert Idle(used, cutoff) * done == Idle(used, cutoff);
    }
  }

  /** When each session was last used. */
  ghost function UsedOf(held: map<Ref, Session>): map<Ref, int>
    reads held.Values
  {
    map r | r in held :: held[r].used
  }

  lemma UsedSize(held: map<Ref, Session>)
    ensures |UsedOf(held)| == |held|
  {
    assert UsedOf(held).Keys == held.Keys;
    assert |UsedOf(held)| == |UsedOf(held).Keys| && |held| == |held.Keys|;
  }

  lemma NotEmpty<T>(m: map<Ref, T>)
    requires |m| > 0
    ensures m.Keys != {}
  {
    assert |m| == |m.Keys|;
  }

  lemma MinusOne<T>(m: map<Ref, T>, r: Ref)
    requires r in m
    ensures |m - {r}| == |m| - 1
  {
    assert (m - {r}).Keys == m.Keys - {r};
    assert |m - {r}| == |(m - {r}).Keys| && |m| == |m.Keys|;
  }
}
