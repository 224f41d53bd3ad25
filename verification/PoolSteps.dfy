/** The sections that src/sharkd.go runs under the pool's lock are the steps of the
    interleaving: each takes a pool that stands for a state to one that stands for the next. */
module PoolSteps {
  import opened PoolRules
  import Pool
  import M = PoolMachine

  /** The sessions held, by object and by number. */
  ghost predicate Represents(live: map<Ref, Pool.Session>, ids: map<Pool.Session, M.Sid>, s: M.State)
    reads live.Values
  {
    && live.Keys == s.live.Keys
    && forall r :: r in live ==> Stands(live[r], ids, s.live[r], s.sessions)
  }

  ghost predicate Stands(x: Pool.Session, ids: map<Pool.Session, M.Sid>, sid: M.Sid, sessions: map<M.Sid, M.Session>)
    reads x
  {
    && x in ids && ids[x] == sid && sid in sessions
    && x.used == sessions[sid].used && (x.dead <==> !sessions[sid].end.Healthy?)
  }

  ghost predicate Apart(ids: map<Pool.Session, M.Sid>) {
    forall x, y :: x in ids && y in ids && ids[x] == ids[y] ==> x == y
  }

  lemma SameTimes(live: map<Ref, Pool.Session>, ids: map<Pool.Session, M.Sid>, s: M.State)
    requires Represents(live, ids, s)
    ensures forall r :: r in s.live ==> s.live[r] in s.sessions
    ensures Pool.UsedOf(live) == M.UsedBy(s)
  {
    forall r | r in s.live ensures s.live[r] in s.sessions && Pool.UsedOf(live)[r] == M.UsedBy(s)[r] {
      assert Stands(live[r], ids, s.live[r], s.sessions);
    }
  }

  /** The step may be taken, and the pool stands for the state after it. */
  ghost predicate Steps(live: map<Ref, Pool.Session>, max: nat, ids: map<Pool.Session, M.Sid>, s: M.State, step: M.Step)
    reads live.Values
  {
    M.Enabled(s, max, step) && Represents(live, ids, M.Apply(s, max, step))
  }

  /** A request that looks for its session, and what is evicted if it is not there. */
  datatype Looking = Looking(pool: Pool.Sessions, ids: map<Pool.Session, M.Sid>, s: M.State, t: M.Tid, ref: Ref,
                             names: seq<Ref>)

  predicate Asks(k: Looking) {
    k.t in k.s.threads && k.s.threads[k.t].Calling? && k.s.threads[k.t].ref == k.ref
  }

  twostate predicate SameDead(live: map<Ref, Pool.Session>)
    reads live.Values
  {
    forall x :: x in live.Values ==> x.dead == old(x.dead)
  }

  /** Finding it alive is the one step. */
  twostate lemma HitStands(k: Looking)
    requires old(Represents(k.pool.live, k.ids, k.s)) && Apart(k.ids) && k.pool.live == old(k.pool.live) && Asks(k)
    requires k.ref in k.pool.live && !k.pool.live[k.ref].dead && SameDead(k.pool.live)
    requires forall x :: x in k.pool.live.Values && x != k.pool.live[k.ref] ==> x.used == old(x.used)
    ensures Steps(k.pool.live, k.pool.max, k.ids, k.s, M.Hit(k.t, k.pool.live[k.ref].used))
  {
    var live, n := k.pool.live, M.Hit(k.t, k.pool.live[k.ref].used);
    assert old(Stands(live[k.ref], k.ids, k.s.live[k.ref], k.s.sessions)) && live[k.ref] in live.Values;
    forall r | r in live ensures Stands(live[r], k.ids, M.Apply(k.s, k.pool.max, n).live[r],
                                        M.Apply(k.s, k.pool.max, n).sessions) {
      assert old(Stands(live[r], k.ids, k.s.live[r], k.s.sessions)) && live[r] in live.Values;
    }
  }

  /** And making room for a new one is the other. */
  twostate lemma MissStands(k: Looking)
    requires old(Represents(k.pool.live, k.ids, k.s)) && Asks(k) && SameDead(old(k.pool.live))
    requires !(k.ref in old(k.pool.live) && !old(k.pool.live)[k.ref].dead)
    requires Pool.UsedOf(old(k.pool.live)) == old(Pool.UsedOf(k.pool.live))
    requires Evicts(Pool.UsedOf(old(k.pool.live)), k.pool.max, k.names)
    requires k.pool.live == old(k.pool.live) - Names(k.names)
    ensures Steps(k.pool.live, k.pool.max, k.ids, k.s, M.Miss(k.t, k.names))
  {
    var was := old(k.pool.live);
    forall r | r in was ensures Stands(was[r], k.ids, k.s.live[r], k.s.sessions) {
      assert old(Stands(was[r], k.ids, k.s.live[r], k.s.sessions)) && was[r] in was.Values;
      assert Pool.UsedOf(was)[r] == old(Pool.UsedOf(was)[r]);
    }
    MissApplies(k, was);
  }

  lemma MissApplies(k: Looking, was: map<Ref, Pool.Session>)
    requires Represents(was, k.ids, k.s) && Asks(k) && !(k.ref in was && !was[k.ref].dead)
    requires Evicts(Pool.UsedOf(was), k.pool.max, k.names) && k.pool.live == was - Names(k.names)
    ensures Steps(k.pool.live, k.pool.max, k.ids, k.s, M.Miss(k.t, k.names))
  {
    SameTimes(was, k.ids, k.s);
    assert k.ref in was ==> Stands(was[k.ref], k.ids, k.s.live[k.ref], k.s.sessions);
    forall r | r in k.pool.live ensures Stands(k.pool.live[r], k.ids, k.s.live[r], k.s.sessions) {
      assert Stands(was[r], k.ids, k.s.live[r], k.s.sessions);
    }
  }

  /** Finding a session, or making room for a new one. */
  method Lookup(pool: Pool.Sessions, ghost ids: map<Pool.Session, M.Sid>, ghost s: M.State, ghost t: M.Tid,
                ref: Ref, now: int) returns (hit: bool, victims: seq<Pool.Session>, ghost names: seq<Ref>)
    requires pool.max >= 1 && "" !in pool.live && Represents(pool.live, ids, s) && Apart(ids)
    requires t in s.threads && s.threads[t].Calling? && s.threads[t].ref == ref
    modifies pool`live, pool.live.Values`used
    ensures Steps(pool.live, pool.max, ids, s, if hit then M.Hit(t, now) else M.Miss(t, names))
  {
    hit, victims, names := pool.Lookup(ref, now);
    ghost var k := Looking(pool, ids, s, t, ref, names);
    if hit {
      HitStands(k);
    } else {
      MissStands(k);
    }
  }

  /** Publishing a session just loaded, or keeping the one published meanwhile. */
  method Publish(pool: Pool.Sessions, ghost ids: map<Pool.Session, M.Sid>, ghost s: M.State, ghost t: M.Tid,
                 ref: Ref, x: Pool.Session) returns (kept: Pool.Session)
    requires Represents(pool.live, ids, s) && t in s.threads && s.threads[t].Publishing? && s.threads[t].ref == ref
    requires Stands(x, ids, s.threads[t].sid, s.sessions)
    modifies pool`live
    ensures Steps(pool.live, pool.max, ids, s, M.Publish(t))
    ensures kept in ids && M.Apply(s, pool.max, M.Publish(t)).threads[t].Working?
      && ids[kept] == M.Apply(s, pool.max, M.Publish(t)).threads[t].sid
  {
    ghost var was := pool.live;
    assert ref in was ==> Stands(was[ref], ids, s.live[ref], s.sessions);
    kept := pool.Publish(ref, x);
    ghost var n := M.Apply(s, pool.max, M.Publish(t));
    forall r | r in pool.live ensures Stands(pool.live[r], ids, n.live[r], n.sessions) {
      assert r in was ==> Stands(was[r], ids, s.live[r], s.sessions);
    }
  }

  /** Taking a failed session out, by object there and by number here. */
  method Drop(pool: Pool.Sessions, ghost ids: map<Pool.Session, M.Sid>, ghost s: M.State, ghost t: M.Tid,
              ref: Ref, x: Pool.Session)
    requires Represents(pool.live, ids, s) && Apart(ids)
    requires t in s.threads && s.threads[t].Dropping? && s.threads[t].ref == ref
    requires x in ids && ids[x] == s.threads[t].sid
    modifies pool`live
    ensures Steps(pool.live, pool.max, ids, s, M.Drop(t))
  {
    ghost var was := pool.live;
    assert ref in was ==> Stands(was[ref], ids, s.live[ref], s.sessions);
    pool.Drop(ref, x);
    ghost var n := M.Apply(s, pool.max, M.Drop(t));
    forall r | r in pool.live ensures Stands(pool.live[r], ids, n.live[r], n.sessions) {
      assert Stands(was[r], ids, s.live[r], s.sessions);
    }
  }

  method CloseFile(pool: Pool.Sessions, ghost ids: map<Pool.Session, M.Sid>, ghost s: M.State, ref: Ref)
      returns (x: Pool.Session?)
    requires Represents(pool.live, ids, s)
    modifies pool`live
    ensures x != null <==> M.Enabled(s, pool.max, M.CloseFile(ref))
    ensures x != null ==> Represents(pool.live, ids, M.Apply(s, pool.max, M.CloseFile(ref)))
    ensures x == null ==> Represents(pool.live, ids, s)
  {
    ghost var was := pool.live;
    x := pool.CloseFile(ref);
    forall r | r in pool.live ensures Stands(pool.live[r], ids, s.live[r], s.sessions) {
      assert Stands(was[r], ids, s.live[r], s.sessions);
    }
  }

  method Reap(pool: Pool.Sessions, ghost ids: map<Pool.Session, M.Sid>, ghost s: M.State, cutoff: int)
      returns (victims: set<Pool.Session>)
    requires Represents(pool.live, ids, s)
    modifies pool`live
    ensures Steps(pool.live, pool.max, ids, s, M.Reap(cutoff))
  {
    SameTimes(pool.live, ids, s);
    ghost var was := pool.live;
    victims := pool.Reap(cutoff);
    forall r | r in pool.live ensures Stands(pool.live[r], ids, s.live[r], s.sessions) {
      assert Stands(was[r], ids, s.live[r], s.sessions);
    }
  }

  // ------------------------------------------------------ a session by itself --

  /** The requests answered by the lines still to come, in order. */
  function Answers(out: seq<Pool.Line>): seq<nat> {
    if out == [] then [] else (if out[0].Answer? then [out[0].id] else []) + Answers(out[1..])
  }

  predicate CountFrom(ids: seq<nat>, first: nat) {
    forall i :: 0 <= i < |ids| ==> ids[i] == first + i
  }

  /** One session by object and by value, nobody using it: what is still to come on its
      pipe is one answer after another, beginning after the last one read. */
  ghost predicate Idle(x: Pool.Session, y: M.Session)
    reads x
  {
    && y.owner.None? && x.requests == y.requests && x.used == y.used && x.torn == y.torn
    && (x.dead <==> !y.end.Healthy?)
    && (y.end.Healthy? ==> y.got == y.emitted == y.sent == y.requests && y.pipe == [])
    && CountFrom(Answers(x.out), y.got + 1)
  }

  /** The turns of one request from taking the mutex to letting go of it: the write fails,
      or nothing comes back, or sharkd answers. */
  datatype Course = WriteFails | NothingComes | Comes(reply: M.Reply)

  function Turns(t: M.Tid, pc: M.Pc, y: M.Session, now: int, course: Course): (M.Pc, M.Session)
    requires M.InDo(pc) && pc.io.Waiting? && y.pipe == []
  {
    var (p1, y1) := M.Turn(t, pc, y, M.Lock(t, now));
    if !y.end.Healthy? then (p1, y1)
    else if course.WriteFails? then M.Turn(t, p1, y1, M.Write(t, false))
    else
      var (p2, y2) := M.Turn(t, p1, y1, M.Write(t, true));
      if course.NothingComes? then M.Turn(t, p2, y2, M.ReadFails(t))
      else M.Turn(t, p2, M.EmitAnswer(y2), M.Receive(t, course.reply))
  }

  function ReplyOf(reply: Pool.Reply): M.Reply {
    match reply
    case Result => M.Result
    case Refusal => M.Refusal
    case Garbage => M.Garbage
  }

  /** What comes of a request, by the lines there are. */
  function CourseOf(writes: bool, out: seq<Pool.Line>): Course {
    var n := Pool.Greeting(out);
    if !writes then WriteFails
    else if n == |out| then NothingComes
    else Comes(ReplyOf(out[n].reply))
  }

  /** What those turns come to. */
  lemma TurnsTold(t: M.Tid, pc: M.Pc, y: M.Session, now: int, course: Course)
    requires M.InDo(pc) && pc.io.Waiting? && y.pipe == [] && y.owner.None?
    requires y.end.Healthy? ==> y.got == y.emitted == y.sent == y.requests
    ensures var (p, z) := Turns(t, pc, y, now, course);
      && (p, z.end.Healthy?) ==
         (if !y.end.Healthy? || !course.Comes? || course.reply.Garbage? then (M.AfterError(pc), false)
          else if course.reply.Refusal? then (M.AfterError(pc), true)
          else (M.AfterOk(pc, z.requests, z.requests), true))
      && z.owner.None? && z.torn == y.torn && z.pipe == []
      && (y.end.Healthy? ==> z.requests == y.requests + 1 && z.used == now)
      && (!y.end.Healthy? ==> z == y)
      && (z.end.Healthy? ==> z.got == z.emitted == z.sent == z.requests)
  {
  }

  lemma AnswersHead(line: Pool.Line, rest: seq<Pool.Line>)
    ensures Answers([line] + rest) == (if line.Answer? then [line.id] else []) + Answers(rest)
    ensures Pool.Greeting([line] + rest) == if line.Answer? then 0 else 1 + Pool.Greeting(rest)
  {
    assert ([line] + rest)[1..] == rest;
  }

  lemma {:induction false} AnswersFrom(out: seq<Pool.Line>, n: nat)
    requires n == Pool.Greeting(out) < |out|
    ensures Answers(out) == [out[n].id] + Answers(out[n + 1..])
  {
    var rest := out[1..];
    assert out == [out[0]] + rest;
    AnswersHead(out[0], rest);
    if n > 0 {
      AnswersFrom(rest, n - 1);
      assert rest[n..] == out[n + 1..];
    }
  }

  lemma CountOn(ids: seq<nat>, id: nat, left: seq<nat>, first: nat)
    requires ids == [id] + left && CountFrom(ids, first)
    ensures id == first && CountFrom(left, first + 1)
  {
    assert ids[0] == id;
    assert forall i :: 0 <= i < |left| ==> left[i] == ids[i + 1];
  }

  /** What is still to come, once a request has read its answer. */
  lemma AnswersLeft(out: seq<Pool.Line>, n: nat, got: nat)
    requires n == Pool.Greeting(out) < |out| && CountFrom(Answers(out), got + 1)
    ensures out[n].id == got + 1 && CountFrom(Answers(out[n + 1..]), got + 2)
  {
    AnswersFrom(out, n);
    CountOn(Answers(out), out[n].id, Answers(out[n + 1..]), got + 1);
  }

  /** One request is those turns and no others, and what it returns is the answer the
      turns read: its own. */
  method Do(x: Pool.Session, ghost y: M.Session, ghost t: M.Tid, ghost pc: M.Pc, now: int, writes: bool)
      returns (r: Pool.Outcome, ghost p: M.Pc, ghost z: M.Session)
    requires Idle(x, y) && M.InDo(pc) && pc.io.Waiting? && y.pipe == []
    modifies x
    ensures (p, z) == Turns(t, pc, y, now, CourseOf(writes, old(x.out)))
    ensures z.end.Healthy? ==> Idle(x, z)
    ensures x.requests == z.requests && x.used == z.used && x.torn == z.torn && (x.dead <==> !z.end.Healthy?)
    ensures r.Dead? <==> !z.end.Healthy?
    ensures r.Answered? ==> r.id == z.requests && p == M.AfterOk(pc, r.id, r.id)
    ensures !r.Answered? ==> p == M.AfterError(pc)
  {
    ghost var course := CourseOf(writes, x.out);
    ghost var after := Turns(t, pc, y, now, course);
    p, z := after.0, after.1;
    if Pool.Greeting(x.out) < |x.out| {
      AnswersLeft(x.out, Pool.Greeting(x.out), y.got);
    }
    TurnsTold(t, pc, y, now, course);
    r := x.Do(now, writes);
  }

  /** A close ends a session nobody is using, and tears it down if it is the one to end it. */
  method Close(x: Pool.Session, ghost y: M.Session) returns (teardown: bool)
    requires Idle(x, y)
    modifies x`dead, x`torn
    ensures x.dead && Idle(x, M.CloseSession(y))
    ensures teardown <==> y.end.Healthy?
  {
    teardown := x.Close();
  }
}
