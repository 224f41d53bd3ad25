/** What holds of the session pool in every interleaving. */
module PoolSafety {
  import opened Options
  import opened PoolRules
  import opened PoolMachine

  predicate HasSid(pc: Pc) {
    !(pc.Calling? || pc.Spawning? || pc.Done?)
  }

  predicate HasRef(pc: Pc) {
    !(pc.Abandoning? || pc.Done?)
  }

  /** The request is the one that started the session, and nobody else knows of it. */
  predicate Starts(pc: Pc) {
    pc.Loading? || pc.Publishing? || pc.Abandoning?
  }

  predicate InRequest(pc: Pc) {
    InDo(pc) && !pc.io.Waiting?
  }

  // -------------------------------------------------------------- invariant --

  type Table = map<Sid, Session>

  /** Every session held is held once, under its own reference, with no close under way,
      and none that a close has ended is held at all. */
  ghost predicate LiveOk(x: Table, live: map<Ref, Sid>, closing: multiset<Sid>) {
    forall r :: r in live ==>
      && r != "" && live[r] in x && live[r] !in closing
      && x[live[r]].ref == r && !x[live[r]].end.Closed? && x[live[r]].starter.None?
  }

  ghost predicate ClosingOk(x: Table, closing: multiset<Sid>) {
    forall sid :: sid in closing ==> sid in x && x[sid].starter.None?
  }

  predicate IsLive(x: Table, live: map<Ref, Sid>, sid: Sid)
    requires sid in x
  {
    x[sid].ref in live && live[x[sid].ref] == sid
  }

  /** A session that has not ended is being loaded, is live under its own reference, or
      has a close started for it. */
  ghost predicate NoneLost(x: Table, live: map<Ref, Sid>, closing: multiset<Sid>) {
    forall sid :: sid in x && x[sid].end.Healthy? ==>
      x[sid].starter.Some? || IsLive(x, live, sid) || sid in closing
  }

  ghost predicate PlacesOk(x: Table, live: map<Ref, Sid>, closing: multiset<Sid>) {
    LiveOk(x, live, closing) && ClosingOk(x, closing) && NoneLost(x, live, closing)
  }

  /** What a request knows of its session. */
  ghost predicate ThreadOk(t: Tid, pc: Pc, sessions: map<Sid, Session>) {
    && (HasRef(pc) ==> pc.ref != "")
    && (HasSid(pc) ==> pc.sid in sessions && SessionKnown(t, pc, sessions[pc.sid]))
    && (pc.Done? && pc.outcome.Answered? ==> pc.outcome.asked == pc.outcome.answer)
  }

  ghost predicate SessionKnown(t: Tid, pc: Pc, x: Session)
    requires HasSid(pc)
  {
    && x.starter == (if Starts(pc) then Some(t) else None)
    && (pc.Loading? || pc.Publishing? ==> x.ref == pc.ref)
    && (pc.Publishing? ==> x.end.Healthy?)
    && (pc.Dropping? || pc.Ending? ==> !x.end.Healthy?)
    && (InRequest(pc) ==> InRequestOk(t, pc.io, x))
  }

  /** In the middle of a request, the mutex is held and one answer is still to be read:
      this request's. */
  ghost predicate InRequestOk(t: Tid, io: Io, x: Session) {
    && x.owner == Some(t) && x.end.Healthy? && x.requests == x.got + 1
    && (io.Writing? ==> x.sent == x.got)
    && (io.Reading? ==> x.sent == x.requests && io.id == x.requests)
  }

  ghost predicate ThreadsOk(s: State) {
    forall t :: t in s.threads ==> ThreadOk(t, s.threads[t], s.sessions)
  }

  /** What a session knows of the requests, and of its pipe. */
  ghost predicate SessionOk(sid: Sid, x: Session, threads: map<Tid, Pc>) {
    && WireOk(x)
    && (x.owner.Some? ==> var t := x.owner.value;
          t in threads && InRequest(threads[t]) && threads[t].sid == sid)
    && (x.starter.Some? ==> var t := x.starter.value;
          t in threads && Starts(threads[t]) && threads[t].sid == sid)
  }

  ghost predicate WireOk(x: Session) {
    && x.got <= x.emitted <= x.sent <= x.requests
    && |x.pipe| == x.emitted - x.got
    && (forall i :: 0 <= i < |x.pipe| ==> x.pipe[i] == x.got + 1 + i)
    && (x.owner.None? && !x.end.Broken? ==> x.got == x.requests)
    && x.torn == (if x.end.Closed? then 1 else 0)
  }

  ghost predicate SessionsOk(s: State) {
    forall sid :: sid in s.sessions ==> SessionOk(sid, s.sessions[sid], s.threads)
  }

  ghost predicate Inv(s: State) {
    PlacesOk(s.sessions, s.live, s.closing) && ThreadsOk(s) && SessionsOk(s)
  }

  // ------------------------------------------- requests and their sessions --

  /** A change to a session that `t` may make without another request noticing. */
  predicate Compatible(t: Option<Tid>, x: Session, y: Session) {
    && x.ref == y.ref
    && (x.starter.Some? && x.starter != t ==> y.starter == x.starter && y.end == x.end)
    && (x.starter.None? ==> y.starter.None?)
    && (!x.end.Healthy? ==> !y.end.Healthy?)
    && (x.owner.Some? && x.owner != t ==>
          y.owner == x.owner && y.end == x.end && y.requests == x.requests && y.got == x.got && y.sent == x.sent)
  }

  lemma OthersUnmoved(t: Option<Tid>, u: Tid, pc: Pc, x: Session, y: Session)
    requires HasSid(pc) && t != Some(u) && SessionKnown(u, pc, x) && Compatible(t, x, y)
    ensures SessionKnown(u, pc, y)
  {
  }

  lemma SetBothOk(s: State, t: Tid, pc: Pc, sid: Sid, y: Session)
    requires ThreadsOk(s) && SessionsOk(s) && t in s.threads
    requires sid in s.sessions ==> Compatible(Some(t), s.sessions[sid], y)
    requires HasSid(s.threads[t]) ==> s.threads[t].sid == sid
    requires ThreadOk(t, pc, s.sessions[sid := y]) && SessionOk(sid, y, s.threads[t := pc])
    ensures ThreadsOk(SetBoth(s, t, pc, sid, y)) && SessionsOk(SetBoth(s, t, pc, sid, y))
  {
    var n := SetBoth(s, t, pc, sid, y);
    forall u | u in n.threads ensures ThreadOk(u, n.threads[u], n.sessions) {
      if u != t {
        assert ThreadOk(u, s.threads[u], s.sessions);
        if HasSid(s.threads[u]) && s.threads[u].sid == sid {
          OthersUnmoved(Some(t), u, s.threads[u], s.sessions[sid], y);
        }
      }
    }
    forall z | z in n.sessions ensures SessionOk(z, n.sessions[z], n.threads) {
      if z != sid {
        assert SessionOk(z, s.sessions[z], s.threads);
      }
    }
  }

  lemma SetThreadOk(s: State, t: Tid, pc: Pc)
    requires ThreadsOk(s) && SessionsOk(s)
    requires t in s.threads ==> !InRequest(s.threads[t]) && !Starts(s.threads[t])
    requires ThreadOk(t, pc, s.sessions)
    ensures ThreadsOk(SetThread(s, t, pc)) && SessionsOk(SetThread(s, t, pc))
  {
    var n := SetThread(s, t, pc);
    forall z | z in n.sessions ensures SessionOk(z, n.sessions[z], n.threads) {
      assert SessionOk(z, s.sessions[z], s.threads);
    }
  }

  lemma SetSessionOk(s: State, sid: Sid, y: Session)
    requires ThreadsOk(s) && SessionsOk(s) && sid in s.sessions
    requires Compatible(None, s.sessions[sid], y) && SessionOk(sid, y, s.threads)
    ensures var n := s.(sessions := s.sessions[sid := y]); ThreadsOk(n) && SessionsOk(n)
  {
    var n := s.(sessions := s.sessions[sid := y]);
    forall u | u in n.threads ensures ThreadOk(u, n.threads[u], n.sessions) {
      assert ThreadOk(u, s.threads[u], s.sessions);
      if HasSid(s.threads[u]) && s.threads[u].sid == sid {
        OthersUnmoved(None, u, s.threads[u], s.sessions[sid], y);
      }
    }
    forall z | z in n.sessions ensures SessionOk(z, n.sessions[z], n.threads) {
      assert SessionOk(z, s.sessions[z], s.threads);
    }
  }

  // ------------------------------------------------- sessions and the pool --

  lemma ChangeKeepsPlaces(x: Table, live: map<Ref, Sid>, closing: multiset<Sid>, sid: Sid, y: Session)
    requires PlacesOk(x, live, closing) && sid in x
    requires y.ref == x[sid].ref && y.starter == x[sid].starter
    requires y.end.Healthy? ==> x[sid].end.Healthy?
    requires y.end.Closed? ==> !IsLive(x, live, sid)
    ensures PlacesOk(x[sid := y], live, closing)
  {
  }

  lemma StartKeepsPlaces(x: Table, live: map<Ref, Sid>, closing: multiset<Sid>, sid: Sid, y: Session)
    requires PlacesOk(x, live, closing) && sid !in x && y.starter.Some?
    ensures PlacesOk(x[sid := y], live, closing)
  {
  }

  /** Taking sessions out of the pool starts a close for each. */
  lemma RemoveKeepsPlaces(x: Table, live: map<Ref, Sid>, closing: multiset<Sid>, refs: set<Ref>)
    requires PlacesOk(x, live, closing)
    ensures PlacesOk(x, live - refs, closing + Sids(live, refs))
  {
    var out := set r | r in refs && r in live :: live[r];
    var after := closing + Sids(live, refs);
    assert forall sid :: sid in after <==> sid in closing || sid in out;
    forall r | r in live - refs ensures live[r] !in out {
      assert x[live[r]].ref == r;
      assert forall q :: q in refs && q in live ==> x[live[q]].ref == q;
    }
    forall sid | sid in x && x[sid].end.Healthy?
      ensures x[sid].starter.Some? || IsLive(x, live - refs, sid) || sid in after
    {
      if IsLive(x, live, sid) && x[sid].ref in refs {
        assert sid in out;
      }
    }
  }

  /** Publishing replaces no session that is alive. */
  lemma PublishKeepsPlaces(x: Table, live: map<Ref, Sid>, closing: multiset<Sid>, sid: Sid)
    requires PlacesOk(x, live, closing) && sid in x && x[sid].starter.Some? && x[sid].ref != ""
    requires x[sid].end.Healthy?
    requires x[sid].ref in live ==> !x[live[x[sid].ref]].end.Healthy?
    ensures PlacesOk(x[sid := x[sid].(starter := None)], live[x[sid].ref := sid], closing)
  {
  }

  lemma DiscardKeepsPlaces(x: Table, live: map<Ref, Sid>, closing: multiset<Sid>, sid: Sid)
    requires PlacesOk(x, live, closing) && sid in x && x[sid].starter.Some?
    ensures PlacesOk(x[sid := x[sid].(starter := None)], live, closing + multiset{sid})
  {
  }

  lemma AbandonKeepsPlaces(x: Table, live: map<Ref, Sid>, closing: multiset<Sid>, sid: Sid)
    requires PlacesOk(x, live, closing) && sid in x && x[sid].starter.Some?
    ensures PlacesOk(x[sid := CloseSession(x[sid]).(starter := None)], live, closing)
  {
  }

  lemma DropKeepsPlaces(x: Table, live: map<Ref, Sid>, closing: multiset<Sid>, ref: Ref)
    requires PlacesOk(x, live, closing) && ref in live && !x[live[ref]].end.Healthy?
    ensures PlacesOk(x, live - {ref}, closing)
  {
  }

  lemma ClosedKeepsPlaces(x: Table, live: map<Ref, Sid>, closing: multiset<Sid>, sid: Sid)
    requires PlacesOk(x, live, closing) && sid in closing
    ensures PlacesOk(x[sid := CloseSession(x[sid])], live, closing - multiset{sid})
  {
  }

  // ------------------------------------------------------------------ steps --

  /** No session that has not ended is lost, whatever step is taken. */
  lemma StepKeepsPlaces(s: State, max: nat, step: Step)
    requires Inv(s) && Enabled(s, max, step)
    ensures var n := Apply(s, max, step); PlacesOk(n.sessions, n.live, n.closing)
  {
    match step {
      case Arrive(_, _) =>
      case StartFails(_) =>
      case Judge(_) =>
      case Hit(_, _) => SessionStepKeepsPlaces(s, max, step);
      case Start(_, _, _) => SessionStepKeepsPlaces(s, max, step);
      case RunClose(_) => SessionStepKeepsPlaces(s, max, step);
      case Emit(_) => SessionStepKeepsPlaces(s, max, step);
      case Miss(_, _) => RemovalStepKeepsPlaces(s, max, step);
      case CloseFile(_) => RemovalStepKeepsPlaces(s, max, step);
      case Reap(_) => RemovalStepKeepsPlaces(s, max, step);
      case Lock(t, _) => TurnKeepsPlaces(s, max, step, t);
      case Write(t, _) => TurnKeepsPlaces(s, max, step, t);
      case Receive(t, _) => TurnKeepsPlaces(s, max, step, t);
      case ReadFails(t) => TurnKeepsPlaces(s, max, step, t);
      case Publish(_) => PublishStepKeepsPlaces(s, max, step);
      case Abandon(_) => EndStepKeepsPlaces(s, max, step);
      case EndFailed(_) => EndStepKeepsPlaces(s, max, step);
      case Drop(_) => DropStepKeepsPlaces(s, max, step);
    }
  }

  lemma SessionStepKeepsPlaces(s: State, max: nat, step: Step)
    requires PlacesOk(s.sessions, s.live, s.closing) && Enabled(s, max, step)
    requires step.Hit? || step.Start? || step.RunClose? || step.Emit?
    ensures var n := Apply(s, max, step); PlacesOk(n.sessions, n.live, n.closing)
  {
    var n := Apply(s, max, step).sessions;
    match step {
      case Hit(t, _) =>
        var sid := s.live[s.threads[t].ref];
        ChangeKeepsPlaces(s.sessions, s.live, s.closing, sid, n[sid]);
      case Start(_, sid, _) => StartKeepsPlaces(s.sessions, s.live, s.closing, sid, n[sid]);
      case RunClose(sid) => ClosedKeepsPlaces(s.sessions, s.live, s.closing, sid);
      case Emit(sid) => ChangeKeepsPlaces(s.sessions, s.live, s.closing, sid, n[sid]);
    }
  }

  lemma RemovalStepKeepsPlaces(s: State, max: nat, step: Step)
    requires PlacesOk(s.sessions, s.live, s.closing) && Enabled(s, max, step)
    requires step.Miss? || step.CloseFile? || step.Reap?
    ensures var n := Apply(s, max, step); PlacesOk(n.sessions, n.live, n.closing)
  {
    match step {
      case Miss(_, victims) => RemoveKeepsPlaces(s.sessions, s.live, s.closing, Names(victims));
      case Reap(cutoff) => RemoveKeepsPlaces(s.sessions, s.live, s.closing, Idle(UsedBy(s), cutoff));
      case CloseFile(ref) =>
        RemoveKeepsPlaces(s.sessions, s.live, s.closing, {ref});
        OneSid(s.live, ref);
    }
  }

  lemma OneSid(live: map<Ref, Sid>, ref: Ref)
    requires ref in live
    ensures Sids(live, {ref}) == multiset{live[ref]}
  {
    assert (set r | r in {ref} && r in live :: live[r]) == {live[ref]};
  }

  lemma EndStepKeepsPlaces(s: State, max: nat, step: Step)
    requires Inv(s) && Enabled(s, max, step) && (step.Abandon? || step.EndFailed?)
    ensures var n := Apply(s, max, step); PlacesOk(n.sessions, n.live, n.closing)
  {
    var sid := s.threads[step.t].sid;
    assert ThreadOk(step.t, s.threads[step.t], s.sessions);
    if step.Abandon? {
      AbandonKeepsPlaces(s.sessions, s.live, s.closing, sid);
    } else {
      assert s.sessions[sid := CloseSession(s.sessions[sid])] == s.sessions;
    }
  }

  lemma PublishStepKeepsPlaces(s: State, max: nat, step: Step)
    requires Inv(s) && Enabled(s, max, step) && step.Publish?
    ensures var n := Apply(s, max, step); PlacesOk(n.sessions, n.live, n.closing)
  {
    var pc := s.threads[step.t];
    assert ThreadOk(step.t, pc, s.sessions);
    if LiveHealthy(s, pc.ref) {
      DiscardKeepsPlaces(s.sessions, s.live, s.closing, pc.sid);
    } else {
      PublishKeepsPlaces(s.sessions, s.live, s.closing, pc.sid);
    }
  }

  lemma DropStepKeepsPlaces(s: State, max: nat, step: Step)
    requires Inv(s) && Enabled(s, max, step) && step.Drop?
    ensures var n := Apply(s, max, step); PlacesOk(n.sessions, n.live, n.closing)
  {
    var pc := s.threads[step.t];
    assert ThreadOk(step.t, pc, s.sessions);
    if pc.ref in s.live && s.live[pc.ref] == pc.sid {
      DropKeepsPlaces(s.sessions, s.live, s.closing, pc.ref);
    }
  }

  lemma TurnKeepsPlaces(s: State, max: nat, step: Step, t: Tid)
    requires Inv(s) && Enabled(s, max, step) && IsTurn(step) && t == step.t
    ensures var n := ApplyTurn(s, t, step); PlacesOk(n.sessions, n.live, n.closing)
  {
    var sid := s.threads[t].sid;
    var (_, y) := Turn(t, s.threads[t], s.sessions[sid], step);
    ChangeKeepsPlaces(s.sessions, s.live, s.closing, sid, y);
  }

  /** When a turn of `do` may be taken. */
  predicate CanTurn(t: Tid, pc: Pc, x: Session, step: Step) {
    && InDo(pc) && IsTurn(step)
    && (step.Lock? ==> pc.io.Waiting? && x.owner.None?)
    && (step.Write? ==> pc.io.Writing?)
    && (step.Receive? || step.ReadFails? ==> pc.io.Reading?)
    && (step.Receive? ==> x.pipe != [])
  }

  /** A turn of `do` leaves the session and the request agreeing, and the answer it reads
      is its own. */
  lemma TurnOk(t: Tid, pc: Pc, x: Session, step: Step)
    requires CanTurn(t, pc, x, step) && SessionKnown(t, pc, x) && WireOk(x)
    ensures var (p, y) := Turn(t, pc, x, step);
      && Compatible(Some(t), x, y) && WireOk(y)
      && (HasSid(p) ==> p.sid == pc.sid && SessionKnown(t, p, y))
      && (HasRef(p) ==> HasRef(pc) && p.ref == pc.ref)
      && y.starter == x.starter && (y.starter.Some? ==> Starts(p))
      && (y.owner.Some? ==> y.owner == Some(t) && InRequest(p))
      && (p.Done? ==> p.outcome.Answered? && p.outcome.asked == p.outcome.answer)
    ensures step.Receive? ==> x.pipe[0] == pc.io.id
  {
  }

  lemma TurnKeepsRequests(s: State, max: nat, step: Step, t: Tid)
    requires Inv(s) && Enabled(s, max, step) && IsTurn(step) && t == step.t
    ensures var n := ApplyTurn(s, t, step); ThreadsOk(n) && SessionsOk(n)
  {
    var pc := s.threads[t];
    var (p, y) := Turn(t, pc, s.sessions[pc.sid], step);
    assert ThreadOk(t, pc, s.sessions) && SessionOk(pc.sid, s.sessions[pc.sid], s.threads);
    TurnOk(t, pc, s.sessions[pc.sid], step);
    SetBothOk(s, t, p, pc.sid, y);
  }

  /** Requests and sessions go on agreeing, whatever step is taken. */
  lemma StepKeepsRequests(s: State, max: nat, step: Step)
    requires Inv(s) && Enabled(s, max, step)
    ensures ThreadsOk(Apply(s, max, step)) && SessionsOk(Apply(s, max, step))
  {
    match step {
      case Arrive(_, _) => MoveKeepsRequests(s, max, step, step.t);
      case Hit(_, _) => HitKeepsRequests(s, max, step);
      case Miss(_, _) => MoveKeepsRequests(s, max, step, step.t);
      case StartFails(_) => MoveKeepsRequests(s, max, step, step.t);
      case Start(_, _, _) => StartKeepsRequests(s, max, step);
      case Lock(t, _) => TurnKeepsRequests(s, max, step, t);
      case Write(t, _) => TurnKeepsRequests(s, max, step, t);
      case Receive(t, _) => TurnKeepsRequests(s, max, step, t);
      case ReadFails(t) => TurnKeepsRequests(s, max, step, t);
      case Publish(_) => PublishKeepsRequests(s, max, step);
      case Abandon(_) => EndKeepsRequests(s, max, step, step.t);
      case Judge(_) => MoveKeepsRequests(s, max, step, step.t);
      case Drop(_) => MoveKeepsRequests(s, max, step, step.t);
      case EndFailed(_) => EndKeepsRequests(s, max, step, step.t);
      case CloseFile(_) =>
      case Reap(_) =>
      case RunClose(sid) => SessionKeepsRequests(s, max, step, sid);
      case Emit(sid) => SessionKeepsRequests(s, max, step, sid);
    }
  }

  /** Steps that only move a request on, whatever they do to the pool. */
  lemma MoveKeepsRequests(s: State, max: nat, step: Step, t: Tid)
    requires Inv(s) && Enabled(s, max, step)
    requires step.Arrive? || step.Miss? || step.StartFails? || step.Judge? || step.Drop?
    requires t == step.t
    ensures ThreadsOk(Apply(s, max, step)) && SessionsOk(Apply(s, max, step))
  {
    if t in s.threads {
      assert ThreadOk(t, s.threads[t], s.sessions);
    }
    SetThreadOk(s, t, Apply(s, max, step).threads[t]);
  }

  lemma StartKeepsRequests(s: State, max: nat, step: Step)
    requires Inv(s) && Enabled(s, max, step) && step.Start?
    ensures ThreadsOk(Apply(s, max, step)) && SessionsOk(Apply(s, max, step))
  {
    var n := Apply(s, max, step);
    assert ThreadOk(step.t, s.threads[step.t], s.sessions);
    SetBothOk(s, step.t, n.threads[step.t], step.sid, n.sessions[step.sid]);
  }

  lemma EndKeepsRequests(s: State, max: nat, step: Step, t: Tid)
    requires Inv(s) && Enabled(s, max, step) && (step.Abandon? || step.EndFailed?) && t == step.t
    ensures ThreadsOk(Apply(s, max, step)) && SessionsOk(Apply(s, max, step))
  {
    var n, sid := Apply(s, max, step), s.threads[t].sid;
    assert ThreadOk(t, s.threads[t], s.sessions) && SessionOk(sid, s.sessions[sid], s.threads);
    SetBothOk(s, t, n.threads[t], sid, n.sessions[sid]);
  }

  lemma SessionKeepsRequests(s: State, max: nat, step: Step, sid: Sid)
    requires Inv(s) && Enabled(s, max, step) && (step.RunClose? || step.Emit?) && sid == step.sid
    ensures ThreadsOk(Apply(s, max, step)) && SessionsOk(Apply(s, max, step))
  {
    assert SessionOk(sid, s.sessions[sid], s.threads);
    SetSessionOk(s, sid, Apply(s, max, step).sessions[sid]);
  }

  lemma HitKeepsRequests(s: State, max: nat, step: Step)
    requires Inv(s) && Enabled(s, max, step) && step.Hit?
    ensures ThreadsOk(Apply(s, max, step)) && SessionsOk(Apply(s, max, step))
  {
    var t := step.t;
    var sid := s.live[s.threads[t].ref];
    var y := s.sessions[sid].(used := step.now);
    assert ThreadOk(t, s.threads[t], s.sessions) && SessionOk(sid, s.sessions[sid], s.threads);
    SetSessionOk(s, sid, y);
    SetThreadOk(s.(sessions := s.sessions[sid := y]), t, Apply(s, max, step).threads[t]);
  }

  lemma PublishKeepsRequests(s: State, max: nat, step: Step)
    requires Inv(s) && Enabled(s, max, step) && step.Publish?
    ensures ThreadsOk(Apply(s, max, step)) && SessionsOk(Apply(s, max, step))
  {
    var t, n := step.t, Apply(s, max, step);
    var sid := s.threads[t].sid;
    assert ThreadOk(t, s.threads[t], s.sessions) && SessionOk(sid, s.sessions[sid], s.threads);
    assert n.threads[t].sid != sid ==> s.live[s.threads[t].ref] == n.threads[t].sid;
    SetBothOk(s, t, n.threads[t], sid, n.sessions[sid]);
  }

  lemma StepKeepsInv(s: State, max: nat, step: Step)
    requires Inv(s) && Enabled(s, max, step)
    ensures Inv(Apply(s, max, step))
  {
    StepKeepsPlaces(s, max, step);
    StepKeepsRequests(s, max, step);
  }
}
