/** Every interleaving of the requests on the session pool of src/sharkd.go. A step takes
    one request from where it let go of a lock to where it wants the next. */
module PoolMachine {
  import opened Options
  import opened PoolRules

  type Sid = nat
  type Tid = nat

  /** How a session ended, if it has: `do` found the pipe broken, or `close` ended it. */
  datatype End = Healthy | Broken | Closed

  /** A sharkd process and its pipe. `starter` is the request that started it, until it
      is published or given up; `owner` the one holding its mutex. `sent` requests were
      written to it, it has answered `emitted` of them and `got` of the answers were
      read; `pipe` holds the rest, each by the request it answers. */
  datatype Session = Session(ref: Ref, used: int, end: End, starter: Option<Tid>, owner: Option<Tid>,
                             requests: nat, sent: nat, emitted: nat, got: nat, pipe: seq<nat>,
                             torn: nat)

  /** Where a request is inside `do`. */
  datatype Io = Waiting | Writing | Reading(id: nat)

  datatype Outcome = Answered(sid: Sid, asked: nat, answer: nat) | Failed

  /** Where a request is between two locks. */
  datatype Pc =
    | Calling(ref: Ref, attempt: nat)
    | Spawning(ref: Ref, attempt: nat)
    | Loading(ref: Ref, attempt: nat, sid: Sid, io: Io)
    | Publishing(ref: Ref, attempt: nat, sid: Sid)
    | Abandoning(sid: Sid)
    | Working(ref: Ref, attempt: nat, sid: Sid, io: Io)
    | Judging(ref: Ref, attempt: nat, sid: Sid)
    | Dropping(ref: Ref, attempt: nat, sid: Sid)
    | Ending(ref: Ref, attempt: nat, sid: Sid)
    | Done(outcome: Outcome)

  /** `closing` are the sessions a close has been started for and not yet run. */
  datatype State = State(sessions: map<Sid, Session>, live: map<Ref, Sid>,
                         threads: map<Tid, Pc>, closing: multiset<Sid>)

  const Initial := State(map[], map[], map[], multiset{})

  datatype Reply = Result | Refusal | Garbage

  datatype Step =
    | Arrive(t: Tid, ref: Ref)
    | Hit(t: Tid, now: int)
    | Miss(t: Tid, victims: seq<Ref>)
    | StartFails(t: Tid)
    | Start(t: Tid, sid: Sid, now: int)
    | Lock(t: Tid, now: int)
    | Write(t: Tid, ok: bool)
    | Receive(t: Tid, reply: Reply)
    | ReadFails(t: Tid)
    | Publish(t: Tid)
    | Abandon(t: Tid)
    | Judge(t: Tid)
    | Drop(t: Tid)
    | EndFailed(t: Tid)
    | CloseFile(ref: Ref)
    | Reap(cutoff: int)
    | RunClose(sid: Sid)
    | Emit(sid: Sid)

  // ------------------------------------------------------------------ steps --

  ghost function UsedBy(s: State): map<Ref, int>
    requires forall r :: r in s.live ==> s.live[r] in s.sessions
  {
    map r | r in s.live :: s.sessions[s.live[r]].used
  }

  predicate LiveHealthy(s: State, ref: Ref) {
    ref in s.live && s.live[ref] in s.sessions && s.sessions[s.live[ref]].end.Healthy?
  }

  /** The session a thread is running `do` on. */
  predicate InDo(pc: Pc) {
    pc.Loading? || pc.Working?
  }

  function AfterOk(pc: Pc, asked: nat, answer: nat): Pc
    requires InDo(pc)
  {
    if pc.Loading? then Publishing(pc.ref, pc.attempt, pc.sid)
    else Done(Answered(pc.sid, asked, answer))
  }

  function AfterError(pc: Pc): Pc
    requires InDo(pc)
  {
    if pc.Loading? then Abandoning(pc.sid) else Judging(pc.ref, pc.attempt, pc.sid)
  }

  function WithIo(pc: Pc, io: Io): Pc
    requires InDo(pc)
  {
    if pc.Loading? then Loading(pc.ref, pc.attempt, pc.sid, io)
    else Working(pc.ref, pc.attempt, pc.sid, io)
  }

  function SetThread(s: State, t: Tid, pc: Pc): State {
    s.(threads := s.threads[t := pc])
  }

  function SetBoth(s: State, t: Tid, pc: Pc, sid: Sid, x: Session): State {
    s.(threads := s.threads[t := pc], sessions := s.sessions[sid := x])
  }

  /** Ends a session that nobody is using, if it has not ended already. */
  function CloseSession(x: Session): Session {
    if x.end.Healthy? then x.(end := Closed, torn := x.torn + 1) else x
  }

  /** sharkd answers one request more. */
  function EmitAnswer(x: Session): Session {
    x.(emitted := x.emitted + 1, pipe := x.pipe + [x.emitted + 1])
  }

  function Sids(live: map<Ref, Sid>, refs: set<Ref>): multiset<Sid> {
    multiset(set r | r in refs && r in live :: live[r])
  }

  predicate IsTurn(step: Step) {
    step.Lock? || step.Write? || step.Receive? || step.ReadFails?
  }

  /** One turn of `do`: taking the mutex, the write, or the read of the answer. */
  function Turn(t: Tid, pc: Pc, x: Session, step: Step): (Pc, Session)
    requires InDo(pc) && IsTurn(step)
    requires step.Receive? ==> pc.io.Reading? && x.pipe != []
  {
    match step
    case Lock(_, now) =>
      if x.end.Healthy? then
        (WithIo(pc, Writing), x.(owner := Some(t), used := now, requests := x.requests + 1))
      else (AfterError(pc), x)
    case Write(_, ok) =>
      if ok then (WithIo(pc, Reading(x.requests)), x.(sent := x.sent + 1))
      else (AfterError(pc), x.(owner := None, end := Broken))
    case Receive(_, reply) =>
      var y := x.(owner := None, pipe := x.pipe[1..], got := x.got + 1);
      (match reply
       case Result => (AfterOk(pc, pc.io.id, x.pipe[0]), y)
       case Refusal => (AfterError(pc), y)
       case Garbage => (AfterError(pc), y.(end := Broken)))
    case ReadFails(_) => (AfterError(pc), x.(owner := None, end := Broken))
  }

  function ApplyTurn(s: State, t: Tid, step: Step): State
    requires t in s.threads && InDo(s.threads[t]) && s.threads[t].sid in s.sessions && IsTurn(step)
    requires step.Receive? ==> s.threads[t].io.Reading? && s.sessions[s.threads[t].sid].pipe != []
  {
    var sid := s.threads[t].sid;
    var (pc, x) := Turn(t, s.threads[t], s.sessions[sid], step);
    SetBoth(s, t, pc, sid, x)
  }

  ghost predicate Enabled(s: State, max: nat, step: Step) {
    match step
    case Arrive(t, ref) => t !in s.threads && ref != ""
    case Hit(t, _) => t in s.threads && s.threads[t].Calling? && LiveHealthy(s, s.threads[t].ref)
    case Miss(t, victims) =>
      && t in s.threads && s.threads[t].Calling? && !LiveHealthy(s, s.threads[t].ref)
      && (forall r :: r in s.live ==> s.live[r] in s.sessions)
      && Evicts(UsedBy(s), max, victims)
    case StartFails(t) => t in s.threads && s.threads[t].Spawning?
    case Start(t, sid, _) => t in s.threads && s.threads[t].Spawning? && sid !in s.sessions
    case Lock(t, _) =>
      && t in s.threads && InDo(s.threads[t]) && s.threads[t].io.Waiting?
      && s.threads[t].sid in s.sessions && s.sessions[s.threads[t].sid].owner.None?
    case Write(t, _) =>
      && t in s.threads && InDo(s.threads[t]) && s.threads[t].io.Writing?
      && s.threads[t].sid in s.sessions
    case Receive(t, _) =>
      && t in s.threads && InDo(s.threads[t]) && s.threads[t].io.Reading?
      && s.threads[t].sid in s.sessions && s.sessions[s.threads[t].sid].pipe != []
    case ReadFails(t) =>
      && t in s.threads && InDo(s.threads[t]) && s.threads[t].io.Reading?
      && s.threads[t].sid in s.sessions
    case Publish(t) => t in s.threads && s.threads[t].Publishing? && s.threads[t].sid in s.sessions
    case Abandon(t) =>
      && t in s.threads && s.threads[t].Abandoning?
      && s.threads[t].sid in s.sessions && s.sessions[s.threads[t].sid].owner.None?
    case Judge(t) => t in s.threads && s.threads[t].Judging? && s.threads[t].sid in s.sessions
    case Drop(t) => t in s.threads && s.threads[t].Dropping?
    case EndFailed(t) =>
      && t in s.threads && s.threads[t].Ending?
      && s.threads[t].sid in s.sessions && s.sessions[s.threads[t].sid].owner.None?
    case CloseFile(ref) => ref in s.live
    case Reap(_) => forall r :: r in s.live ==> s.live[r] in s.sessions
    case RunClose(sid) => sid in s.closing && sid in s.sessions && s.sessions[sid].owner.None?
    case Emit(sid) => sid in s.sessions && s.sessions[sid].emitted < s.sessions[sid].sent
  }

  ghost function Apply(s: State, max: nat, step: Step): State
    requires Enabled(s, max, step)
  {
    match step
    case Arrive(t, ref) => SetThread(s, t, Calling(ref, 0))
    case Hit(t, now) =>
      var pc := s.threads[t];
      var sid := s.live[pc.ref];
      SetBoth(s, t, Working(pc.ref, pc.attempt, sid, Waiting), sid, s.sessions[sid].(used := now))
    case Miss(t, victims) =>
      var pc := s.threads[t];
      SetThread(s, t, Spawning(pc.ref, pc.attempt))
      .(live := s.live - Names(victims), closing := s.closing + Sids(s.live, Names(victims)))
    case StartFails(t) => SetThread(s, t, Done(Failed))
    case Start(t, sid, now) =>
      var pc := s.threads[t];
      SetBoth(s, t, Loading(pc.ref, pc.attempt, sid, Waiting), sid,
              Session(pc.ref, now, Healthy, Some(t), None, 0, 0, 0, 0, [], 0))
    case Lock(t, _) => ApplyTurn(s, t, step)
    case Write(t, _) => ApplyTurn(s, t, step)
    case Receive(t, _) => ApplyTurn(s, t, step)
    case ReadFails(t) => ApplyTurn(s, t, step)
    case Publish(t) =>
      var pc := s.threads[t];
      var x := s.sessions[pc.sid].(starter := None);
      if LiveHealthy(s, pc.ref) then
        SetBoth(s, t, Working(pc.ref, pc.attempt, s.live[pc.ref], Waiting), pc.sid, x)
        .(closing := s.closing + multiset{pc.sid})
      else
        SetBoth(s, t, Working(pc.ref, pc.attempt, pc.sid, Waiting), pc.sid, x)
        .(live := s.live[pc.ref := pc.sid])
    case Abandon(t) =>
      var pc := s.threads[t];
      SetBoth(s, t, Done(Failed), pc.sid, CloseSession(s.sessions[pc.sid]).(starter := None))
    case Judge(t) =>
      var pc := s.threads[t];
      SetThread(s, t, if s.sessions[pc.sid].end.Healthy? then Done(Failed)
                      else Dropping(pc.ref, pc.attempt, pc.sid))
    case Drop(t) =>
      var pc := s.threads[t];
      SetThread(s, t, Ending(pc.ref, pc.attempt, pc.sid))
      .(live := if pc.ref in s.live && s.live[pc.ref] == pc.sid then s.live - {pc.ref} else s.live)
    case EndFailed(t) =>
      var pc := s.threads[t];
      SetBoth(s, t, if pc.attempt == 0 then Calling(pc.ref, 1) else Done(Failed), pc.sid,
              CloseSession(s.sessions[pc.sid]))
    case CloseFile(ref) => s.(live := s.live - {ref}, closing := s.closing + multiset{s.live[ref]})
    case Reap(cutoff) =>
      var idle := Idle(UsedBy(s), cutoff);
      s.(live := s.live - idle, closing := s.closing + Sids(s.live, idle))
    case RunClose(sid) =>
      s.(closing := s.closing - multiset{sid}, sessions := s.sessions[sid := CloseSession(s.sessions[sid])])
    case Emit(sid) => s.(sessions := s.sessions[sid := EmitAnswer(s.sessions[sid])])
  }

  ghost predicate Next(s: State, max: nat, step: Step, next: State) {
    Enabled(s, max, step) && next == Apply(s, max, step)
  }

  /** A run: the states passed through, each a step of the one before. */
  ghost predicate Run(states: seq<State>, max: nat, steps: seq<Step>) {
    && |states| == |steps| + 1
    && states[0] == Initial
    && forall i :: 0 <= i < |steps| ==> Next(states[i], max, steps[i], states[i + 1])
  }
}
