/** What becomes of a request on the session pool of src/sharkd.go, and of an idle session,
    over every run of any number of requests at once. */
module PoolFates {
  import opened PoolRules
  import opened PoolMachine
  import opened PoolSafety
  import opened PoolRuns

  // ----------------------------------------------------------------- reaping --

  /** A tick of the reaper takes out the sessions last used before its cutoff and no other,
      each to be closed. */
  lemma ReapTakesIdle(states: seq<State>, max: nat, steps: seq<Step>, i: nat, ref: Ref)
    requires Run(states, max, steps) && i < |steps| && steps[i].Reap? && ref in states[i].live
    ensures states[i].live[ref] in states[i].sessions
    ensures ref in states[i + 1].live <==> states[i].sessions[states[i].live[ref]].used >= steps[i].cutoff
    ensures ref in states[i + 1].live ==> states[i + 1].live[ref] == states[i].live[ref]
    ensures ref !in states[i + 1].live ==> states[i].live[ref] in states[i + 1].closing
  {
    RunStep(states, max, steps, i);
    if ref !in states[i + 1].live {
      RemovedIsClosing(states[i].live, states[i].closing, Idle(UsedBy(states[i]), steps[i].cutoff), ref);
    }
  }

  /** A close that was started and gets the mutex ends its session, and tears it down if
      nothing had ended it before. */
  lemma CloseEndsSession(states: seq<State>, max: nat, steps: seq<Step>, i: nat, sid: Sid)
    requires Run(states, max, steps) && i < |steps| && steps[i] == RunClose(sid)
    ensures sid in states[i].sessions && sid in states[i + 1].sessions
    ensures states[i + 1].closing == states[i].closing - multiset{sid}
    ensures var x, y := states[i].sessions[sid], states[i + 1].sessions[sid];
      && !y.end.Healthy? && (x.end.Healthy? ==> y.end.Closed? && y.torn == 1)
      && (!x.end.Healthy? ==> y == x)
  {
    RunStep(states, max, steps, i);
    ClosedSessions(states, max, steps, i + 1, sid);
  }

  // -------------------------------------------------------------- own capture --

  /** The request is about one reference from beginning to end, and so is any session it is
      given or answered by. */
  ghost predicate About(s: State, t: Tid, ref: Ref) {
    t in s.threads
    && var pc := s.threads[t];
    && (HasRef(pc) ==> pc.ref == ref)
    && (HasSid(pc) ==> pc.sid in s.sessions && s.sessions[pc.sid].ref == ref)
    && (pc.Done? && pc.outcome.Answered? ==> pc.outcome.sid in s.sessions && s.sessions[pc.outcome.sid].ref == ref)
  }

  lemma StepAbout(s: State, max: nat, step: Step, t: Tid, ref: Ref)
    requires Inv(s) && Enabled(s, max, step) && About(s, t, ref)
    ensures About(Apply(s, max, step), t, ref)
  {
    if IsTurn(step) {
      TurnAbout(s, max, step, t, ref);
    } else if step.Publish? {
      PublishAbout(s, max, step, t, ref);
    } else {
      OtherAbout(s, max, step, t, ref);
    }
  }

  lemma TurnAbout(s: State, max: nat, step: Step, t: Tid, ref: Ref)
    requires Enabled(s, max, step) && IsTurn(step) && About(s, t, ref)
    ensures About(Apply(s, max, step), t, ref)
  {
  }

  lemma PublishAbout(s: State, max: nat, step: Step, t: Tid, ref: Ref)
    requires Inv(s) && Enabled(s, max, step) && step.Publish? && About(s, t, ref)
    ensures About(Apply(s, max, step), t, ref)
  {
  }

  lemma OtherAbout(s: State, max: nat, step: Step, t: Tid, ref: Ref)
    requires Inv(s) && Enabled(s, max, step) && !IsTurn(step) && !step.Publish? && About(s, t, ref)
    ensures About(Apply(s, max, step), t, ref)
  {
    if step.Hit? || step.Start? {
      JoinAbout(s, max, step, t, ref);
    } else {
      RestAbout(s, max, step, t, ref);
    }
  }

  lemma JoinAbout(s: State, max: nat, step: Step, t: Tid, ref: Ref)
    requires Inv(s) && Enabled(s, max, step) && (step.Hit? || step.Start?) && About(s, t, ref)
    ensures About(Apply(s, max, step), t, ref)
  {
  }

  lemma RestAbout(s: State, max: nat, step: Step, t: Tid, ref: Ref)
    requires Enabled(s, max, step) && !IsTurn(step) && !step.Publish? && !step.Hit? && !step.Start? && About(s, t, ref)
    ensures About(Apply(s, max, step), t, ref)
  {
    var n := Apply(s, max, step);
    assert forall sid :: sid in s.sessions ==> sid in n.sessions && n.sessions[sid].ref == s.sessions[sid].ref;
  }

  /** So whoever is answered is answered by a sharkd that holds the capture asked for. */
  lemma {:induction false} AnsweredByItsOwn(states: seq<State>, max: nat, steps: seq<Step>, i: nat, j: nat,
                                            t: Tid, ref: Ref)
    requires Run(states, max, steps) && i < j < |states| && steps[i] == Arrive(t, ref)
    ensures About(states[j], t, ref)
    decreases j
  {
    if i < j - 1 {
      AnsweredByItsOwn(states, max, steps, i, j - 1, t, ref);
      AboutNext(states, max, steps, j - 1, t, ref);
    } else {
      RunStep(states, max, steps, i);
      ArriveAbout(states[i], max, t, ref);
    }
  }

  lemma AboutNext(states: seq<State>, max: nat, steps: seq<Step>, i: nat, t: Tid, ref: Ref)
    requires Run(states, max, steps) && i < |steps| && About(states[i], t, ref)
    ensures About(states[i + 1], t, ref)
  {
    RunStep(states, max, steps, i);
    StepAbout(states[i], max, steps[i], t, ref);
  }

  /** Whatever a request is about, it is about the one it came with. */
  lemma {:induction false} AboutSome(states: seq<State>, max: nat, steps: seq<Step>, i: nat, t: Tid) returns (ref: Ref)
    requires Run(states, max, steps) && i < |states| && t in states[i].threads
    ensures About(states[i], t, ref)
    decreases i
  {
    RunStep(states, max, steps, i - 1);
    if t in states[i - 1].threads {
      ref := AboutSome(states, max, steps, i - 1, t);
      AboutNext(states, max, steps, i - 1, t, ref);
    } else {
      NewIsArrival(states[i - 1], max, steps[i - 1], t);
      ref := steps[i - 1].ref;
      ArriveAbout(states[i - 1], max, t, ref);
    }
  }

  lemma NewIsArrival(s: State, max: nat, step: Step, t: Tid)
    requires Enabled(s, max, step) && t !in s.threads && t in Apply(s, max, step).threads
    ensures step.Arrive? && step.t == t
  {
  }

  lemma ArriveAbout(s: State, max: nat, t: Tid, ref: Ref)
    requires Enabled(s, max, Arrive(t, ref))
    ensures About(Apply(s, max, Arrive(t, ref)), t, ref)
  {
  }

  // --------------------------------------------------------------------- fates --

  ghost predicate NotYetDone(s: State, t: Tid) {
    t in s.threads && !s.threads[t].Done?
  }

  ghost predicate DoneNow(s: State, t: Tid) {
    t in s.threads && s.threads[t].Done?
  }

  /** Sharkd answered, and the answer could be read. */
  ghost predicate GotAnswer(s: State, step: Step, t: Tid, outcome: Outcome) {
    && step == Receive(t, Result) && t in s.threads && s.threads[t].Working?
    && s.threads[t].sid in s.sessions && s.sessions[s.threads[t].sid].pipe != []
    && outcome.Answered? && outcome.sid == s.threads[t].sid && outcome.answer == s.sessions[outcome.sid].pipe[0]
  }

  /** No sharkd could be started, or it could not load the capture; or it answered with an
      error, and is alive; or it was a second one that broke. */
  ghost predicate GaveUp(s: State, step: Step, t: Tid) {
    t in s.threads
    && var pc := s.threads[t];
    || step == StartFails(t)
    || step == Abandon(t)
    || (step == Judge(t) && pc.Judging? && pc.sid in s.sessions && s.sessions[pc.sid].end.Healthy?)
    || (step == EndFailed(t) && pc.Ending? && pc.attempt == 1)
  }

  lemma StepEnds(s: State, max: nat, step: Step, t: Tid)
    requires Inv(s) && Enabled(s, max, step) && NotYetDone(s, t) && DoneNow(Apply(s, max, step), t)
    requires s.threads[t].Ending? ==> s.threads[t].attempt <= 1
    ensures var outcome := Apply(s, max, step).threads[t].outcome;
      if outcome.Failed? then GaveUp(s, step, t) else GotAnswer(s, step, t, outcome)
  {
    if IsTurn(step) {
      TurnEnds(s, max, step, t);
    } else {
      OtherEnds(s, max, step, t);
    }
  }

  lemma TurnEnds(s: State, max: nat, step: Step, t: Tid)
    requires Enabled(s, max, step) && IsTurn(step) && NotYetDone(s, t) && DoneNow(Apply(s, max, step), t)
    ensures GotAnswer(s, step, t, Apply(s, max, step).threads[t].outcome)
  {
    assert step.t == t;
  }

  lemma OtherEnds(s: State, max: nat, step: Step, t: Tid)
    requires Enabled(s, max, step) && !IsTurn(step) && NotYetDone(s, t) && DoneNow(Apply(s, max, step), t)
    requires s.threads[t].Ending? ==> s.threads[t].attempt <= 1
    ensures Apply(s, max, step).threads[t].outcome.Failed? && GaveUp(s, step, t)
  {
  }

  /** How many sharkds have broken under a request. */
  function Broke(steps: seq<Step>, t: Tid): nat {
    if steps == [] then 0
    else Broke(steps[..|steps| - 1], t) + (if steps[|steps| - 1] == EndFailed(t) then 1 else 0)
  }

  /** How often a request has started a sharkd. */
  function Started(steps: seq<Step>, t: Tid): nat {
    if steps == [] then 0
    else
      var last := steps[|steps| - 1];
      Started(steps[..|steps| - 1], t) + (if last.Start? && last.t == t then 1 else 0)
  }

  predicate Tried(s: State, t: Tid, broke: nat, started: nat) {
    if t !in s.threads then broke == started == 0
    else
      var pc := s.threads[t];
      && (HasRef(pc) ==> pc.attempt == broke <= 1)
      && broke <= 2 && started <= 2
      && (pc.Calling? || pc.Spawning? ==> started <= broke) && (!pc.Done? ==> started <= broke + 1)
      && (pc.Abandoning? ==> broke <= 1)
  }

  lemma StepTried(s: State, max: nat, step: Step, t: Tid, broke: nat, started: nat)
    requires Enabled(s, max, step) && Tried(s, t, broke, started)
    ensures Tried(Apply(s, max, step), t, broke + (if step == EndFailed(t) then 1 else 0),
                  started + (if step.Start? && step.t == t then 1 else 0))
  {
  }

  lemma {:induction false} RunTried(states: seq<State>, max: nat, steps: seq<Step>, i: nat, t: Tid)
    requires Run(states, max, steps) && i < |states|
    ensures Tried(states[i], t, Broke(steps[..i], t), Started(steps[..i], t))
    decreases i
  {
    if i > 0 {
      RunTried(states, max, steps, i - 1, t);
      TriedNext(states, max, steps, i - 1, t);
    }
  }

  lemma TriedNext(states: seq<State>, max: nat, steps: seq<Step>, i: nat, t: Tid)
    requires Run(states, max, steps) && i < |steps|
    requires Tried(states[i], t, Broke(steps[..i], t), Started(steps[..i], t))
    ensures Tried(states[i + 1], t, Broke(steps[..i + 1], t), Started(steps[..i + 1], t))
  {
    RunStep(states, max, steps, i);
    OneMoreStep(steps, i, t);
    StepTried(states[i], max, steps[i], t, Broke(steps[..i], t), Started(steps[..i], t));
  }

  lemma OneMoreStep(steps: seq<Step>, i: nat, t: Tid)
    requires i < |steps|
    ensures Broke(steps[..i + 1], t) == Broke(steps[..i], t) + (if steps[i] == EndFailed(t) then 1 else 0)
    ensures Started(steps[..i + 1], t)
      == Started(steps[..i], t) + (if steps[i].Start? && steps[i].t == t then 1 else 0)
  {
    assert steps[..i + 1][..i] == steps[..i];
  }

  /** A request starts a sharkd at most twice, and is given up only for want of one, for an
      error that one answered with, or once two of them have broken under it; and it is
      answered only by sharkd. */
  lemma RequestEnds(states: seq<State>, max: nat, steps: seq<Step>, i: nat, t: Tid)
    requires Run(states, max, steps) && i < |steps| && NotYetDone(states[i], t) && DoneNow(states[i + 1], t)
    ensures Started(steps[..i + 1], t) <= 2
    ensures var outcome := states[i + 1].threads[t].outcome;
      if outcome.Failed? then GaveUp(states[i], steps[i], t) else GotAnswer(states[i], steps[i], t, outcome)
    ensures steps[i] == EndFailed(t) ==> Broke(steps[..i + 1], t) == 2
  {
    RunStep(states, max, steps, i);
    RunTried(states, max, steps, i, t);
    RunTried(states, max, steps, i + 1, t);
    StepEnds(states[i], max, steps[i], t);
    assert steps[..i + 1][..i] == steps[..i];
  }

  /** The first sharkd to break under a request is taken out of the pool, for good, and the
      request is made again, of the same capture. */
  lemma BrokenIsRetried(states: seq<State>, max: nat, steps: seq<Step>, i: nat, t: Tid)
    requires Run(states, max, steps) && i < |steps| && t in states[i].threads
    ensures steps[i] == Judge(t) ==> JudgedRightly(states[i], states[i + 1], t)
    ensures steps[i] == Drop(t) ==> DroppedForGood(states[i], states[i + 1], t)
    ensures steps[i] == EndFailed(t) && Broke(steps[..i], t) == 0 ==> CalledAgain(states[i], states[i + 1], t)
  {
    RunStep(states, max, steps, i);
    RunTried(states, max, steps, i, t);
    if steps[i] == Drop(t) {
      var ref := AboutSome(states, max, steps, i, t);
      DropEnds(states[i], max, t, ref);
    }
  }

  predicate JudgedRightly(s: State, n: State, t: Tid) {
    t in s.threads && t in n.threads && s.threads[t].Judging?
    && var pc := s.threads[t];
    pc.sid in s.sessions
    && n.threads[t] == if s.sessions[pc.sid].end.Healthy? then Done(Failed) else Dropping(pc.ref, pc.attempt, pc.sid)
  }

  ghost predicate DroppedForGood(s: State, n: State, t: Tid) {
    t in s.threads && t in n.threads && s.threads[t].Dropping?
    && n.threads[t] == Ending(s.threads[t].ref, s.threads[t].attempt, s.threads[t].sid)
    && Gone(n, s.threads[t].sid)
  }

  predicate CalledAgain(s: State, n: State, t: Tid) {
    t in s.threads && t in n.threads && s.threads[t].Ending? && n.threads[t] == Calling(s.threads[t].ref, 1)
  }

  lemma DropEnds(s: State, max: nat, t: Tid, ref: Ref)
    requires Inv(s) && Enabled(s, max, Drop(t)) && About(s, t, ref)
    ensures DroppedForGood(s, Apply(s, max, Drop(t)), t)
  {
    assert ThreadOk(t, s.threads[t], s.sessions);
  }

  // ------------------------------------------------------------------ progress --

  /** The turns a request may still take. */
  function TurnsLeft(pc: Pc): nat {
    match pc
    case Calling(_, attempt) => 13 + Another(attempt)
    case Spawning(_, attempt) => 12 + Another(attempt)
    case Loading(_, attempt, _, io) => 9 + IoLeft(io) + Another(attempt)
    case Publishing(_, attempt, _) => 8 + Another(attempt)
    case Working(_, attempt, _, io) => 5 + IoLeft(io) + Another(attempt)
    case Judging(_, attempt, _) => 4 + Another(attempt)
    case Dropping(_, attempt, _) => 3 + Another(attempt)
    case Ending(_, attempt, _) => 2 + Another(attempt)
    case Abandoning(_) => 1
    case Done(_) => 0
  }

  function Another(attempt: nat): nat {
    if attempt == 0 then 13 else 0
  }

  function IoLeft(io: Io): nat {
    match io
    case Waiting => 2
    case Writing => 1
    case Reading(_) => 0
  }

  predicate TurnOf(step: Step, t: Tid) {
    match step
    case Arrive(u, _) => false
    case CloseFile(_) => false
    case Reap(_) => false
    case RunClose(_) => false
    case Emit(_) => false
    case _ => step.t == t
  }

  lemma StepTurns(s: State, max: nat, step: Step, t: Tid)
    requires Enabled(s, max, step) && t in s.threads
    ensures t in Apply(s, max, step).threads
    ensures TurnOf(step, t) ==> TurnsLeft(Apply(s, max, step).threads[t]) < TurnsLeft(s.threads[t])
    ensures !TurnOf(step, t) ==> Apply(s, max, step).threads[t] == s.threads[t]
  {
    if IsTurn(step) {
      IoTurns(s, max, step, t);
    } else {
      OtherTurns(s, max, step, t);
    }
  }

  lemma IoTurns(s: State, max: nat, step: Step, t: Tid)
    requires Enabled(s, max, step) && t in s.threads && IsTurn(step)
    ensures t in Apply(s, max, step).threads
    ensures step.t == t ==> TurnsLeft(Apply(s, max, step).threads[t]) < TurnsLeft(s.threads[t])
    ensures step.t != t ==> Apply(s, max, step).threads[t] == s.threads[t]
  {
  }

  lemma OtherTurns(s: State, max: nat, step: Step, t: Tid)
    requires Enabled(s, max, step) && t in s.threads && !IsTurn(step)
    ensures t in Apply(s, max, step).threads
    ensures TurnOf(step, t) ==> TurnsLeft(Apply(s, max, step).threads[t]) < TurnsLeft(s.threads[t])
    ensures !TurnOf(step, t) ==> Apply(s, max, step).threads[t] == s.threads[t]
  {
    if TurnOf(step, t) {
      OwnTurn(s, max, step, t);
    } else {
      AnothersTurn(s, max, step, t);
    }
  }

  lemma OwnTurn(s: State, max: nat, step: Step, t: Tid)
    requires Enabled(s, max, step) && t in s.threads && !IsTurn(step) && TurnOf(step, t)
    ensures t in Apply(s, max, step).threads
    ensures TurnsLeft(Apply(s, max, step).threads[t]) < TurnsLeft(s.threads[t])
  {
  }

  lemma AnothersTurn(s: State, max: nat, step: Step, t: Tid)
    requires Enabled(s, max, step) && t in s.threads && !IsTurn(step) && !TurnOf(step, t)
    ensures t in Apply(s, max, step).threads && Apply(s, max, step).threads[t] == s.threads[t]
  {
  }

  /** How many turns a request has taken. */
  function TurnsTaken(steps: seq<Step>, t: Tid): nat {
    if steps == [] then 0
    else TurnsTaken(steps[..|steps| - 1], t) + (if TurnOf(steps[|steps| - 1], t) then 1 else 0)
  }

  /** Nobody but itself moves a request on, and it is done after at most twenty-six turns,
      whatever breaks. */
  lemma {:induction false} AtMostSoManyTurns(states: seq<State>, max: nat, steps: seq<Step>, i: nat, t: Tid)
    requires Run(states, max, steps) && i < |states|
    ensures TurnsTaken(steps[..i], t) + (if t in states[i].threads then TurnsLeft(states[i].threads[t]) else 26) <= 26
    decreases i
  {
    if i > 0 {
      AtMostSoManyTurns(states, max, steps, i - 1, t);
      RunStep(states, max, steps, i - 1);
      assert steps[..i][..i - 1] == steps[..i - 1];
      OneTurn(states[i - 1], max, steps[i - 1], t);
    }
  }

  lemma OneTurn(s: State, max: nat, step: Step, t: Tid)
    requires Enabled(s, max, step)
    ensures var n, taken := Apply(s, max, step), if TurnOf(step, t) then 1 else 0;
      taken + (if t in n.threads then TurnsLeft(n.threads[t]) else 26)
        <= if t in s.threads then TurnsLeft(s.threads[t]) else 26
  {
    if t in s.threads {
      StepTurns(s, max, step, t);
    } else if t in Apply(s, max, step).threads {
      NewIsArrival(s, max, step, t);
    }
  }

  /** A session used no later than any other. */
  lemma {:induction false} OldestThereIs(used: map<Ref, int>, among: set<Ref>) returns (r: Ref)
    requires among != {} && among <= used.Keys
    ensures r in among && forall x :: x in among ==> used[r] <= used[x]
    decreases |among|
  {
    r :| r in among;
    if among != {r} {
      var q := OldestThereIs(used, among - {r});
      if used[q] < used[r] {
        r := q;
      }
    }
  }

  /** Room can always be made. */
  lemma RoomThereIs(used: map<Ref, int>, max: nat) returns (victims: seq<Ref>)
    requires max >= 1
    ensures Evicts(used, max, victims)
  {
    victims := [];
    while |used| - |victims| >= max
      invariant Evicting(used, max, victims) && |victims| <= |used|
      decreases |used| - |victims|
    {
      NamesSize(used, max, victims);
      var rest := used.Keys - Names(victims);
      assert |used.Keys| == |used| && |rest| == |used.Keys| - |Names(victims)|;
      var r := OldestThereIs(used, rest);
      EvictsSnoc(used, max, victims, r);
      victims := victims + [r];
    }
  }

  /** A turn that is the request's own, or that of the request it waits for. */
  ghost predicate MovesFor(s: State, t: Tid, step: Step) {
    TurnOf(step, t)
    || (t in s.threads && HasSid(s.threads[t]) && s.threads[t].sid in s.sessions
        && s.sessions[s.threads[t].sid].owner.Some? && TurnOf(step, s.sessions[s.threads[t].sid].owner.value))
  }

  lemma StepThereIs(s: State, max: nat, t: Tid) returns (step: Step)
    requires Inv(s) && max >= 1 && NotYetDone(s, t)
    ensures Enabled(s, max, step) && MovesFor(s, t, step)
  {
    var pc := s.threads[t];
    assert ThreadOk(t, pc, s.sessions);
    if HasSid(pc) {
      step := SessionStep(s, max, t);
    } else if pc.Spawning? {
      step := StartFails(t);
    } else if LiveHealthy(s, pc.ref) {
      step := Hit(t, 0);
    } else {
      var victims := RoomThereIs(UsedBy(s), max);
      step := Miss(t, victims);
    }
  }

  lemma SessionStep(s: State, max: nat, t: Tid) returns (step: Step)
    requires Inv(s) && NotYetDone(s, t) && HasSid(s.threads[t])
    ensures Enabled(s, max, step) && MovesFor(s, t, step)
  {
    var pc := s.threads[t];
    assert ThreadOk(t, pc, s.sessions);
    match pc
    case Publishing(_, _, _) => step := Publish(t);
    case Judging(_, _, _) => step := Judge(t);
    case Dropping(_, _, _) => step := Drop(t);
    case _ => step := MutexStep(s, max, t);
  }

  lemma MutexStep(s: State, max: nat, t: Tid) returns (step: Step)
    requires Inv(s) && NotYetDone(s, t)
    requires InDo(s.threads[t]) || s.threads[t].Abandoning? || s.threads[t].Ending?
    ensures Enabled(s, max, step) && MovesFor(s, t, step)
  {
    var pc := s.threads[t];
    assert ThreadOk(t, pc, s.sessions);
    if InRequest(pc) {
      step := OwnerStep(s, max, t);
    } else if s.sessions[pc.sid].owner.Some? {
      assert SessionOk(pc.sid, s.sessions[pc.sid], s.threads);
      step := OwnerStep(s, max, s.sessions[pc.sid].owner.value);
    } else {
      step := if pc.Abandoning? then Abandon(t) else if pc.Ending? then EndFailed(t) else Lock(t, 0);
    }
  }

  lemma OwnerStep(s: State, max: nat, u: Tid) returns (step: Step)
    requires Inv(s) && u in s.threads && InRequest(s.threads[u])
    ensures Enabled(s, max, step) && TurnOf(step, u)
  {
    assert ThreadOk(u, s.threads[u], s.sessions);
    step := if s.threads[u].io.Writing? then Write(u, true) else ReadFails(u);
  }

  /** No request is ever stuck: it can go on, or the one whose session it waits for can. */
  lemma NobodyIsStuck(states: seq<State>, max: nat, steps: seq<Step>, i: nat, t: Tid)
    requires Run(states, max, steps) && max >= 1 && i < |states| && NotYetDone(states[i], t)
    ensures exists step :: Enabled(states[i], max, step) && MovesFor(states[i], t, step)
  {
    RunInv(states, max, steps, i);
    var step := StepThereIs(states[i], max, t);
  }
}
