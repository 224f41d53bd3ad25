/** The promises of the session pool, over every run of any number of requests at once. */
module PoolRuns {
  import opened Basics
  import opened PoolRules
  import opened PoolMachine
  import opened PoolSafety

  lemma {:induction false} RunInv(states: seq<State>, max: nat, steps: seq<Step>, i: nat)
    requires Run(states, max, steps) && i < |states|
    ensures Inv(states[i])
    decreases i
  {
    if i > 0 {
      RunInv(states, max, steps, i - 1);
      assert Next(states[i - 1], max, steps[i - 1], states[i - 1 + 1]);
      StepKeepsInv(states[i - 1], max, steps[i - 1]);
    }
  }

  /** No session that is still alive is ever lost: it is being loaded by the request that
      started it, or is held under its one reference, or a close has been started for it. */
  lemma NoSessionLost(states: seq<State>, max: nat, steps: seq<Step>, i: nat, sid: Sid)
    requires Run(states, max, steps) && i < |states|
    requires sid in states[i].sessions && states[i].sessions[sid].end.Healthy?
    ensures var s, x := states[i], states[i].sessions[sid];
      || (x.starter.Some? && x.starter.value in s.threads
          && Starts(s.threads[x.starter.value]) && s.threads[x.starter.value].sid == sid)
      || (forall r :: r in s.live && s.live[r] == sid <==> r == x.ref)
      || sid in s.closing
  {
    RunInv(states, max, steps, i);
    var s := states[i];
    assert SessionOk(sid, s.sessions[sid], s.threads);
    assert forall r :: r in s.live && s.live[r] == sid ==> s.sessions[s.live[r]].ref == r;
  }

  /** A session a close has ended is held by nobody, is torn down once, and was between
      requests when it was closed; one that broke is not torn down at all. */
  lemma ClosedSessions(states: seq<State>, max: nat, steps: seq<Step>, i: nat, sid: Sid)
    requires Run(states, max, steps) && i < |states| && sid in states[i].sessions
    ensures var s, x := states[i], states[i].sessions[sid];
      && x.torn == (if x.end.Closed? then 1 else 0)
      && (x.end.Closed? ==> forall r :: r in s.live ==> s.live[r] != sid)
      && (x.end.Closed? ==> x.owner.None? && x.got == x.requests)
  {
    RunInv(states, max, steps, i);
    var s := states[i];
    assert SessionOk(sid, s.sessions[sid], s.threads);
    if s.sessions[sid].owner.Some? {
      var t := s.sessions[sid].owner.value;
      assert ThreadOk(t, s.threads[t], s.sessions);
    }
  }

  /** A session nobody is using and nothing has ended has had every request answered, and
      whoever was given an answer was given the answer to its own request. */
  lemma AnswersArePaired(states: seq<State>, max: nat, steps: seq<Step>, i: nat)
    requires Run(states, max, steps) && i < |states|
    ensures forall sid :: sid in states[i].sessions ==> Drained(states[i].sessions[sid])
    ensures forall t :: t in states[i].threads ==> OwnAnswer(states[i].threads[t])
  {
    RunInv(states, max, steps, i);
    var s := states[i];
    forall sid | sid in s.sessions ensures Drained(s.sessions[sid]) {
      assert SessionOk(sid, s.sessions[sid], s.threads);
    }
    forall t | t in s.threads ensures OwnAnswer(s.threads[t]) {
      assert ThreadOk(t, s.threads[t], s.sessions);
    }
  }

  predicate Drained(x: Session) {
    x.end.Healthy? && x.owner.None? ==> x.got == x.requests == x.sent && x.pipe == []
  }

  predicate OwnAnswer(pc: Pc) {
    pc.Done? && pc.outcome.Answered? ==> pc.outcome.answer == pc.outcome.asked
  }

  /** A request in progress keeps its session from being closed, by whatever means: while
      one is under way nobody else holds the mutex a close would need. */
  lemma CloseWaitsForRequest(states: seq<State>, max: nat, steps: seq<Step>, i: nat, t: Tid)
    requires Run(states, max, steps) && i < |steps| && t in states[i].threads && InRequest(states[i].threads[t])
    ensures var sid := states[i].threads[t].sid;
      && sid in states[i].sessions && states[i].sessions[sid].end.Healthy?
      && sid in states[i + 1].sessions && !states[i + 1].sessions[sid].end.Closed?
  {
    RunStep(states, max, steps, i);
    var s, step := states[i], steps[i];
    assert ThreadOk(t, s.threads[t], s.sessions);
    StepKeepsSession(s, max, step, s.threads[t].sid);
  }

  // ------------------------------------------------------- sessions held --

  lemma RunStep(states: seq<State>, max: nat, steps: seq<Step>, i: nat)
    requires Run(states, max, steps) && i < |steps|
    ensures Inv(states[i]) && Enabled(states[i], max, steps[i])
    ensures states[i + 1] == Apply(states[i], max, steps[i]) && Inv(states[i + 1])
  {
    RunInv(states, max, steps, i);
    RunInv(states, max, steps, i + 1);
    assert Next(states[i], max, steps[i], states[i + 1]);
  }

  predicate SameHeld(s: State, n: State, ref: Ref) {
    (ref in s.live <==> ref in n.live) && (ref in s.live && ref in n.live ==> s.live[ref] == n.live[ref])
  }

  /** Publishing replaces no session that is alive, and publishes one that is. */
  ghost predicate FairPublish(s: State, step: Step, n: State, ref: Ref) {
    && step.Publish? && step.t in s.threads && s.threads[step.t].Publishing?
    && ref in n.live && n.live[ref] == s.threads[step.t].sid
    && LiveHealthy(n, ref) && !LiveHealthy(s, ref)
  }

  /** The request whose session failed takes out that session and no other. */
  ghost predicate FairDrop(s: State, step: Step, ref: Ref) {
    && step.Drop? && step.t in s.threads && s.threads[step.t].Dropping?
    && ref in s.live && s.live[ref] == s.threads[step.t].sid && !LiveHealthy(s, ref)
  }

  /** Anything else that leaves the pool has a close started for it. */
  ghost predicate FairRemoval(s: State, step: Step, n: State, ref: Ref) {
    (step.Miss? || step.CloseFile? || step.Reap?) && ref in s.live && s.live[ref] in n.closing
  }

  /** The three ways in which what is held for a reference changes. */
  lemma HeldSessions(states: seq<State>, max: nat, steps: seq<Step>, i: nat, ref: Ref)
    requires Run(states, max, steps) && i < |steps|
    ensures SameHeld(states[i], states[i + 1], ref)
      || FairPublish(states[i], steps[i], states[i + 1], ref)
      || FairDrop(states[i], steps[i], ref)
      || FairRemoval(states[i], steps[i], states[i + 1], ref)
  {
    RunStep(states, max, steps, i);
    StepChangesHeld(states[i], max, steps[i], ref);
  }

  lemma StepChangesHeld(s: State, max: nat, step: Step, ref: Ref)
    requires Inv(s) && Enabled(s, max, step)
    ensures var n := Apply(s, max, step);
      SameHeld(s, n, ref) || FairPublish(s, step, n, ref) || FairDrop(s, step, ref) || FairRemoval(s, step, n, ref)
  {
    match step {
      case Miss(_, _) => EvictionIsFair(s, max, step, ref);
      case Reap(_) => ReapIsFair(s, max, step, ref);
      case Drop(_) => DropIsFair(s, max, step, ref);
      case Publish(_) => PublishIsFair(s, max, step, ref);
      case CloseFile(_) =>
      case _ => OthersHoldStill(s, max, step, ref);
    }
  }

  lemma OthersHoldStill(s: State, max: nat, step: Step, ref: Ref)
    requires Enabled(s, max, step)
    requires !(step.Miss? || step.Reap? || step.Drop? || step.Publish? || step.CloseFile?)
    ensures SameHeld(s, Apply(s, max, step), ref)
  {
  }

  lemma EvictionIsFair(s: State, max: nat, step: Step, ref: Ref)
    requires Enabled(s, max, step) && step.Miss?
    ensures SameHeld(s, Apply(s, max, step), ref) || FairRemoval(s, step, Apply(s, max, step), ref)
  {
    RemovedIsClosing(s.live, s.closing, Names(step.victims), ref);
  }

  lemma ReapIsFair(s: State, max: nat, step: Step, ref: Ref)
    requires Enabled(s, max, step) && step.Reap?
    ensures SameHeld(s, Apply(s, max, step), ref) || FairRemoval(s, step, Apply(s, max, step), ref)
  {
    RemovedIsClosing(s.live, s.closing, Idle(UsedBy(s), step.cutoff), ref);
  }

  lemma DropIsFair(s: State, max: nat, step: Step, ref: Ref)
    requires ThreadsOk(s) && Enabled(s, max, step) && step.Drop?
    ensures SameHeld(s, Apply(s, max, step), ref) || FairDrop(s, step, ref)
  {
    assert ThreadOk(step.t, s.threads[step.t], s.sessions);
  }

  lemma PublishIsFair(s: State, max: nat, step: Step, ref: Ref)
    requires ThreadsOk(s) && Enabled(s, max, step) && step.Publish?
    ensures SameHeld(s, Apply(s, max, step), ref) || FairPublish(s, step, Apply(s, max, step), ref)
  {
    assert ThreadOk(step.t, s.threads[step.t], s.sessions);
  }

  lemma RemovedIsClosing(live: map<Ref, Sid>, closing: multiset<Sid>, refs: set<Ref>, ref: Ref)
    ensures ref in live && ref in refs ==> live[ref] in closing + Sids(live, refs)
  {
    if ref in live && ref in refs {
      assert live[ref] in (set r | r in refs && r in live :: live[r]);
    }
  }

  /** A session that has ended stays ended for ever, and in the same way. */
  lemma {:induction false} EndsForGood(states: seq<State>, max: nat, steps: seq<Step>, i: nat, j: nat, sid: Sid)
    requires Run(states, max, steps) && i <= j < |states| && sid in states[i].sessions
    ensures sid in states[j].sessions
    ensures !states[i].sessions[sid].end.Healthy? ==> states[j].sessions[sid].end == states[i].sessions[sid].end
    decreases j
  {
    if i < j {
      EndsForGood(states, max, steps, i, j - 1, sid);
      EndsNext(states, max, steps, j - 1, sid);
    }
  }

  lemma EndsNext(states: seq<State>, max: nat, steps: seq<Step>, i: nat, sid: Sid)
    requires Run(states, max, steps) && i < |steps| && sid in states[i].sessions
    ensures sid in states[i + 1].sessions
    ensures !states[i].sessions[sid].end.Healthy? ==> states[i + 1].sessions[sid].end == states[i].sessions[sid].end
  {
    RunStep(states, max, steps, i);
    StepKeepsSession(states[i], max, steps[i], sid);
  }

  /** What a step may do to a session: nothing brings one back, takes it from the request
      using it, or makes a session that was published be loading again. */
  predicate Onward(x: Session, y: Session) {
    && (!x.end.Healthy? ==> y.end == x.end)
    && (x.owner.Some? ==> !y.end.Closed? || x.end.Closed?)
    && (x.starter.None? ==> y.starter.None?)
  }

  lemma StepKeepsSession(s: State, max: nat, step: Step, sid: Sid)
    requires Inv(s) && Enabled(s, max, step) && sid in s.sessions
    ensures sid in Apply(s, max, step).sessions && Onward(s.sessions[sid], Apply(s, max, step).sessions[sid])
  {
    if IsTurn(step) {
      TurnKeepsSession(s, max, step, step.t, sid);
    } else {
      OtherKeepsSession(s, max, step, sid);
    }
  }

  lemma TurnKeepsSession(s: State, max: nat, step: Step, t: Tid, sid: Sid)
    requires ThreadsOk(s) && Enabled(s, max, step) && IsTurn(step) && t == step.t && sid in s.sessions
    ensures sid in ApplyTurn(s, t, step).sessions && Onward(s.sessions[sid], ApplyTurn(s, t, step).sessions[sid])
  {
    assert ThreadOk(t, s.threads[t], s.sessions);
  }

  lemma OtherKeepsSession(s: State, max: nat, step: Step, sid: Sid)
    requires Enabled(s, max, step) && !IsTurn(step) && sid in s.sessions
    ensures sid in Apply(s, max, step).sessions && Onward(s.sessions[sid], Apply(s, max, step).sessions[sid])
  {
  }

  predicate Held(s: State, sid: Sid) {
    exists r :: r in s.live && s.live[r] == sid
  }

  /** A session that was published and is no longer held. */
  predicate Gone(s: State, sid: Sid) {
    sid in s.sessions && s.sessions[sid].starter.None? && !Held(s, sid)
  }

  /** Such a session is never held again. */
  lemma {:induction false} LeavesForGood(states: seq<State>, max: nat, steps: seq<Step>, i: nat, j: nat, sid: Sid)
    requires Run(states, max, steps) && i <= j < |states| && Gone(states[i], sid)
    ensures Gone(states[j], sid)
    decreases j
  {
    if i < j {
      LeavesForGood(states, max, steps, i, j - 1, sid);
      LeavesNext(states, max, steps, j - 1, sid);
    }
  }

  lemma LeavesNext(states: seq<State>, max: nat, steps: seq<Step>, i: nat, sid: Sid)
    requires Run(states, max, steps) && i < |steps| && Gone(states[i], sid)
    ensures Gone(states[i + 1], sid)
  {
    RunStep(states, max, steps, i);
    StepKeepsSession(states[i], max, steps[i], sid);
    StepLeavesForGood(states[i], max, steps[i], sid);
  }

  lemma StepLeavesForGood(s: State, max: nat, step: Step, sid: Sid)
    requires Inv(s) && Enabled(s, max, step) && sid in s.sessions
    requires s.sessions[sid].starter.None? && !Held(s, sid)
    ensures !Held(Apply(s, max, step), sid)
  {
    var n := Apply(s, max, step);
    if step.Publish? {
      assert ThreadOk(step.t, s.threads[step.t], s.sessions);
    }
    forall r | r in n.live ensures n.live[r] != sid {
      StepChangesHeld(s, max, step, r);
    }
  }

  // --------------------------------------------------------------- capacity --

  /** The acquires that missed and have not yet returned: a process each. */
  function Spawns(s: State): set<Tid> {
    set t | t in s.threads && (s.threads[t].Spawning? || Starts(s.threads[t]))
  }

  lemma KeysSize<T, U>(m: map<T, U>)
    ensures |m| == |m.Keys|
  {
  }

  /** Making room leaves a place for the one session being spawned. */
  lemma MissMakesRoom(s: State, max: nat, t: Tid, victims: seq<Ref>)
    requires Inv(s) && max >= 1 && Enabled(s, max, Miss(t, victims))
    ensures |Apply(s, max, Miss(t, victims)).live| <= max - 1
  {
    RoomIn(s, max, victims);
  }

  lemma RoomIn(s: State, max: nat, victims: seq<Ref>)
    requires max >= 1 && (forall r :: r in s.live ==> s.live[r] in s.sessions)
    requires Evicts(UsedBy(s), max, victims)
    ensures |s.live - Names(victims)| <= max - 1
  {
    var used := UsedBy(s);
    EvictsMakesRoom(used, max, victims);
    var live := s.live - Names(victims);
    assert live.Keys == (used - Names(victims)).Keys;
    KeysSize(live);
    KeysSize(used - Names(victims));
  }

  /** Each session evicted was used no later than any that stays. */
  lemma OldestGoFirst(s: State, max: nat, t: Tid, victims: seq<Ref>, v: Ref, r: Ref)
    requires max >= 1 && Enabled(s, max, Miss(t, victims))
    requires v in victims && r in Apply(s, max, Miss(t, victims)).live
    ensures v in s.live && r in s.live && s.sessions[s.live[v]].used <= s.sessions[s.live[r]].used
  {
    EvictsMakesRoom(UsedBy(s), max, victims);
    assert UsedBy(s)[v] <= UsedBy(s)[r];
  }

  /** What one step does to the room left. */
  lemma CapacityStep(s: State, max: nat, step: Step, n: State, most: nat)
    requires Inv(s) && max >= 1 && Enabled(s, max, step) && n == Apply(s, max, step)
    requires Fits(s, max, most) && |Spawns(n)| <= most
    ensures Fits(n, max, most)
  {
    if step.Miss? {
      MissMakesRoom(s, max, step.t, step.victims);
    } else if step.Publish? {
      PublishSwaps(s, max, step);
    } else {
      FewerSpawns(s, max, step);
      Fewer(s, n);
    }
  }

  lemma Fewer(s: State, n: State)
    requires Spawns(n) <= Spawns(s) && n.live.Keys <= s.live.Keys
    ensures |Spawns(n)| <= |Spawns(s)| && |n.live| <= |s.live|
  {
    KeysSize(s.live);
    KeysSize(n.live);
    SubsetSize(n.live.Keys, s.live.Keys);
    SubsetSize(Spawns(n), Spawns(s));
  }

  /** A spawn ends where a session comes to be held. */
  lemma PublishSwaps(s: State, max: nat, step: Step)
    requires Enabled(s, max, step) && step.Publish?
    ensures var n := Apply(s, max, step); |n.live| + |Spawns(n)| <= |s.live| + |Spawns(s)|
  {
    var n := Apply(s, max, step);
    var ref := s.threads[step.t].ref;
    assert step.t in Spawns(s) && Spawns(n) == Spawns(s) - {step.t};
    assert n.live.Keys <= s.live.Keys + {ref};
    KeysSize(s.live);
    KeysSize(n.live);
    SubsetSize(n.live.Keys, s.live.Keys + {ref});
  }

  lemma FewerSpawns(s: State, max: nat, step: Step)
    requires Enabled(s, max, step) && !step.Miss? && !step.Publish?
    ensures Spawns(Apply(s, max, step)) <= Spawns(s)
    ensures Apply(s, max, step).live.Keys <= s.live.Keys
  {
  }

  ghost predicate SpawnsAtMost(states: seq<State>, most: nat) {
    forall j :: 0 <= j < |states| ==> |Spawns(states[j])| <= most
  }

  predicate Fits(s: State, max: nat, most: nat) {
    |s.live| + |Spawns(s)| <= max - 1 + most
  }

  /** With at most `most` spawns in flight at any moment, the sessions held and the
      spawns together never pass `max - 1 + most`. */
  lemma {:induction false} CapacityHolds(states: seq<State>, max: nat, steps: seq<Step>, most: nat, i: nat)
    requires Run(states, max, steps) && max >= 1 && i < |states| && SpawnsAtMost(states, most)
    ensures Fits(states[i], max, most)
    decreases i
  {
    if i == 0 {
      InitialFits(max, most);
    } else {
      CapacityHolds(states, max, steps, most, i - 1);
      CapacityNext(states, max, steps, most, i - 1);
    }
  }

  lemma InitialFits(max: nat, most: nat)
    requires max >= 1
    ensures Fits(Initial, max, most)
  {
    assert Spawns(Initial) == {};
  }

  lemma CapacityNext(states: seq<State>, max: nat, steps: seq<Step>, most: nat, i: nat)
    requires Run(states, max, steps) && max >= 1 && i < |steps|
    requires Fits(states[i], max, most) && |Spawns(states[i + 1])| <= most
    ensures Fits(states[i + 1], max, most)
  {
    RunStep(states, max, steps, i);
    CapacityStep(states[i], max, steps[i], states[i + 1], most);
  }

  /** So a pool asked for one session at a time never holds more than `max`. */
  lemma SerialPoolFits(states: seq<State>, max: nat, steps: seq<Step>, i: nat)
    requires Run(states, max, steps) && max >= 1 && i < |states| && SpawnsAtMost(states, 1)
    ensures |states[i].live| <= max
  {
    CapacityHolds(states, max, steps, 1, i);
  }
}
