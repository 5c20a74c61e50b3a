/** Every interleaving of session claims, closes, submissions, workers and awaits
    (src/backend_ast/builtin_network_api.c:856-923, 2897-2923, 3434-3437, 3596-3631).
    Each step is one critical section: what a thread does while it holds a slot's lock, or a hand-over of a job. */
module HttpRuns {
  import opened HttpSession
  import opened Wrappers

  datatype Step =
    | Claim(i: nat)
    | ClaimFails(i: nat)
    | Close(id: int)
    | Request(id: int, outcome: Outcome)
    | Submit(job: nat, session: int)
    | Finish(job: nat, outcome: Outcome)
    | Take(job: nat)
    | Apply(job: nat)
    | Drop(job: nat)

  /** Where a job came from: the slot it named, and the number of the session it found there, 0 if it found none. */
  datatype Origin = Origin(session: int, serial: nat)

  /** `serials[i]` is the number of the session that last claimed slot i; sessions are numbered from 1 without wrap. */
  datatype State = State(table: Table, running: map<nat, Job>, finished: map<nat, Result>, taken: map<nat, Result>,
                         allocs: nat, serials: seq<nat>, origins: map<nat, Origin>)

  ghost function Start(): State {
    State(Table(seq(MAX_HTTP_SESSIONS, _ => ZEROED), 0), map[], map[], map[], 0, seq(MAX_HTTP_SESSIONS, _ => 0), map[])
  }

  ghost function SerialOf(s: State, id: int): nat {
    if Held(s.table, id) && id < |s.serials| then s.serials[id] else 0
  }

  /** A step that is not possible changes nothing. */
  ghost function Next(s: State, e: Step): State {
    match e
    case Claim(i) =>
      if i < |s.table.slots| && i < |s.serials| && !Held(s.table, i)
      then s.(table := Claimed(s.table, i), allocs := s.allocs + 1, serials := s.serials[i := s.allocs + 1]) else s
    case ClaimFails(i) => if Held(s.table, i) then s else s.(table := Cleared(s.table, i))
    case Close(id) => s.(table := Closed(s.table, id))
    case Request(id, o) => s.(table := Stored(s.table, id, o))
    case Submit(j, session) =>
      if j in s.origins then s
      else s.(running := s.running[j := Snapshot(s.table, session)],
              origins := s.origins[j := Origin(session, SerialOf(s, session))])
    case Finish(j, o) =>
      if j in s.running
      then s.(running := s.running - {j}, finished := s.finished[j := Record(s.running[j], o)]) else s
    case Take(j) =>
      if j in s.finished then s.(finished := s.finished - {j}, taken := s.taken[j := s.finished[j]]) else s
    case Apply(j) =>
      if j in s.taken
      then s.(taken := s.taken - {j},
              table := if Accepts(s.table, s.taken[j]) then Stored(s.table, s.taken[j].session, s.taken[j].outcome)
                       else s.table) else s
    case Drop(j) => s.(running := s.running - {j}, finished := s.finished - {j}, taken := s.taken - {j})
  }

  ghost function Run(s: State, steps: seq<Step>): State {
    if steps == [] then s else Next(Run(s, steps[..|steps| - 1]), steps[|steps| - 1])
  }

  ghost predicate Stamped(session: int, gen: nat, o: Origin, allocs: nat) {
    session == o.session && gen == o.serial % WORD && o.serial <= allocs
  }

  ghost predicate TableOk(t: Table, serials: seq<nat>, allocs: nat) {
    && |t.slots| == |serials| == MAX_HTTP_SESSIONS
    && t.counter == allocs % WORD
    && (forall i :: 0 <= i < |serials| && t.slots[i].active ==>
          0 < serials[i] <= allocs && t.slots[i].gen == serials[i] % WORD)
    && (forall i, j :: 0 <= i < j < |serials| && t.slots[i].active && t.slots[j].active ==> serials[i] != serials[j])
  }

  ghost predicate RunningOk(jobs: map<nat, Job>, origins: map<nat, Origin>, allocs: nat) {
    forall j :: j in jobs ==> j in origins && Stamped(jobs[j].session, jobs[j].gen, origins[j], allocs)
  }

  ghost predicate ResultsOk(results: map<nat, Result>, origins: map<nat, Origin>, allocs: nat) {
    forall j :: j in results ==>
      j in origins && Stamped(results[j].session, ToUnsigned(results[j].gen), origins[j], allocs)
  }

  ghost predicate Inv(s: State) {
    && TableOk(s.table, s.serials, s.allocs)
    && RunningOk(s.running, s.origins, s.allocs)
    && ResultsOk(s.finished, s.origins, s.allocs)
    && ResultsOk(s.taken, s.origins, s.allocs)
  }

  lemma InvStart()
    ensures Inv(Start())
  {
  }

  lemma ClaimKeepsTable(t: Table, serials: seq<nat>, allocs: nat, i: nat)
    requires TableOk(t, serials, allocs) && i < |serials|
    ensures TableOk(Claimed(t, i), serials[i := allocs + 1], allocs + 1)
  {
    assert (allocs % WORD + 1) % WORD == (allocs + 1) % WORD;
  }

  lemma OthersKeepTable(t: Table, serials: seq<nat>, allocs: nat, id: int, o: Outcome)
    requires TableOk(t, serials, allocs)
    ensures TableOk(Closed(t, id), serials, allocs) && TableOk(Stored(t, id, o), serials, allocs)
    ensures id >= 0 ==> TableOk(Cleared(t, id), serials, allocs)
  {
  }

  lemma SubmitStamps(s: State, id: int)
    requires TableOk(s.table, s.serials, s.allocs)
    ensures Stamped(Snapshot(s.table, id).session, Snapshot(s.table, id).gen, Origin(id, SerialOf(s, id)), s.allocs)
  {
  }

  lemma RecordStamped(job: Job, o: Outcome, origin: Origin, allocs: nat)
    requires Stamped(job.session, job.gen, origin, allocs)
    ensures Stamped(Record(job, o).session, ToUnsigned(Record(job, o).gen), origin, allocs)
  {
    GenerationSurvivesTheRecord(job.gen);
  }

  lemma InvNext(s: State, e: Step)
    requires Inv(s)
    ensures Inv(Next(s, e))
  {
    hide TableOk, Claimed, Cleared, Closed, Stored, Snapshot, Stamped, SerialOf, Record, Held, Accepts;
    match e {
      case Claim(i) => InvClaim(s, i);
      case ClaimFails(i) => OthersKeepTable(s.table, s.serials, s.allocs, i, Outcome(0, None, 0, None));
      case Close(id) => OthersKeepTable(s.table, s.serials, s.allocs, id, Outcome(0, None, 0, None));
      case Request(id, o) => OthersKeepTable(s.table, s.serials, s.allocs, id, o);
      case Submit(j, session) => SubmitStamps(s, session);
      case Finish(j, o) => if j in s.running { RecordStamped(s.running[j], o, s.origins[j], s.allocs); }
      case Take(j) =>
      case Apply(j) =>
        if j in s.taken { OthersKeepTable(s.table, s.serials, s.allocs, s.taken[j].session, s.taken[j].outcome); }
      case Drop(j) =>
    }
  }

  lemma InvClaim(s: State, i: nat)
    requires Inv(s)
    ensures Inv(Next(s, Claim(i)))
  {
    if i < |s.serials| { ClaimKeepsTable(s.table, s.serials, s.allocs, i); }
  }

  lemma {:induction false} EveryRun(steps: seq<Step>)
    ensures Inv(Run(Start(), steps))
  {
    if steps == [] {
      InvStart();
    } else {
      EveryRun(steps[..|steps| - 1]);
      InvNext(Run(Start(), steps[..|steps| - 1]), steps[|steps| - 1]);
    }
  }

  /** The session that submitted job j still holds its slot. */
  ghost predicate StillHeld(s: State, j: nat) {
    && j in s.origins && s.origins[j].serial > 0
    && Held(s.table, s.origins[j].session)
    && SerialOf(s, s.origins[j].session) == s.origins[j].serial
  }

  /** In every run a taken result is accepted exactly if the session now in the slot has the same number modulo 2^32. */
  lemma AcceptedIffCongruent(steps: seq<Step>, j: nat)
    requires j in Run(Start(), steps).taken
    ensures var s := Run(Start(), steps);
      j in s.origins && (Accepts(s.table, s.taken[j]) <==>
        Held(s.table, s.origins[j].session) &&
        SerialOf(s, s.origins[j].session) % WORD == s.origins[j].serial % WORD)
  {
    EveryRun(steps);
    hide Run;
  }

  /** Before the counter wraps, exactly if the session that submitted the request still holds the slot. */
  lemma AcceptedIffStillHeld(steps: seq<Step>, j: nat)
    requires j in Run(Start(), steps).taken && Run(Start(), steps).allocs < WORD
    ensures var s := Run(Start(), steps); Accepts(s.table, s.taken[j]) <==> StillHeld(s, j)
  {
    AcceptedIffCongruent(steps, j);
    EveryRun(steps);
    hide Run;
    var s := Run(Start(), steps);
    SmallResidue(s.origins[j].serial);
    if Held(s.table, s.origins[j].session) { SmallResidue(SerialOf(s, s.origins[j].session)); }
  }

  lemma SmallResidue(n: nat)
    ensures n < WORD ==> n % WORD == n
  {
  }

  /** What an await does to the sessions, in every run whose counter has not wrapped: the result reaches the session
      that asked for it if that still holds its slot, and no session otherwise. */
  lemma ResultReachesItsSession(steps: seq<Step>, j: nat)
    requires j in Run(Start(), steps).taken && Run(Start(), steps).allocs < WORD
    ensures var s := Run(Start(), steps); var r := s.taken[j]; var t := Next(s, Apply(j));
      && |t.table.slots| == |s.table.slots| && t.table.counter == s.table.counter
      && (!StillHeld(s, j) ==> t.table.slots == s.table.slots)
      && forall i :: 0 <= i < |s.table.slots| && StillHeld(s, j) ==>
           var before, after := s.table.slots[i], t.table.slots[i];
           if i == s.origins[j].session then
             && after.status == r.outcome.status && after.headers == r.outcome.headers
             && after.errorCode == r.outcome.errorCode && after.errorMsg == r.outcome.errorMsg
             && after.active && before.active && after.gen == before.gen
           else after == before
  {
    AcceptedIffStillHeld(steps, j);
    EveryRun(steps);
    hide Run;
  }

  /** What a worker ends with is what the awaiting thread takes, with the slot it was submitted on. */
  lemma OutcomeTravels(s: State, j: nat, o: Outcome)
    requires j in s.running
    ensures var finished := Next(s, Finish(j, o)); var taken := Next(finished, Take(j));
      && j !in finished.running && j in finished.finished && j in taken.taken
      && taken.taken[j].outcome == o && taken.taken[j].session == s.running[j].session
      && taken.table == s.table
  {
  }

  /** A request submitted on an id that names no session changes none. */
  lemma InvalidSubmissionIsHarmless(steps: seq<Step>, j: nat)
    requires j in Run(Start(), steps).taken && Run(Start(), steps).allocs < WORD
    requires j in Run(Start(), steps).origins && Run(Start(), steps).origins[j].serial == 0
    ensures Next(Run(Start(), steps), Apply(j)).table == Run(Start(), steps).table
  {
    ResultReachesItsSession(steps, j);
  }

  /** Live generations differ from each other and from the 0 of an invalid submission. */
  lemma LiveGenerationsDistinct(steps: seq<Step>, i: nat, k: nat)
    requires Run(Start(), steps).allocs < WORD && i != k
    requires Held(Run(Start(), steps).table, i) && Held(Run(Start(), steps).table, k)
    ensures var slots := Run(Start(), steps).table.slots; slots[i].gen != slots[k].gen && slots[i].gen != 0
  {
    EveryRun(steps);
    hide Run;
    var s := Run(Start(), steps);
    SmallResidue(s.serials[i]);
    SmallResidue(s.serials[k]);
  }

  // ---- what happens when the counter wraps

  ghost predicate Idle(s: State) {
    !Held(s.table, 0) && s.origins == map[] && s.running == map[] && s.finished == map[] && s.taken == map[]
  }

  /** Claiming and closing slot 0 n times. */
  lemma {:induction false} Churn(n: nat) returns (steps: seq<Step>)
    ensures Run(Start(), steps).allocs == n && Idle(Run(Start(), steps))
  {
    if n == 0 {
      steps := [];
    } else {
      var before := Churn(n - 1);
      EveryRun(before);
      var s := Run(Start(), before);
      var claimed := before + [Claim(0)];
      steps := claimed + [Close(0)];
      RunNext(Start(), before, Claim(0));
      RunNext(Start(), claimed, Close(0));
      hide Run;
    }
  }

  lemma RunNext(s: State, steps: seq<Step>, e: Step)
    ensures Run(s, steps + [e]) == Next(Run(s, steps), e)
  {
    assert (steps + [e])[..|steps|] == steps;
  }

  ghost predicate ReachesAStranger(s: State, o: Outcome) {
    0 in s.taken && 0 in s.origins && s.origins[0].serial == 0 && Next(s, Apply(0)).table != s.table
  }

  /** With 2^32 sessions opened, a session is stamped 0, and a request made on a closed session reaches it. */
  lemma WrappedGenerationAccepts(o: Outcome) returns (steps: seq<Step>)
    requires o.status != 0
    ensures ReachesAStranger(Run(Start(), steps), o) && Run(Start(), steps).allocs == WORD
  {
    var before := Churn(WORD - 1);
    EveryRun(before);
    var a := before + [Submit(0, 0)];
    var b := a + [Claim(0)];
    var c := b + [Step.Finish(0, o)];
    steps := c + [Take(0)];
    RunNext(Start(), before, Submit(0, 0));
    RunNext(Start(), a, Claim(0));
    RunNext(Start(), b, Step.Finish(0, o));
    RunNext(Start(), c, Take(0));
    hide Run;
  }
}
