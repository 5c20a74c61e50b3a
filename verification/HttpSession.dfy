/** HTTP sessions and the asynchronous results applied to them
    (src/backend_ast/builtin_network_api.c:819-923, 2897-2923, 3434-3437, 3596-3631). */
module HttpSession {
  import opened Wrappers

  const MAX_HTTP_SESSIONS: nat := 32
  const WORD: nat := 0x1_0000_0000

  /** A session slot: its generation and what the last request left there. Options such as timeouts are left out. */
  datatype Slot = Slot(active: bool, gen: nat, status: int, headers: Option<string>,
                       errorCode: int, errorMsg: Option<string>)

  datatype Table = Table(slots: seq<Slot>, counter: nat)

  /** What the worker of a request knows of its session. */
  datatype Job = Job(session: int, gen: nat)

  datatype Outcome = Outcome(status: int, headers: Option<string>, errorCode: int, errorMsg: Option<string>)

  /** The record a worker leaves for the awaiting thread; the generation travels as a signed integer. */
  datatype Result = Result(session: int, gen: int, outcome: Outcome)

  const ZEROED: Slot := Slot(false, 0, 0, None, 0, None)

  /** The C conversions between `unsigned int` and `int`. */
  function ToInt(u: nat): int {
    if u < WORD / 2 then u else u - WORD
  }

  function ToUnsigned(i: int): nat {
    i % WORD
  }

  lemma GenerationSurvivesTheRecord(u: nat)
    requires u < WORD
    ensures ToUnsigned(ToInt(u)) == u
  {
  }

  // ---- the table

  ghost predicate Held(t: Table, id: int) {
    0 <= id < |t.slots| && t.slots[id].active
  }

  ghost function Claimed(t: Table, i: nat): Table {
    if i < |t.slots| then
      var counter := (t.counter + 1) % WORD;
      Table(t.slots[i := ZEROED.(active := true, gen := counter)], counter)
    else t
  }

  /** What the lost curl handle leaves behind: a cleared slot. */
  ghost function Cleared(t: Table, i: nat): Table {
    if i < |t.slots| then t.(slots := t.slots[i := ZEROED]) else t
  }

  ghost function Closed(t: Table, id: int): Table {
    if Held(t, id)
    then t.(slots := t.slots[id := t.slots[id].(active := false, headers := None, errorMsg := None)])
    else t
  }

  ghost function Stored(t: Table, id: int, o: Outcome): Table {
    if Held(t, id)
    then t.(slots := t.slots[id := t.slots[id].(status := o.status, headers := o.headers,
                                                errorCode := o.errorCode, errorMsg := o.errorMsg)])
    else t
  }

  ghost predicate Accepts(t: Table, r: Result) {
    Held(t, r.session) && t.slots[r.session].gen == ToUnsigned(r.gen)
  }

  ghost function Snapshot(t: Table, id: int): Job {
    Job(id, if Held(t, id) then t.slots[id].gen else 0)
  }

  ghost predicate LowestFree(slots: seq<Slot>, j: nat) {
    j < |slots| && !slots[j].active && forall k :: 0 <= k < j ==> slots[k].active
  }

  /** Slot j has lost what it held, and no other has changed. */
  ghost predicate OnlyClears(before: seq<Slot>, after: seq<Slot>, j: nat) {
    && j < |before| == |after|
    && !after[j].active && after[j].headers == None && after[j].errorMsg == None
    && forall k :: 0 <= k < |before| && k != j ==> after[k] == before[k]
  }

  class Sessions {
    const slots: array<Slot>
    var counter: nat

    constructor ()
      ensures Valid() && fresh(slots) && View() == Table(seq(MAX_HTTP_SESSIONS, _ => ZEROED), 0) && slots.Length == 32
    {
      slots := new Slot[MAX_HTTP_SESSIONS](_ => ZEROED);
      counter := 0;
      new;
      assert slots[..] == seq(MAX_HTTP_SESSIONS, _ => ZEROED);
    }

    ghost predicate Valid()
      reads this
    {
      slots.Length == MAX_HTTP_SESSIONS && counter < WORD
    }

    ghost function View(): Table
      reads this, slots
    {
      Table(slots[..], counter)
    }

    predicate IsActive(id: int)
      requires Valid()
      reads this, slots
      ensures IsActive(id) <==> Held(View(), id)
    {
      0 <= id < MAX_HTTP_SESSIONS && slots[id].active
    }

    /** `curlStarts(i)` is whether a curl handle can be had for slot i. The lowest free slot is taken, or none. */
    method AllocSession(curlStarts: nat -> bool) returns (id: int)
      requires Valid()
      modifies slots, `counter
      ensures Valid()
      ensures id >= 0 ==> !Held(old(View()), id) && View() == Claimed(old(View()), id)
      ensures id >= 0 ==> id < slots.Length && slots[id].active && slots[id].gen == counter
      ensures id >= 0 ==> slots[id].status == 0 && slots[id].errorCode == 0
      ensures id >= 0 ==> slots[id].headers == None && slots[id].errorMsg == None
      ensures id >= 0 ==> counter == if old(counter) + 1 == 0x1_0000_0000 then 0 else old(counter) + 1
      ensures id >= 0 ==> forall j :: 0 <= j < slots.Length && j != id ==> slots[j] == old(slots[j])
      ensures id >= 0 ==> forall j :: 0 <= j < id ==> Held(old(View()), j)
      ensures id < 0 ==> id == -1
      ensures id < 0 && (forall j: nat :: curlStarts(j)) ==>
        View() == old(View()) && forall j :: 0 <= j < MAX_HTTP_SESSIONS ==> Held(old(View()), j)
      ensures id < 0 ==> counter == old(counter)
      ensures id < 0 && View() != old(View()) ==>
        exists j: nat ::
          j < slots.Length && !curlStarts(j) && LowestFree(old(slots[..]), j)
          && OnlyClears(old(slots[..]), slots[..], j)
    {
      ghost var t := View();
      for i := 0 to MAX_HTTP_SESSIONS
        invariant View() == t && forall j :: 0 <= j < i ==> Held(t, j)
      {
        if !slots[i].active {
          slots[i] := ZEROED;
          if !curlStarts(i) {
            assert slots[..] == t.slots[i := ZEROED] && View() == Cleared(t, i);
            forall k | 0 <= k < i
              ensures t.slots[k].active
            {
              assert Held(t, k);
            }
            assert LowestFree(t.slots, i) && OnlyClears(t.slots, slots[..], i);
            return -1;
          }
          slots[i] := slots[i].(active := true);
          counter := (counter + 1) % WORD;
          slots[i] := slots[i].(gen := counter);
          assert slots[..] == t.slots[i := ZEROED.(active := true, gen := counter)];
          return i;
        }
      }
      return -1;
    }

    method FreeSession(id: int)
      requires Valid()
      modifies slots
      ensures Valid() && View() == Closed(old(View()), id) && counter == old(counter)
      ensures forall j :: 0 <= j < slots.Length && (j != id || !old(slots[j].active)) ==> slots[j] == old(slots[j])
      ensures 0 <= id < slots.Length && old(slots[id].active) ==>
        !slots[id].active && slots[id].headers == None && slots[id].errorMsg == None &&
        slots[id].gen == old(slots[id].gen) && slots[id].status == old(slots[id].status) &&
        slots[id].errorCode == old(slots[id].errorCode)
    {
      if id < 0 || id >= MAX_HTTP_SESSIONS || !slots[id].active {
        return;
      }
      slots[id] := slots[id].(headers := None);
      slots[id] := slots[id].(errorMsg := None);
      slots[id] := slots[id].(active := false);
      assert slots[..] == Closed(old(View()), id).slots;
    }

    /** The part of an asynchronous submission that reads the session. */
    method Submit(session: int) returns (job: Job)
      requires Valid()
      ensures job == Snapshot(View(), session) && job.session == session
      ensures 0 <= session < slots.Length && slots[session].active ==> job.gen == slots[session].gen
      ensures !(0 <= session < slots.Length && slots[session].active) ==> job.gen == 0
    {
      job := Job(session, 0);
      if IsActive(session) {
        job := Job(session, slots[session].gen);
      }
    }

    /** The part of an await that follows the taking of the result. */
    method Await(r: Result) returns (status: int)
      requires Valid()
      modifies slots
      ensures status == r.outcome.status
      ensures Valid()
      ensures View() == if Accepts(old(View()), r) then Stored(old(View()), r.session, r.outcome) else old(View())
      ensures counter == old(counter)
      ensures var hit := 0 <= r.session < slots.Length && old(slots[..])[r.session].active &&
                         old(slots[..])[r.session].gen == r.gen % 0x1_0000_0000;
        if hit then
          && slots[r.session].status == r.outcome.status && slots[r.session].headers == r.outcome.headers
          && slots[r.session].errorCode == r.outcome.errorCode && slots[r.session].errorMsg == r.outcome.errorMsg
          && slots[r.session].active && slots[r.session].gen == old(slots[..])[r.session].gen
          && forall j :: 0 <= j < slots.Length && j != r.session ==> slots[j] == old(slots[j])
        else slots[..] == old(slots[..])
    {
      status := r.outcome.status;
      var locked := if r.session < 0 || r.session >= MAX_HTTP_SESSIONS then -1 else r.session;
      if locked >= 0 && IsActive(locked) && slots[locked].gen == ToUnsigned(r.gen) {
        slots[locked] := slots[locked].(status := status);
        slots[locked] := slots[locked].(headers := r.outcome.headers);
        slots[locked] := slots[locked].(errorCode := r.outcome.errorCode);
        slots[locked] := slots[locked].(errorMsg := r.outcome.errorMsg);
        assert slots[..] == Stored(old(View()), r.session, r.outcome).slots;
      }
    }
  }

  method Finish(job: Job, outcome: Outcome) returns (r: Result)
    ensures r == Record(job, outcome) && r.session == job.session && r.outcome == outcome
    ensures job.gen < 0x1_0000_0000 ==> r.gen % 0x1_0000_0000 == job.gen
  {
    r := Result(job.session, ToInt(job.gen), outcome);
  }

  ghost function Record(job: Job, outcome: Outcome): Result {
    Result(job.session, ToInt(job.gen), outcome)
  }
}
