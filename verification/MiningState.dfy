/** The job ring of `bridge/src/mining_state.rs`: job IDs count up from 1 and share 300 slots by residue. */
module MiningState {
  import opened KeySpace

  const MAX_JOBS: nat := 300

  datatype Ring<Job> = Ring(jobs: map<nat, Job>, ids: map<nat, nat>, counter: nat)

  function Added<Job>(r: Ring<Job>, job: Job): Ring<Job> {
    var idx := r.counter + 1;
    Ring(r.jobs[idx % MAX_JOBS := job], r.ids[idx % MAX_JOBS := idx], idx)
  }

  /** The ring after adding `history` to an empty one; the job with ID `i` is `history[i - 1]`. */
  function Build<Job>(history: seq<Job>): Ring<Job> {
    if history == [] then Ring(map[], map[], 0)
    else Added(Build(history[..|history| - 1]), history[|history| - 1])
  }

  /** The largest number up to `n` in a slot's residue class; it is an assigned ID when it is at least 1. */
  function Newest(n: nat, slot: nat): int {
    n - (n - slot) % MAX_JOBS
  }

  lemma NewestIsNewest(n: nat, slot: nat)
    requires slot < MAX_JOBS
    ensures Newest(n, slot) <= n && Newest(n, slot) % 300 == slot
    ensures forall id :: Newest(n, slot) < id <= n ==> id % 300 != slot
  {
    var d := (n - slot) % MAX_JOBS;
    assert n - d - slot == (n - slot) / MAX_JOBS * MAX_JOBS;
  }

  lemma NewestStep(n: nat, slot: nat)
    requires slot < MAX_JOBS
    ensures Newest(n + 1, slot) == if (n + 1) % MAX_JOBS == slot then n + 1 else Newest(n, slot)
  {
    NewestIsNewest(n, slot);
    NewestIsNewest(n + 1, slot);
  }

  /** After any number of additions, each slot holds the newest job of its residue class and its ID, and
      is empty exactly when no ID of the class has been assigned. */
  lemma {:induction false} RingHoldsNewest<Job>(history: seq<Job>, slot: nat)
    requires slot < MAX_JOBS
    ensures var r, newest := Build(history), Newest(|history|, slot);
            && r.counter == |history|
            && (slot in r.jobs <==> newest >= 1) && (slot in r.ids <==> newest >= 1)
            && (newest >= 1 ==> newest <= |history| && r.ids[slot] == newest && r.jobs[slot] == history[newest - 1])
  {
    if history == [] {
      NewestIsNewest(0, slot);
    } else {
      var n := |history| - 1;
      RingHoldsNewest(history[..n], slot);
      RingHoldsNewest(history[..n], (n + 1) % MAX_JOBS);
      NewestStep(n, slot);
      NewestIsNewest(n, slot);
    }
  }

  lemma {:induction false} SlotsInRange<Job>(history: seq<Job>)
    ensures Build(history).jobs.Keys == Build(history).ids.Keys
    ensures forall s :: s in Build(history).jobs ==> s < MAX_JOBS
  {
    if history != [] {
      SlotsInRange(history[..|history| - 1]);
    }
  }

  lemma BuildMore<Job>(history: seq<Job>, job: Job)
    ensures Build(history).counter == |history| && Build(history + [job]) == Added(Build(history), job)
  {
    RingHoldsNewest(history, 0);
    assert (history + [job])[..|history|] == history;
  }

  function GetJob<Job>(r: Ring<Job>, id: nat): Option<Job> {
    if id % MAX_JOBS in r.jobs then Some(r.jobs[id % MAX_JOBS]) else None
  }

  lemma NewestOf(n: nat, id: nat)
    ensures Newest(n, id % MAX_JOBS) == id <==> n - MAX_JOBS < id <= n
    ensures id <= n ==> id <= Newest(n, id % MAX_JOBS)
  {
    NewestIsNewest(n, id % MAX_JOBS);
    var m := Newest(n, id % MAX_JOBS);
    assert m - id == (m / MAX_JOBS - id / MAX_JOBS) * MAX_JOBS;
  }

  /** A lookup by ID returns the newest job of the ID's residue class. That is the job added under this very
      ID exactly while fewer than 300 jobs were added after it. */
  lemma GetJobReturns<Job>(history: seq<Job>, id: nat)
    ensures var n, newest := |history|, Newest(|history|, id % MAX_JOBS);
            && GetJob(Build(history), id) == (if newest >= 1 then Some(history[newest - 1]) else None)
            && (newest == id <==> n - 300 < id <= n)
            && (1 <= id <= n ==> id <= newest)
  {
    RingHoldsNewest(history, id % MAX_JOBS);
    NewestOf(|history|, id);
  }

  class MiningState<Job> {
    var jobs: map<nat, Job>
    var jobIds: map<nat, nat>
    var jobCounter: nat
    ghost var history: seq<Job>

    ghost predicate Valid()
      reads this
    {
      Ring(jobs, jobIds, jobCounter) == Build(history)
    }

    constructor ()
      ensures Valid() && history == []
    {
      jobs := map[];
      jobIds := map[];
      jobCounter := 0;
      history := [];
    }

    /** Returns the next ID; jobs added before keep theirs. */
    method AddJob(job: Job) returns (idx: nat)
      requires Valid()
      modifies this
      ensures Valid() && history == old(history) + [job] && idx == |history|
    {
      jobCounter := jobCounter + 1;
      idx := jobCounter;
      var slot := idx % MAX_JOBS;
      jobs := jobs[slot := job];
      jobIds := jobIds[slot := idx];
      BuildMore(history, job);
      history := history + [job];
    }

    /** Whatever is at the ID's slot, without comparing IDs. */
    method Get(id: nat) returns (job: Option<Job>)
      requires Valid()
      ensures var newest := Newest(|history|, id % MAX_JOBS);
              job == if newest >= 1 then Some(history[newest - 1]) else None
    {
      GetJobReturns(history, id);
      var slot := id % MAX_JOBS;
      job := if slot in jobs then Some(jobs[slot]) else None;
    }

    method GetJobIdAtSlot(slot: nat) returns (id: Option<nat>)
      requires Valid()
      ensures var newest := Newest(|history|, slot % MAX_JOBS);
              id == if newest >= 1 then Some(newest) else None
    {
      RingHoldsNewest(history, slot % MAX_JOBS);
      var s := slot % MAX_JOBS;
      id := if s in jobIds then Some(jobIds[s]) else None;
    }
  }
}
