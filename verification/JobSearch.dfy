/** The job-ID search of `handle_submit` in `bridge/src/share_handler.rs`: a share that misses the pool
    target under the submitted job is tried against earlier job IDs before it is rejected. */
module JobSearch {
  import opened KeySpace
  import opened MiningState

  /** What the node answers to a block. */
  datatype Submission = Success | Rejected | DuplicateBlock | Failed

  datatype Outcome = Accepted | LowDiff | Stale | Bad | Underflow

  /** Everything the loop consults. Jobs may be added and the pool target may move while it runs, so lookups
      and pool tests depend on the iteration as well. */
  datatype Env<!Job> = Env(
    lookup: (nat, nat) -> Option<Job>,
    missesPool: (nat, Job) -> bool,
    meetsNetwork: Job -> bool,
    submit: Job -> Submission)

  /** The jobs tried, in order: IDs count down from the submitted one, all but the last missed both targets. */
  ghost predicate Trail<Job>(env: Env<Job>, jobId: nat, first: Job, tried: seq<Job>) {
    && 1 <= |tried| <= 300 && tried[0] == first && |tried| <= (if jobId == 0 then 1 else jobId)
    && (forall i :: 1 <= i < |tried| ==> env.lookup(i, jobId - i) == Some(tried[i]))
    && (forall i :: 0 <= i < |tried| - 1 ==> !env.meetsNetwork(tried[i]) && env.missesPool(i, tried[i]))
  }

  /** The last job decides. A pool miss ends the search only at job 1, after 300 jobs, or where no job is stored. */
  ghost predicate Decides<Job>(env: Env<Job>, jobId: nat, tried: seq<Job>, outcome: Outcome)
    requires 1 <= |tried| <= jobId + 1
  {
    var n := |tried| - 1;
    if env.meetsNetwork(tried[n]) then
      match env.submit(tried[n])
      case Success => outcome == Accepted
      case Rejected => outcome == LowDiff
      case DuplicateBlock => outcome == Stale
      case Failed => outcome == Bad
    else if !env.missesPool(n, tried[n]) then
      outcome == Accepted
    else if jobId == 0 then
      outcome == Underflow
    else
      outcome == LowDiff && (jobId - n == 1 || n == MAX_JOBS - 1 || (n < jobId && env.lookup(n + 1, jobId - n - 1) == None))
  }

  lemma FullCircleIff(jobId: int, step: nat)
    requires step < MAX_JOBS
    ensures (jobId - step) % MAX_JOBS == (jobId % MAX_JOBS + 1) % MAX_JOBS <==> step == MAX_JOBS - 1
  {
    var q, r := jobId / MAX_JOBS, jobId % MAX_JOBS;
    assert jobId - step == q * MAX_JOBS + (r - step);
  }

  lemma TrailMore<Job>(env: Env<Job>, jobId: nat, first: Job, tried: seq<Job>, job: Job)
    requires Trail(env, jobId, first, tried) && |tried| < MAX_JOBS && |tried| < jobId
    requires !env.meetsNetwork(tried[|tried| - 1]) && env.missesPool(|tried| - 1, tried[|tried| - 1])
    requires env.lookup(|tried|, jobId - |tried|) == Some(job)
    ensures Trail(env, jobId, first, tried + [job])
  {
  }

  method Search<Job>(env: Env<Job>, jobId: nat, first: Job) returns (outcome: Outcome, tried: seq<Job>)
    ensures Trail(env, jobId, first, tried) && Decides(env, jobId, tried, outcome)
    ensures outcome == Underflow <==> jobId == 0 && !env.meetsNetwork(first) && env.missesPool(0, first)
  {
    var currentId, current := jobId, first;
    var invalidShare := false;
    tried := [];
    while true
      invariant |tried| < MAX_JOBS && currentId == jobId - |tried|
      invariant |tried| > 0 ==> currentId >= 1 && invalidShare
      invariant Trail(env, jobId, first, tried + [current])
      decreases MAX_JOBS - |tried|
    {
      var step := |tried|;
      tried := tried + [current];
      if env.meetsNetwork(current) {
        match env.submit(current)
        case Success =>
          invalidShare := false;
          break;
        case Rejected =>
          invalidShare := true;
          break;
        case DuplicateBlock => return Stale, tried;
        case Failed => return Bad, tried;
      }
      if env.missesPool(step, current) {
        if currentId == jobId {
          invalidShare := true;
        }
        FullCircleIff(jobId, step);
        if currentId == 1 || currentId % MAX_JOBS == (jobId % MAX_JOBS + 1) % MAX_JOBS {
          break;
        }
        if currentId == 0 {
          return Underflow, tried; // the checked subtraction below would panic
        }
        var prev := currentId - 1;
        match env.lookup(step + 1, prev)
        case None => break;
        case Some(job) =>
          TrailMore(env, jobId, first, tried, job);
          currentId, current := prev, job;
      } else {
        invalidShare := false;
        break;
      }
    }
    outcome := if invalidShare then LowDiff else Accepted;
  }

  lemma ResiduesDiffer(a: int, b: int)
    requires 0 < a - b < MAX_JOBS
    ensures a % MAX_JOBS != b % MAX_JOBS
  {
    assert a - b == (a / MAX_JOBS - b / MAX_JOBS) * MAX_JOBS + (a % MAX_JOBS - b % MAX_JOBS);
  }

  /** However the ring changes meanwhile, no slot is looked at twice. */
  lemma TriedSlotsDistinct<Job>(env: Env<Job>, jobId: nat, first: Job, tried: seq<Job>, i: nat, j: nat)
    requires Trail(env, jobId, first, tried) && i < j < |tried|
    ensures (jobId - i) % MAX_JOBS != (jobId - j) % MAX_JOBS
  {
    ResiduesDiffer(jobId - i, jobId - j);
  }

  /** With one, the node's answer decides, whatever the pool target. */
  lemma NodeDecides<Job>(env: Env<Job>, jobId: nat, first: Job, tried: seq<Job>, outcome: Outcome)
    requires Trail(env, jobId, first, tried) && Decides(env, jobId, tried, outcome) && env.meetsNetwork(tried[|tried| - 1])
    ensures var answer := env.submit(tried[|tried| - 1]);
            && (outcome == Accepted <==> answer == Success) && (outcome == Stale <==> answer == DuplicateBlock)
            && (outcome == LowDiff <==> answer == Rejected) && (outcome == Bad <==> answer == Failed)
  {
  }

  /** Without a network-target hit, a share is rejected if and only if every job tried missed the pool target. */
  lemma RejectedIffAllMissed<Job>(env: Env<Job>, jobId: nat, first: Job, tried: seq<Job>, outcome: Outcome)
    requires jobId >= 1 && Trail(env, jobId, first, tried) && Decides(env, jobId, tried, outcome)
    requires forall i :: 0 <= i < |tried| ==> !env.meetsNetwork(tried[i])
    ensures outcome == LowDiff <==> forall i :: 0 <= i < |tried| ==> env.missesPool(i, tried[i])
    ensures outcome == Accepted || outcome == LowDiff
  {
    var n := |tried| - 1;
    assert outcome == LowDiff ==> env.missesPool(n, tried[n]);
  }

  /** All lookups were answered by one ring. */
  ghost predicate Still<Job>(env: Env<Job>, history: seq<Job>, jobId: nat, first: Job) {
    && GetJob(Build(history), jobId) == Some(first)
    && forall step, id :: env.lookup(step, id) == GetJob(Build(history), id)
  }

  lemma FullRingAnswers<Job>(history: seq<Job>, id: nat)
    requires |history| >= MAX_JOBS
    ensures GetJob(Build(history), id).Some?
  {
    RingHoldsNewest(history, id % MAX_JOBS);
    NewestIsNewest(|history|, id % MAX_JOBS);
  }

  /** With a full ring that does not change, a rejected share was tried against exactly min(jobId, 300) slots. */
  lemma RejectedAfter<Job>(env: Env<Job>, history: seq<Job>, jobId: nat, first: Job, tried: seq<Job>)
    requires jobId >= 1 && |history| >= 300 && Still(env, history, jobId, first)
    requires Trail(env, jobId, first, tried) && Decides(env, jobId, tried, LowDiff)
    requires !env.meetsNetwork(tried[|tried| - 1])
    ensures |tried| == if jobId < 300 then jobId else 300
  {
    var n := |tried| - 1;
    if n < jobId {
      FullRingAnswers(history, jobId - n - 1);
    }
  }

  function SlotOf(jobId: nat, i: nat): int {
    (jobId - i) % MAX_JOBS
  }

  /** One of the first `count` IDs from `jobId` down falls into this slot. */
  ghost predicate Reached(jobId: nat, count: nat, slot: nat) {
    exists i :: 0 <= i < count && SlotOf(jobId, i) == slot
  }

  lemma ReachesEverySlotIff(jobId: nat, count: nat)
    requires jobId >= 1 && count == if jobId < MAX_JOBS then jobId else MAX_JOBS
    ensures (forall slot :: 0 <= slot < MAX_JOBS ==> Reached(jobId, count, slot)) <==> jobId >= MAX_JOBS
  {
    if jobId >= MAX_JOBS {
      forall slot | 0 <= slot < MAX_JOBS
        ensures Reached(jobId, count, slot)
      {
        NewestIsNewest(jobId, slot);
        assert SlotOf(jobId, (jobId - slot) % MAX_JOBS) == slot;
      }
    } else {
      assert forall i :: 0 <= i < jobId ==> SlotOf(jobId, i) == jobId - i;
      assert !Reached(jobId, jobId, 0);
    }
  }

  ghost predicate AllStoredTried<Job>(history: seq<Job>, tried: seq<Job>) {
    forall k :: |history| - 300 <= k < |history| && k >= 0 ==> history[k] in tried
  }

  /** From an ID below 300 the job in slot 0 is not tried. */
  lemma SlotZeroMissed<Job>(env: Env<Job>, history: seq<Job>, jobId: nat, first: Job, tried: seq<Job>)
    requires 1 <= jobId < MAX_JOBS <= |history| && Still(env, history, jobId, first) && Distinct(history)
    requires Trail(env, jobId, first, tried)
    ensures !AllStoredTried(history, tried)
  {
    var id := Newest(|history|, 0);
    NewestIsNewest(|history|, 0);
    forall i | 0 <= i < |tried|
      ensures tried[i] != history[id - 1]
    {
      OtherSlotOtherJob(history, jobId - i, id);
      assert GetJob(Build(history), jobId - i) == Some(tried[i]);
    }
  }

  lemma OtherSlotOtherJob<Job>(history: seq<Job>, slot: nat, id: nat)
    requires 1 <= slot < MAX_JOBS <= |history| && Distinct(history) && 1 <= id <= |history| && id % MAX_JOBS == 0
    ensures GetJob(Build(history), slot) != Some(history[id - 1])
  {
    RingHoldsNewest(history, slot);
    NewestIsNewest(|history|, slot);
    assert Newest(|history|, slot) != id;
  }

  /** So it was tried against every stored job if and only if the submitted ID is at least 300; a smaller ID
      stops at job 1 with slot 0 never tried. */
  lemma TriesEverySlotIff<Job>(env: Env<Job>, history: seq<Job>, jobId: nat, first: Job, tried: seq<Job>)
    requires jobId >= 1 && |history| >= 300 && Still(env, history, jobId, first)
    requires Trail(env, jobId, first, tried) && Decides(env, jobId, tried, LowDiff)
    requires !env.meetsNetwork(tried[|tried| - 1])
    ensures (forall slot :: 0 <= slot < 300 ==> Reached(jobId, |tried|, slot)) <==> jobId >= 300
    ensures jobId >= 300 ==> AllStoredTried(history, tried)
    ensures Distinct(history) ==> (AllStoredTried(history, tried) <==> jobId >= 300)
  {
    if jobId < MAX_JOBS && Distinct(history) {
      SlotZeroMissed(env, history, jobId, first, tried);
    }
    RejectedAfter(env, history, jobId, first, tried);
    ReachesEverySlotIff(jobId, |tried|);
    if jobId >= MAX_JOBS {
      forall k | |history| - MAX_JOBS <= k < |history|
        ensures history[k] in tried
      {
        RecentJobTried(env, history, jobId, first, tried, k);
      }
    }
  }

  lemma RecentJobTried<Job>(env: Env<Job>, history: seq<Job>, jobId: nat, first: Job, tried: seq<Job>, k: nat)
    requires jobId >= MAX_JOBS && |tried| == MAX_JOBS && Still(env, history, jobId, first)
    requires Trail(env, jobId, first, tried) && |history| - MAX_JOBS <= k < |history|
    ensures history[k] in tried
  {
    var id, slot := k + 1, (k + 1) % MAX_JOBS;
    var i := (jobId - slot) % MAX_JOBS;
    NewestIsNewest(jobId, slot);
    GetJobReturns(history, id);
    assert (jobId - i) % MAX_JOBS == id % MAX_JOBS;
    assert GetJob(Build(history), jobId - i) == Some(history[k]);
    assert i > 0 ==> env.lookup(i, jobId - i) == Some(tried[i]);
    assert tried[i] == history[k];
  }
}
