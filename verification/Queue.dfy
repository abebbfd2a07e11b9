/** The queue's own operations (internal/queue/queue.go): the battery gate, the pump's tick taken as one step,
    the retry delay, and what a failure writes to the job's row. */
module Queue {
  import opened Times
  import opened Store

  datatype Power = Power(minBatteryPct: int, onBattery: int, onCharge: int, maxAttempts: int)

  const FIRST_DELAY: nat := 30 * SECOND
  const LAST_DELAY: nat := 30 * 60 * SECOND

  function Pow2(n: nat): nat {
    if n == 0 then 1 else 2 * Pow2(n - 1)
  }

  function MinNat(a: nat, b: nat): nat {
    if a <= b then a else b
  }

  /** Thirty seconds, doubled after every failure but the first until it would reach thirty minutes. */
  function Delay(attempt: int): nat {
    if attempt <= 1 then FIRST_DELAY else MinNat(2 * Delay(attempt - 1), LAST_DELAY)
  }

  /** In closed form: the smaller of thirty seconds times a power of two and thirty minutes, in nanoseconds. */
  lemma {:induction false} DelayDoubles(attempt: int)
    ensures Delay(attempt)
         == MinNat(30_000_000_000 * Pow2(if attempt < 1 then 0 else attempt - 1), 1_800_000_000_000)
  {
    if attempt > 1 {
      DelayDoubles(attempt - 1);
    }
  }

  lemma {:induction false} DelayStays(m: int, n: int)
    requires m <= n && Delay(m) == LAST_DELAY
    ensures Delay(n) == LAST_DELAY
    decreases n - m
  {
    if m < n {
      DelayStays(m, n - 1);
    }
  }

  method RetryBackoff(attempt: int) returns (backoff: nat)
    ensures backoff == Delay(attempt)
  {
    var n := if attempt < 1 then 1 else attempt;
    backoff := FIRST_DELAY;
    var i := 1;
    while i < n
      invariant 1 <= i <= n && backoff == Delay(i) < LAST_DELAY
    {
      backoff := backoff * 2;
      if backoff >= LAST_DELAY {
        DelayStays(i + 1, n);
        return LAST_DELAY;
      }
      i := i + 1;
    }
  }

  /** The row a failure leaves: queued again while attempts remain, failed for good afterwards. */
  function FailureAs(p: Power, j: Job, kind: string, later: string, at: nat): Job {
    var base := j.(errKind := kind, tmpPath := "");
    if p.maxAttempts > 0 && j.attempts < p.maxAttempts then
      base.(attempts := j.attempts + 1, state := Queued, finishedAt := ZERO_TIME, nextRetryAt := later)
    else base.(state := Failed, finishedAt := at, nextRetryAt := "")
  }

  function Failure(p: Power, j: Job, kind: string, now: nat): Job {
    FailureAs(p, j, kind, FormatTime(now + Delay(j.attempts + 1)), now)
  }

  /** What a failure does to the fields of a row. */
  lemma FailureTells(p: Power, j: Job, kind: string, now: nat)
    ensures var f := Failure(p, j, kind, now);
            && f.errKind == kind && f.tmpPath == ""
            && f == j.(errKind := kind, tmpPath := "", attempts := f.attempts, state := f.state,
                       finishedAt := f.finishedAt, nextRetryAt := f.nextRetryAt)
            && if p.maxAttempts > 0 && j.attempts < p.maxAttempts
               then f.state == Queued && f.attempts == j.attempts + 1 && f.finishedAt == ZERO_TIME
                    && f.nextRetryAt == FormatTime(now + Delay(j.attempts + 1))
               else f.state == JobState.Failed && f.attempts == j.attempts && f.finishedAt == now && f.nextRetryAt == ""
  {
  }

  function Ids(jobs: seq<Job>): set<int> {
    if jobs == [] then {} else Ids(jobs[..|jobs| - 1]) + {jobs[|jobs| - 1].id}
  }

  lemma {:induction false} IdsAre(jobs: seq<Job>, id: int)
    ensures id in Ids(jobs) <==> exists i | 0 <= i < |jobs| :: jobs[i].id == id
  {
    if jobs != [] {
      IdsAre(jobs[..|jobs| - 1], id);
    }
  }

  ghost predicate DistinctIds(jobs: seq<Job>) {
    forall i, j | 0 <= i < j < |jobs| :: jobs[i].id != jobs[j].id
  }

  /** The listed jobs that are not running yet, in the order of the list. */
  function Fresh(jobs: seq<Job>, running: set<int>): (idle: seq<Job>)
    ensures |idle| <= |jobs|
  {
    if jobs == [] then []
    else
      var last := jobs[|jobs| - 1];
      Fresh(jobs[..|jobs| - 1], running) + (if last.id in running then [] else [last])
  }

  lemma {:induction false} FreshAre(jobs: seq<Job>, running: set<int>, j: Job)
    ensures j in Fresh(jobs, running) <==> j in jobs && j.id !in running
  {
    if jobs != [] {
      FreshAre(jobs[..|jobs| - 1], running, j);
      assert jobs == jobs[..|jobs| - 1] + [jobs[|jobs| - 1]];
    }
  }

  lemma {:induction false} FreshDistinct(jobs: seq<Job>, running: set<int>)
    requires DistinctIds(jobs)
    ensures DistinctIds(Fresh(jobs, running))
  {
    if jobs != [] {
      var before, last := jobs[..|jobs| - 1], jobs[|jobs| - 1];
      FreshDistinct(before, running);
      var idle := Fresh(before, running);
      forall k | 0 <= k < |idle| ensures idle[k].id != last.id {
        FreshAre(before, running, idle[k]);
      }
    }
  }

  lemma {:induction false} FreshAll(jobs: seq<Job>, running: set<int>)
    requires forall i | 0 <= i < |jobs| :: jobs[i].id !in running
    ensures Fresh(jobs, running) == jobs
  {
    if jobs != [] {
      FreshAll(jobs[..|jobs| - 1], running);
    }
  }

  /** Passing job `i` of a list without repetition. */
  lemma FreshNext(jobs: seq<Job>, i: nat, running: set<int>)
    requires i < |jobs| && DistinctIds(jobs)
    ensures Fresh(jobs[..i + 1], running)
         == Fresh(jobs[..i], running) + (if jobs[i].id in running then [] else [jobs[i]])
    ensures jobs[i].id !in Ids(Fresh(jobs[..i], running))
    ensures Ids(Fresh(jobs[..i], running) + [jobs[i]]) == Ids(Fresh(jobs[..i], running)) + {jobs[i].id}
  {
    var idle := Fresh(jobs[..i], running);
    assert jobs[..i + 1][..i] == jobs[..i];
    assert (idle + [jobs[i]])[..|idle|] == idle;
    IdsAre(idle, jobs[i].id);
    forall k | 0 <= k < |idle| ensures idle[k].id != jobs[i].id {
      FreshAre(jobs[..i], running, idle[k]);
    }
  }

  /** What passing job `i` does to the list of launched jobs and to the running set. */
  lemma LaunchNext(jobs: seq<Job>, i: nat, before: set<int>, launched: seq<Job>, running: set<int>)
    requires i < |jobs| && DistinctIds(jobs)
    requires launched == Fresh(jobs[..i], before) && running == before + Ids(launched)
    ensures jobs[i].id in running <==> jobs[i].id in before
    ensures jobs[i].id in running ==> Fresh(jobs[..i + 1], before) == launched
    ensures jobs[i].id !in running ==>
      && Fresh(jobs[..i + 1], before) == launched + [jobs[i]]
      && running + {jobs[i].id} == before + Ids(launched + [jobs[i]])
  {
    FreshNext(jobs, i, before);
    assert launched + [] == launched;
  }

  /** What a launch of the listed jobs leaves behind. */
  lemma LaunchedWell(jobs: seq<Job>, running: set<int>)
    requires DistinctIds(jobs)
    ensures var idle := Fresh(jobs, running);
            && DistinctIds(idle) && (forall j | j in idle :: j in jobs && j.id !in running)
            && (forall j | j in jobs :: j.id in running + Ids(idle))
            && ((forall j | j in jobs :: j.id !in running) ==> idle == jobs)
  {
    var idle := Fresh(jobs, running);
    FreshDistinct(jobs, running);
    forall j | j in idle ensures j in jobs && j.id !in running {
      FreshAre(jobs, running, j);
    }
    forall j | j in jobs ensures j.id in running + Ids(idle) {
      FreshAre(jobs, running, j);
      IdsAre(idle, j.id);
    }
    if forall j | j in jobs :: j.id !in running {
      FreshAll(jobs, running);
    }
  }

  /** A launch of due jobs that are not running, without repetition and within the limit. No job launched
      sorts after a due job that is neither launched nor running; and when no due job was running already, a
      due job is left behind only with the limit, or the largest listing, reached. */
  ghost predicate FairLaunch(rows: seq<Job>, now: string, limit: int, running: set<int>, launched: seq<Job>) {
    && DistinctIds(launched)
    && (forall j | j in launched :: j in rows && Due(j, now) && j.id !in running)
    && |running| + |launched| <= limit
    && (forall j, k | j in launched && k in rows && Due(k, now) && k.id !in running + Ids(launched) :: !Before(k, j))
    && ((forall k | k in rows && Due(k, now) :: k.id !in running) ==>
          |launched| == RowLimit(limit - |running|)
          || forall k | k in rows && Due(k, now) :: k.id in running + Ids(launched))
  }

  lemma LaunchIsFair(rows: seq<Job>, now: string, limit: int, running: set<int>, jobs: seq<Job>)
    requires UniqueIds(rows) && |running| < limit
    requires Listing(rows, now, limit - |running|, jobs)
    ensures FairLaunch(rows, now, limit, running, Fresh(jobs, running))
    ensures |jobs| <= limit - |running| && DistinctIds(jobs)
  {
    ListingIsFair(rows, now, limit - |running|, jobs);
    ListedOnce(rows, now, limit - |running|, jobs);
    LaunchedWell(jobs, running);
  }

  /** The same in plain terms: a launched job is due and was not running, and a due job that is neither launched nor
      running does not come before it, by priority number and then by creation. */
  lemma FairLaunchTells(rows: seq<Job>, now: string, limit: int, running: set<int>, launched: seq<Job>, i: nat, k: Job)
    requires FairLaunch(rows, now, limit, running, launched) && i < |launched|
    ensures launched[i] in rows && launched[i].state == Queued && launched[i].id !in running
    ensures launched[i].nextRetryAt == "" || launched[i].nextRetryAt == now || TextLess(launched[i].nextRetryAt, now)
    ensures k in rows && k.state == Queued && k.id !in running
        && (k.nextRetryAt == "" || k.nextRetryAt == now || TextLess(k.nextRetryAt, now))
        && (forall m | 0 <= m < |launched| :: launched[m].id != k.id)
      ==> (launched[i].priority < k.priority
           || (launched[i].priority == k.priority && !TextLess(k.createdAt, launched[i].createdAt)))
    ensures |running| + |launched| <= limit
  {
    assert launched[i] in launched;
    DueTells(launched[i], now);
    DueTells(k, now);
    NotBeforeTells(launched[i], k);
    IdsAre(launched, k.id);
  }

  class Queue {
    const power: Power
    var running: set<int>
    var batteryPct: int
    var charging: bool

    constructor (power: Power)
      ensures this.power == power && running == {} && batteryPct == -1 && !charging
    {
      this.power := power;
      running, batteryPct, charging := {}, -1, false;
    }

    method SetBattery(pct: int, charging: bool)
      modifies this`batteryPct, this`charging
      ensures batteryPct == pct && this.charging == charging
    {
      batteryPct, this.charging := pct, charging;
    }

    /** Downloads wait while the battery is unknown, or at or below the minimum, and not charging. */
    method CheckBattery() returns (ok: bool)
      ensures ok <==> charging || (0 <= batteryPct && power.minBatteryPct < batteryPct)
    {
      if !charging {
        if batteryPct < 0 {
          return false;
        }
        if batteryPct <= power.minBatteryPct {
          return false;
        }
      }
      return true;
    }

    function Limit(): (limit: int)
      reads this`charging
      ensures limit > 0
      ensures charging && power.onCharge > 0 ==> limit == power.onCharge
      ensures !charging && power.onBattery > 0 ==> limit == power.onBattery
      ensures (if charging then power.onCharge else power.onBattery) <= 0 ==> limit == 2
    {
      var configured := if charging then power.onCharge else power.onBattery;
      if configured <= 0 then 2 else configured
    }

    predicate Gate()
      reads this`charging, this`batteryPct
    {
      charging || (0 <= batteryPct && power.minBatteryPct < batteryPct)
    }

    /** The launch loop of a tick over the listed jobs: those already running are passed over, and the
        check of the limit inside the loop never stops it. */
    method Launch(jobs: seq<Job>, limit: int) returns (launched: seq<Job>)
      requires |jobs| <= limit - |running| && DistinctIds(jobs)
      modifies this`running
      ensures launched == Fresh(jobs, old(running)) && running == old(running) + Ids(launched)
      ensures |running| == |old(running)| + |launched|
    {
      ghost var before := running;
      launched := [];
      var active := |running|;
      var i := 0;
      while i < |jobs|
        invariant 0 <= i <= |jobs|
        invariant launched == Fresh(jobs[..i], before) && running == before + Ids(launched)
        invariant active == |running| == |before| + |launched|
      {
        if active >= limit {
          break;
        }
        LaunchNext(jobs, i, before, launched, running);
        if jobs[i].id !in running {
          running := running + {jobs[i].id};
          active := active + 1;
          launched := launched + [jobs[i]];
        }
        i := i + 1;
      }
      assert jobs[..i] == jobs;
    }

    /** One tick: nothing without the gate, with the limit reached or with the query failing, otherwise a fair
        launch. */
    method Tick(table: Table, now: string, answers: bool) returns (launched: seq<Job>)
      requires UniqueIds(table.rows)
      modifies this`running
      ensures if Gate() && |old(running)| < Limit() && answers
              then FairLaunch(table.rows, now, Limit(), old(running), launched)
              else launched == []
      ensures running == old(running) + Ids(launched)
    {
      launched := [];
      var ok := CheckBattery();
      if !ok {
        return;
      }
      var limit := Limit();
      var active := |running|;
      if active >= limit {
        return;
      }
      launched := LaunchDue(table, now, limit, answers);
    }

    /** The second half of a tick: list at most as many jobs as may still run, and launch them. */
    method LaunchDue(table: Table, now: string, limit: int, answers: bool) returns (launched: seq<Job>)
      requires UniqueIds(table.rows) && |running| < limit
      modifies this`running
      ensures if answers then FairLaunch(table.rows, now, limit, old(running), launched) else launched == []
      ensures running == old(running) + Ids(launched)
    {
      if !answers {
        return [];
      }
      var jobs := table.ListDue(now, limit - |running|);
      LaunchIsFair(table.rows, now, limit, running, jobs);
      launched := Launch(jobs, limit);
    }

    /** What a failure makes of the job, step by step. */
    method AfterFailure(j: Job, kind: string, now: nat) returns (job: Job)
      ensures job == Failure(power, j, kind, now)
    {
      job := j.(errKind := kind, tmpPath := "");
      if power.maxAttempts > 0 && job.attempts < power.maxAttempts {
        job := job.(attempts := job.attempts + 1, state := Queued);
        var delay := RetryBackoff(job.attempts);
        job := job.(nextRetryAt := FormatTime(now + delay), finishedAt := ZERO_TIME);
      } else {
        job := job.(state := Failed, finishedAt := now, nextRetryAt := "");
      }
    }

    /** A failure rewrites the job's row and nothing else. */
    method FailJob(table: Table, j: Job, kind: string, now: nat)
      modifies table
      ensures table.rows == Updated(old(table.rows), Failure(power, j, kind, now))
    {
      var job := AfterFailure(j, kind, now);
      table.UpdateJob(job);
      assert table.rows == Updated(old(table.rows), job);
    }
  }
}
