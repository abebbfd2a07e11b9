/** The scheduler step by step (internal/queue/queue.go, lines 77-127): the pump's battery check, its count of
    running jobs, the query and the launches, the runs it starts, and their deferred clean-up. The rows of the table
    and the battery may change at any moment. */
module Interleaving {
  import opened Basics
  import opened Store

  /** A run works, then removes its directory, then gives its id back; `made` once it has its directory. */
  datatype Stage = Working | Cleaning | Releasing | Gone
  datatype Run = Run(job: Job, stage: Stage, made: bool)

  datatype Pump =
    | Idle
    | Gated
    | Counted(limit: int, active: int)
    | Checking(limit: int, counted: int, active: int, jobs: seq<Job>, next: nat)

  /** `dirs` says which run last made the directory of a job id. */
  datatype State = State(
    rows: seq<Job>, gate: bool, limit: int, running: set<int>, pump: Pump, runs: seq<Run>, dirs: map<int, nat>)

  datatype Action =
    | Environment(rows: seq<Job>, gate: bool, limit: int)
    | Gate
    | CountRunning
    | List(now: string, jobs: seq<Job>)
    | NoAnswer
    | Check
    | MakeDir(r: nat)
    | Save(r: nat, job: Job)
    | Finish(r: nat)
    | RemoveDir(r: nat, ok: bool)
    | Release(r: nat)

  predicate Is(s: State, r: int, stage: Stage) {
    0 <= r < |s.runs| && s.runs[r].stage == stage
  }

  predicate Live(s: State, r: int) {
    0 <= r < |s.runs| && s.runs[r].stage != Gone
  }

  function CheckNext(s: State, limit: int, counted: int, active: int, jobs: seq<Job>, next: nat): State {
    if next >= |jobs| || active >= limit then s.(pump := Idle)
    else if jobs[next].id in s.running then s.(pump := Checking(limit, counted, active, jobs, next + 1))
    else s.(running := s.running + {jobs[next].id}, runs := s.runs + [Run(jobs[next], Working, false)],
            pump := Checking(limit, counted, active + 1, jobs, next + 1))
  }

  ghost predicate Next(s: State, a: Action, s': State) {
    match a
    case Environment(rows, gate, limit) => limit > 0 && s' == s.(rows := rows, gate := gate, limit := limit)
    case Gate =>
      s.pump == Idle && s.gate && s' == s.(pump := Gated)
    case CountRunning =>
      s.pump == Gated && s' == s.(pump := if |s.running| >= s.limit then Idle else Counted(s.limit, |s.running|))
    case List(now, jobs) =>
      s.pump.Counted? && Listing(s.rows, now, s.pump.limit - s.pump.active, jobs)
      && s' == s.(pump := Checking(s.pump.limit, s.pump.active, s.pump.active, jobs, 0))
    case NoAnswer =>
      s.pump.Counted? && s' == s.(pump := Idle)
    case Check =>
      s.pump.Checking?
      && s' == CheckNext(s, s.pump.limit, s.pump.counted, s.pump.active, s.pump.jobs, s.pump.next)
    case MakeDir(r) =>
      Is(s, r, Working)
      && s' == s.(dirs := s.dirs[s.runs[r].job.id := r], runs := s.runs[r := s.runs[r].(made := true)])
    case Save(r, job) =>
      Is(s, r, Working) && job.id == s.runs[r].job.id
      && s' == s.(rows := Updated(s.rows, job), runs := s.runs[r := s.runs[r].(job := job)])
    case Finish(r) =>
      Is(s, r, Working) && s' == s.(runs := s.runs[r := s.runs[r].(stage := Cleaning)])
    case RemoveDir(r, ok) =>
      Is(s, r, Cleaning)
      && s' == s.(dirs := if ok then s.dirs - {s.runs[r].job.id} else s.dirs,
                  runs := s.runs[r := s.runs[r].(stage := Releasing)])
    case Release(r) =>
      Is(s, r, Releasing)
      && s' == s.(running := s.running - {s.runs[r].job.id}, runs := s.runs[r := s.runs[r].(stage := Gone)])
  }

  // ---------------------------------------------------------------- invariant

  /** At most one run is live per job id. */
  ghost predicate OnePerId(s: State) {
    forall q, r | Live(s, q) && Live(s, r) && s.runs[q].job.id == s.runs[r].job.id :: q == r
  }

  /** The running set holds exactly the ids of the live runs. */
  ghost predicate RunningIsLive(s: State) {
    && (forall r | Live(s, r) :: s.runs[r].job.id in s.running)
    && (forall id | id in s.running :: exists r :: Live(s, r) && s.runs[r].job.id == id)
  }

  /** From the moment a run has made its directory until it has removed it, the directory is its own. */
  ghost predicate OwnsDir(s: State, r: nat)
    requires r < |s.runs|
  {
    (s.runs[r].stage == Working || s.runs[r].stage == Cleaning) && s.runs[r].made ==>
      s.runs[r].job.id in s.dirs && s.dirs[s.runs[r].job.id] == r
  }

  ghost predicate RunsFit(s: State) {
    OnePerId(s) && RunningIsLive(s) && forall r | 0 <= r < |s.runs| :: OwnsDir(s, r)
  }

  ghost predicate PumpFits(s: State) {
    match s.pump
    case Idle => true
    case Gated => true
    case Counted(limit, active) => |s.running| <= active < limit
    case Checking(limit, counted, active, jobs, next) =>
      && |s.running| <= active <= counted + next && counted < limit
      && |jobs| <= limit - counted && next <= |jobs|
  }

  ghost predicate Inv(s: State) {
    RunsFit(s) && PumpFits(s) && s.limit > 0
  }

  /** A job that is not running gets a run of its own. */
  lemma LaunchFits(s: State, job: Job)
    requires RunsFit(s) && job.id !in s.running
    ensures RunsFit(s.(running := s.running + {job.id}, runs := s.runs + [Run(job, Working, false)]))
  {
    var s' := s.(running := s.running + {job.id}, runs := s.runs + [Run(job, Working, false)]);
    forall r | 0 <= r < |s.runs| ensures Live(s', r) == Live(s, r) && s'.runs[r] == s.runs[r] && OwnsDir(s', r) {
      assert OwnsDir(s, r);
    }
    assert Live(s', |s.runs|);
    forall k | k in s'.running ensures exists r :: Live(s', r) && s'.runs[r].job.id == k {
      if k in s.running {
        var r :| Live(s, r) && s.runs[r].job.id == k;
        assert Live(s', r);
      } else {
        assert s'.runs[|s.runs|].job.id == k;
      }
    }
  }

  lemma CheckInv(s: State, s': State)
    requires Inv(s) && Next(s, Check, s')
    ensures Inv(s')
  {
    var p := s.pump;
    if |s'.runs| > |s.runs| {
      var launched := s.(running := s'.running, runs := s'.runs);
      LaunchFits(s, p.jobs[p.next]);
      SameRuns(launched, s');
    } else {
      SameRuns(s, s');
    }
  }

  lemma SameRuns(s: State, s': State)
    requires s'.runs == s.runs && s'.running == s.running && s'.dirs == s.dirs
    requires RunsFit(s)
    ensures RunsFit(s')
  {
    forall r ensures Live(s', r) == Live(s, r) {
    }
    forall k | k in s'.running ensures exists r :: Live(s', r) && s'.runs[r].job.id == k {
      var r :| Live(s, r) && s.runs[r].job.id == k;
      assert Live(s', r);
    }
    forall r | 0 <= r < |s'.runs| ensures OwnsDir(s', r) {
      assert OwnsDir(s, r);
    }
  }

  /** A step of run `r` that keeps it live. */
  lemma LiveStepInv(s: State, r: nat, a: Action, s': State)
    requires Inv(s) && Next(s, a, s')
    requires a == MakeDir(r) || (a.Save? && a.r == r) || a == Finish(r) || (a.RemoveDir? && a.r == r)
    ensures Inv(s')
  {
    assert Live(s, r);
    forall q ensures Live(s', q) == Live(s, q) && (Live(s, q) ==> s'.runs[q].job.id == s.runs[q].job.id) {
    }
    forall k | k in s'.running ensures exists q :: Live(s', q) && s'.runs[q].job.id == k {
      var q :| Live(s, q) && s.runs[q].job.id == k;
      assert Live(s', q);
    }
    forall q | 0 <= q < |s'.runs| ensures OwnsDir(s', q) {
      assert OwnsDir(s, q);
      assert q != r && Live(s, q) ==> s.runs[q].job.id != s.runs[r].job.id;
    }
  }

  lemma ReleaseInv(s: State, r: nat, s': State)
    requires Inv(s) && Next(s, Release(r), s')
    ensures Inv(s')
  {
    var id := s.runs[r].job.id;
    assert Live(s, r);
    forall q ensures Live(s', q) == (Live(s, q) && q != r) {
    }
    forall k | k in s'.running ensures exists q :: Live(s', q) && s'.runs[q].job.id == k {
      var q :| Live(s, q) && s.runs[q].job.id == k;
      assert Live(s', q);
    }
    forall q | 0 <= q < |s'.runs| ensures OwnsDir(s', q) {
      assert OwnsDir(s, q);
    }
    assert |s'.running| <= |s.running|;
  }

  lemma StepInv(s: State, a: Action, s': State)
    requires Inv(s) && Next(s, a, s')
    ensures Inv(s')
  {
    match a
    case Environment(_, _, _) => SameRuns(s, s');
    case Gate => SameRuns(s, s');
    case CountRunning => SameRuns(s, s');
    case List(now, jobs) =>
      ListingIsFair(s.rows, now, s.pump.limit - s.pump.active, jobs);
      SameRuns(s, s');
    case NoAnswer => SameRuns(s, s');
    case Check => CheckInv(s, s');
    case MakeDir(r) => LiveStepInv(s, r, a, s');
    case Save(r, _) => LiveStepInv(s, r, a, s');
    case Finish(r) => LiveStepInv(s, r, a, s');
    case RemoveDir(r, _) => LiveStepInv(s, r, a, s');
    case Release(r) => ReleaseInv(s, r, s');
  }

  predicate Initial(s: State) {
    s.running == {} && s.pump == Idle && s.runs == [] && s.dirs == map[] && s.limit > 0
  }

  ghost predicate History(states: seq<State>, acts: seq<Action>) {
    && |states| == |acts| + 1 && Initial(states[0])
    && (forall k | 0 <= k < |acts| :: Next(states[k], acts[k], states[k + 1]))
  }

  lemma {:induction false} HistoryInv(states: seq<State>, acts: seq<Action>, k: nat)
    requires History(states, acts) && k < |states|
    ensures Inv(states[k])
  {
    if k > 0 {
      HistoryInv(states, acts, k - 1);
      StepInv(states[k - 1], acts[k - 1], states[k]);
    }
  }

  // ---------------------------------------------------------------- theorems

  /** In every history at most one run is live per job id, and its directory is its own while it has one. */
  lemma OneRunPerJob(states: seq<State>, acts: seq<Action>, k: nat, q: nat, r: nat)
    requires History(states, acts) && k < |states| && Live(states[k], q) && Live(states[k], r)
    ensures states[k].runs[q].job.id == states[k].runs[r].job.id ==> q == r
    ensures states[k].runs[r].job.id in states[k].running
    ensures OwnsDir(states[k], r)
  {
    HistoryInv(states, acts, k);
  }

  /** The directory of a job id changes only at the hands of a live run of that id that is not past its clean-up. */
  lemma DirChangesByOwner(s: State, a: Action, s': State, id: int)
    requires Inv(s) && Next(s, a, s') && Lookup(s.dirs, id) != Lookup(s'.dirs, id)
    ensures (a.MakeDir? || a.RemoveDir?) && Live(s, a.r) && s.runs[a.r].job.id == id
    ensures s.runs[a.r].stage == Working || s.runs[a.r].stage == Cleaning
    ensures forall q | Live(s, q) && s.runs[q].job.id == id :: q == a.r
  {
    if a.MakeDir? || a.RemoveDir? {
      assert Live(s, a.r);
    }
  }

  function LiveRuns(runs: seq<Run>): nat {
    if runs == [] then 0 else LiveRuns(runs[..|runs| - 1]) + (if runs[|runs| - 1].stage == Gone then 0 else 1)
  }

  lemma {:induction false} LiveRunsAreIds(runs: seq<Run>, ids: set<int>)
    requires forall q, r | 0 <= q < r < |runs| && runs[q].stage != Gone && runs[r].stage != Gone ::
      runs[q].job.id != runs[r].job.id
    requires forall r | 0 <= r < |runs| && runs[r].stage != Gone :: runs[r].job.id in ids
    requires forall id | id in ids :: exists r :: 0 <= r < |runs| && runs[r].stage != Gone && runs[r].job.id == id
    ensures LiveRuns(runs) == |ids|
  {
    if runs != [] {
      var n := |runs| - 1;
      var rest := if runs[n].stage == Gone then ids else ids - {runs[n].job.id};
      forall id | id in rest
        ensures exists r :: 0 <= r < n && runs[..n][r].stage != Gone && runs[..n][r].job.id == id
      {
        var r :| 0 <= r < |runs| && runs[r].stage != Gone && runs[r].job.id == id;
        assert r < n && runs[..n][r] == runs[r];
      }
      LiveRunsAreIds(runs[..n], rest);
    } else {
      assert forall id :: id !in ids;
    }
  }

  lemma LiveRunsCount(s: State)
    requires RunsFit(s)
    ensures LiveRuns(s.runs) == |s.running|
  {
    forall q, r | 0 <= q < r < |s.runs| && s.runs[q].stage != Gone && s.runs[r].stage != Gone
      ensures s.runs[q].job.id != s.runs[r].job.id
    {
      assert Live(s, q) && Live(s, r);
    }
    forall r | 0 <= r < |s.runs| && s.runs[r].stage != Gone ensures s.runs[r].job.id in s.running {
      assert Live(s, r);
    }
    forall id | id in s.running
      ensures exists r :: 0 <= r < |s.runs| && s.runs[r].stage != Gone && s.runs[r].job.id == id
    {
      var r :| Live(s, r) && s.runs[r].job.id == id;
    }
    LiveRunsAreIds(s.runs, s.running);
  }

  /** A launch never takes the number of live runs above the limit its tick computed, and the check of that
      limit inside the launch loop never ends the loop. */
  lemma LaunchesStayWithinLimit(states: seq<State>, acts: seq<Action>, k: nat)
    requires History(states, acts) && k < |acts| && acts[k] == Check
    ensures states[k].pump.Checking?
    ensures |states[k + 1].runs| > |states[k].runs| ==> LiveRuns(states[k + 1].runs) <= states[k].pump.limit
    ensures states[k].pump.next < |states[k].pump.jobs| ==> states[k].pump.active < states[k].pump.limit
  {
    HistoryInv(states, acts, k);
    HistoryInv(states, acts, k + 1);
    assert Next(states[k], acts[k], states[k + 1]);
    LiveRunsCount(states[k + 1]);
  }

  /** Whether a step may have written the row of this job. */
  predicate Writes(a: Action, id: int) {
    a.Environment? || (a.Save? && a.job.id == id)
  }

  lemma ListedFirst(s: State, a: Action, s': State, j: Job)
    requires Next(s, a, s') && a.List?
    ensures s'.pump.Checking? && s'.pump.jobs == a.jobs
    ensures j in a.jobs ==> j in s'.rows && Due(j, a.now)
  {
    ListingIsFair(s.rows, a.now, s.pump.limit - s.pump.active, a.jobs);
  }

  lemma ListedStill(s: State, a: Action, s': State, j: Job)
    requires Next(s, a, s') && s.pump.Checking? && s'.pump.Checking?
    ensures s'.pump.jobs == s.pump.jobs
    ensures j in s.rows && !Writes(a, j.id) ==> j in s'.rows
  {
    if j in s.rows && a.Save? && a.job.id != j.id {
      var i :| 0 <= i < |s.rows| && s.rows[i] == j;
      assert s'.rows[i] == j;
    }
  }

  /** From the listing on, a job stands in the list of the tick, and in its row until a step writes that row. */
  lemma {:induction false} ListedStays(states: seq<State>, acts: seq<Action>, l: nat, k: nat, j: Job)
    requires History(states, acts) && l < k < |states| && acts[l].List?
    requires forall m | l < m <= k :: states[m].pump.Checking?
    ensures states[k].pump.jobs == acts[l].jobs
    ensures j in acts[l].jobs && (forall m | l < m < k :: !Writes(acts[m], j.id))
      ==> j in states[k].rows && Due(j, acts[l].now)
  {
    if k == l + 1 {
      ListedFirst(states[l], acts[l], states[k], j);
    } else {
      ListedStays(states, acts, l, k - 1, j);
      ListedStill(states[k - 1], acts[k - 1], states[k], j);
    }
  }

  /** Stale relaunches have one cause only: a job that is launched while its row is no longer what was listed has
      had its row written, by a run or from outside, between that tick's query and the launch. */
  lemma StaleOnlyIfWritten(states: seq<State>, acts: seq<Action>, l: nat, k: nat)
    requires History(states, acts) && l < k < |acts| && acts[l].List? && acts[k] == Check
    requires forall m | l < m <= k :: states[m].pump.Checking?
    requires |states[k + 1].runs| > |states[k].runs|
    ensures var j := states[k + 1].runs[|states[k].runs|].job;
            j !in states[k].rows || !Due(j, acts[l].now) ==> exists m | l < m < k :: Writes(acts[m], j.id)
  {
    assert Next(states[k], acts[k], states[k + 1]);
    var j := states[k + 1].runs[|states[k].runs|].job;
    ListedStays(states, acts, l, k, j);
  }

  lemma ListsOne(j: Job, now: string, limit: int)
    requires Due(j, now) && limit > 0
    ensures Listing([j], now, limit, [j])
  {
    assert [j][..0] == [];
    assert DueRows([j], now) == multiset{j} == multiset([j]);
    assert InOrder([j]);
  }

  /** One more step. */
  lemma Extended(states: seq<State>, acts: seq<Action>, a: Action, s': State)
      returns (longer: seq<State>, more: seq<Action>)
    requires History(states, acts) && Next(states[|states| - 1], a, s')
    ensures History(longer, more) && longer[|longer| - 1] == s'
  {
    longer, more := states + [s'], acts + [a];
  }

  /** A job launched, and listed again before its run has saved anything. */
  lemma ListedTwice(j: Job, now: string) returns (states: seq<State>, acts: seq<Action>)
    requires Due(j, now)
    ensures History(states, acts)
    ensures states[|states| - 1]
         == State([j], true, 2, {j.id}, Checking(2, 1, 1, [j], 0), [Run(j, Working, false)], map[])
  {
    var s0 := State([j], true, 2, {}, Idle, [], map[]);
    var s3 := s0.(running := {j.id}, runs := [Run(j, Working, false)], pump := Checking(2, 0, 1, [j], 1));
    ListsOne(j, now, 2);
    ListsOne(j, now, 1);
    states, acts := [s0], [];
    states, acts := Extended(states, acts, Gate, s0.(pump := Gated));
    states, acts := Extended(states, acts, CountRunning, s0.(pump := Counted(2, 0)));
    states, acts := Extended(states, acts, List(now, [j]), s0.(pump := Checking(2, 0, 0, [j], 0)));
    states, acts := Extended(states, acts, Check, s3);
    states, acts := Extended(states, acts, Check, s3.(pump := Idle));
    states, acts := Extended(states, acts, Gate, s3.(pump := Gated));
    states, acts := Extended(states, acts, CountRunning, s3.(pump := Counted(2, 1)));
    states, acts := Extended(states, acts, List(now, [j]), s3.(pump := Checking(2, 1, 1, [j], 0)));
  }

  /** The stale relaunch. The query runs before the first run has saved anything, its answer is looked at after
      that run is over, and a job whose row says done is run again from its old row. What
      that does to the number of runs and to delays is in `Retries`. */
  lemma StaleRelaunch(j: Job, now: string) returns (states: seq<State>, acts: seq<Action>)
    requires Due(j, now)
    ensures History(states, acts)
    ensures var last := states[|states| - 1];
            && last.rows == [j.(state := Done)] && last.running == {j.id}
            && |last.runs| == 2 && last.runs[1] == Run(j, Working, false)
  {
    var over := Run(j.(state := Done), Working, false);
    states, acts := ListedTwice(j, now);
    var s6 := states[|states| - 1];
    var s7 := s6.(rows := [over.job], runs := [over]);
    var s8 := s7.(runs := [over.(stage := Cleaning)]);
    var s9 := s7.(runs := [over.(stage := Releasing)]);
    var s10 := s7.(runs := [over.(stage := Gone)], running := {});
    var s11 := s10.(runs := s10.runs + [Run(j, Working, false)], running := {j.id},
                    pump := Checking(2, 1, 2, [j], 1));
    assert Updated([j], over.job) == [over.job];
    states, acts := Extended(states, acts, Save(0, over.job), s7);
    states, acts := Extended(states, acts, Finish(0), s8);
    assert s8.dirs - {j.id} == s8.dirs;
    states, acts := Extended(states, acts, RemoveDir(0, true), s9);
    states, acts := Extended(states, acts, Release(0), s10);
    states, acts := Extended(states, acts, Check, s11);
  }
}
