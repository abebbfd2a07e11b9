/** How often a job is run and when it is run again (internal/queue/queue.go, lines 77-135 and 275-304), for jobs
    inserted with any state and any count of attempts (internal/app/app.go, lines 137-158). A query and the launches
    from its answer are steps of their own, so a job may be launched from a row that has been written since; the
    order in which an answer is gone through is left open. No job is inserted twice, and database writes succeed.
    The histories `first`, `runs`, `stale` and `failedAt` are read by no step. */
module Retries {
  import opened Basics
  import opened Times
  import opened Store
  import opened Queue

  datatype State = State(
    rows: map<int, Job>, live: map<int, Job>, listed: map<int, Job>, listedAt: nat, now: nat,
    first: map<int, Job>, runs: map<int, nat>, stale: map<int, nat>, failedAt: map<int, nat>)

  datatype Action =
    | Pass(nanos: nat)
    | Insert(job: Job)
    | List(jobs: map<int, Job>)
    | Launch(id: int)
    | Skip(id: int)
    | Save(job: Job)
    | Fail(id: int, kind: string)
    | End(id: int)

  /** How a time is written into a row. */
  type Stamp = nat -> string

  /** The row a failure leaves, with its retry time written like that. */
  function FailureRow(p: Power, stamp: Stamp, j: Job, kind: string, now: nat): Job {
    FailureAs(p, j, kind, stamp(now + Delay(j.attempts + 1)), now)
  }

  /** With the stored form of times it is the failure of the queue. */
  lemma FailureRowIsFailure(p: Power, j: Job, kind: string, now: nat)
    ensures FailureRow(p, FormatTime, j, kind, now) == Failure(p, j, kind, now)
  {
  }

  function Count(counts: map<int, nat>, id: int): nat {
    if id in counts then counts[id] else 0
  }

  function Counted(counts: map<int, nat>, id: int): map<int, nat> {
    counts[id := Count(counts, id) + 1]
  }

  /** What a run may save on its way: any progress, but neither attempts nor retry time. */
  predicate Progress(was: Job, now: Job) {
    now.id == was.id && now.attempts == was.attempts && now.nextRetryAt == was.nextRetryAt
    && (now.state == Downloading || now.state == Remuxing || now.state == Done)
  }

  /** The times for which RFC 3339 has four digits of year, with room for the longest delay. */
  predicate ClockInRange(now: nat) {
    ZERO_TIME < now && InRange(now + LAST_DELAY)
  }

  predicate DueRow(s: State, stamp: Stamp, id: int, j: Job) {
    id in s.rows && s.rows[id] == j && Due(j, stamp(s.now))
  }

  /** The job of this id stands in the last answer as its row is now. */
  predicate Current(s: State, id: int) {
    id in s.listed && id in s.rows && s.listed[id] == s.rows[id]
  }

  ghost predicate Next(p: Power, stamp: Stamp, s: State, a: Action, s': State) {
    match a
    case Pass(nanos) => ClockInRange(s.now + nanos) && s' == s.(now := s.now + nanos)
    case Insert(job) =>
      job.id !in s.rows && s' == s.(rows := s.rows[job.id := job], first := s.first[job.id := job])
    case List(jobs) =>
      (forall id | id in jobs :: DueRow(s, stamp, id, jobs[id])) && s' == s.(listed := jobs, listedAt := s.now)
    case Launch(id) =>
      && id in s.listed && id !in s.live
      && s' == s.(live := s.live[id := s.listed[id]], listed := s.listed - {id}, runs := Counted(s.runs, id),
                  stale := if Current(s, id) then s.stale else Counted(s.stale, id))
    case Skip(id) =>
      id in s.listed && id in s.live && s' == s.(listed := s.listed - {id})
    case Save(job) =>
      && job.id in s.live && Progress(s.live[job.id], job) && job.id in s.rows
      && s' == s.(rows := s.rows[job.id := job], live := s.live[job.id := job])
    case Fail(id, kind) =>
      && id in s.live && id in s.rows && s.live[id].state != Done
      && s' == s.(rows := s.rows[id := FailureRow(p, stamp, s.live[id], kind, s.now)], live := s.live - {id},
                  failedAt := s.failedAt[id := s.now])
    case End(id) =>
      id in s.live && s.live[id].state == Done && s' == s.(live := s.live - {id})
  }

  /** How often a job can fail and be queued again that was inserted with so many attempts already counted. */
  function Most(p: Power, first: int): nat {
    if p.maxAttempts > 0 && first < p.maxAttempts then p.maxAttempts - first else 0
  }

  // ---------------------------------------------------------------- what belongs to one job

  /** All that concerns one job: its row, its run, its place in the last answer, and its history. */
  datatype View = View(
    row: Job, live: Option<Job>, listed: Option<Job>, first: int, runs: nat, stale: nat, failed: Option<nat>)

  function ViewOf(s: State, id: int): View
    requires id in s.rows && id in s.first
  {
    View(s.rows[id], Lookup(s.live, id), Lookup(s.listed, id), s.first[id].attempts, Count(s.runs, id),
         Count(s.stale, id), Lookup(s.failedAt, id))
  }

  predicate InLevels(most: nat, first: int, attempts: int) {
    first <= attempts <= first + most
  }

  /** A run at this count of attempts is at most the second one, and only stale launches lead to second ones. */
  predicate LiveFits(most: nat, v: View, mine: Job) {
    var n := mine.attempts - v.first;
    && mine.id == v.row.id && InLevels(most, v.first, mine.attempts)
    && n + 1 <= v.runs <= n + 1 + v.stale && v.runs <= 2 * n + 2
    && (mine.state == Done ==> v.row.state == Done)
  }

  /** A queued row is one more step up than the runs that have failed, or level with the one that is live. */
  predicate QueuedFits(most: nat, v: View) {
    var n := v.row.attempts - v.first;
    && InLevels(most, v.first, v.row.attempts)
    && match v.live
       case None => n <= v.runs <= n + v.stale && v.runs <= 2 * n
       case Some(mine) =>
         && n <= v.runs <= n + 1 + v.stale && mine.attempts <= v.row.attempts <= mine.attempts + 1
         && (mine.attempts == v.row.attempts ==> v.runs <= 2 * n + 1)
  }

  /** What was listed is at most one step behind its row. */
  predicate ListedFits(most: nat, v: View, j: Job) {
    var n := j.attempts - v.first;
    && j.id == v.row.id && j.state == Queued && InLevels(most, v.first, j.attempts)
    && n <= v.runs <= n + 1 + v.stale && v.runs <= 2 * n + 1
    && (v.live.Some? ==> v.live.value.attempts <= j.attempts <= v.live.value.attempts + 1)
    && (v.row.state == Queued ==> j.attempts <= v.row.attempts <= j.attempts + 1)
  }

  /** A job that waits after some runs waits for its delay after the last failure. */
  ghost predicate WaitFits(stamp: Stamp, now: nat, v: View) {
    v.row.state == Queued && v.live.None? && v.runs > 0 ==>
      && v.failed.Some? && ZERO_TIME < v.failed.value <= now
      && v.row.nextRetryAt == stamp(v.failed.value + Delay(v.row.attempts))
  }

  predicate RunsFit(most: nat, v: View) {
    && v.runs <= most + 1 + v.stale && v.runs <= 2 * (most + 1)
    && (v.row.state == Failed && v.runs > 0 ==> v.runs >= most + 1)
    && (v.runs == 0 ==>
          v.row.attempts == v.first && v.live.None? && (v.listed.Some? ==> v.listed.value == v.row))
  }

  predicate CountsFit(most: nat, v: View) {
    && RunsFit(most, v)
    && (v.live.Some? ==> LiveFits(most, v, v.live.value))
    && (v.row.state == Queued ==> QueuedFits(most, v))
    && (v.listed.Some? ==> ListedFits(most, v, v.listed.value))
  }

  ghost predicate IdFits(p: Power, stamp: Stamp, s: State, id: int) {
    if id in s.rows then
      && id in s.first && s.rows[id].id == id
      && CountsFit(Most(p, s.first[id].attempts), ViewOf(s, id)) && WaitFits(stamp, s.now, ViewOf(s, id))
    else
      && id !in s.live && id !in s.listed && id !in s.first && id !in s.runs && id !in s.stale && id !in s.failedAt
  }

  /** The answer of the last query holds jobs that were due when it was made. */
  ghost predicate ListFits(stamp: Stamp, s: State) {
    && s.listedAt <= s.now && (s.listed != map[] ==> ClockInRange(s.listedAt))
    && forall id | id in s.listed :: Due(s.listed[id], stamp(s.listedAt))
  }

  ghost predicate Inv(p: Power, stamp: Stamp, s: State) {
    ClockInRange(s.now) && ListFits(stamp, s) && forall id :: IdFits(p, stamp, s, id)
  }

  lemma DelayBounds(attempt: int)
    ensures Delay(attempt) <= LAST_DELAY
  {
  }

  // ---------------------------------------------------------------- one step

  lemma InsertFits(most: nat, row: Job)
    ensures CountsFit(most, View(row, None, None, row.attempts, 0, 0, None))
  {
  }

  lemma ListedNow(most: nat, v: View)
    requires CountsFit(most, v) && v.row.state == Queued
    ensures CountsFit(most, v.(listed := Some(v.row)))
  {
  }

  lemma Unlisted(most: nat, v: View)
    requires CountsFit(most, v)
    ensures CountsFit(most, v.(listed := None))
  {
  }

  lemma LaunchFits(most: nat, v: View, stale: nat)
    requires CountsFit(most, v) && v.live.None? && v.listed.Some?
    requires stale == if v.listed.value == v.row then v.stale else v.stale + 1
    ensures CountsFit(most, v.(live := v.listed, listed := None, runs := v.runs + 1, stale := stale))
  {
  }

  lemma SaveFits(most: nat, v: View, job: Job)
    requires CountsFit(most, v) && v.live.Some? && Progress(v.live.value, job)
    ensures CountsFit(most, v.(row := job, live := Some(job)))
  {
  }

  lemma EndFits(most: nat, v: View)
    requires CountsFit(most, v) && v.live.Some? && v.live.value.state == Done
    ensures CountsFit(most, v.(live := None))
  {
  }

  /** What a failure leaves, whatever the texts of its times. */
  lemma FailureLeaves(p: Power, mine: Job, kind: string, later: string, at: nat, first: int)
    requires InLevels(Most(p, first), first, mine.attempts)
    ensures var f := FailureAs(p, mine, kind, later, at);
            f.id == mine.id
            && if f.state == Queued
               then f.attempts == mine.attempts + 1 <= first + Most(p, first) && f.nextRetryAt == later
               else f.state == Failed && mine.attempts == first + Most(p, first)
  {
  }

  lemma FailedFits(most: nat, v: View, f: Job, now: nat)
    requires CountsFit(most, v) && v.live.Some? && f.id == v.row.id
    requires if f.state == Queued then f.attempts == v.live.value.attempts + 1 <= v.first + most
             else f.state == Failed && v.live.value.attempts == v.first + most
    ensures CountsFit(most, v.(row := f, live := None, failed := Some(now)))
  {
  }

  lemma RowFits(p: Power, stamp: Stamp, s: State, id: int, f: Job, s': State)
    requires IdFits(p, stamp, s, id) && id in s.rows && id in s.live && ZERO_TIME < s.now
    requires f.id == id && id in s.first
    requires var mine, first, most := s.live[id], s.first[id].attempts, Most(p, s.first[id].attempts);
             if f.state == Queued
             then f.attempts == mine.attempts + 1 <= first + most && f.nextRetryAt == stamp(s.now + Delay(f.attempts))
             else f.state == Failed && mine.attempts == first + most
    requires s' == s.(rows := s.rows[id := f], live := s.live - {id}, failedAt := s.failedAt[id := s.now])
    ensures IdFits(p, stamp, s', id)
  {
    var v := ViewOf(s, id);
    FailedFits(Most(p, v.first), v, f, s.now);
    assert ViewOf(s', id) == v.(row := f, live := None, failed := Some(s.now));
  }

  lemma FailFits(p: Power, stamp: Stamp, s: State, id: int, kind: string, s': State)
    requires Inv(p, stamp, s) && Next(p, stamp, s, Fail(id, kind), s')
    ensures IdFits(p, stamp, s', id)
  {
    assert IdFits(p, stamp, s, id);
    var mine := s.live[id];
    assert LiveFits(Most(p, s.first[id].attempts), ViewOf(s, id), mine);
    FailureLeaves(p, mine, kind, stamp(s.now + Delay(mine.attempts + 1)), s.now, s.first[id].attempts);
    RowFits(p, stamp, s, id, FailureRow(p, stamp, mine, kind, s.now), s');
  }

  lemma LaunchStepFits(p: Power, stamp: Stamp, s: State, s': State, id: int)
    requires Inv(p, stamp, s) && Next(p, stamp, s, Launch(id), s')
    ensures IdFits(p, stamp, s', id)
  {
    assert IdFits(p, stamp, s, id);
    var v := ViewOf(s, id);
    LaunchFits(Most(p, v.first), v, Count(s'.stale, id));
    assert ViewOf(s', id)
        == v.(live := v.listed, listed := None, runs := v.runs + 1, stale := Count(s'.stale, id));
  }

  lemma OwnFits(p: Power, stamp: Stamp, s: State, a: Action, s': State, id: int)
    requires Inv(p, stamp, s) && Next(p, stamp, s, a, s')
    requires match a
             case Skip(k) => k == id
             case Save(job) => job.id == id
             case End(k) => k == id
             case _ => false
    ensures IdFits(p, stamp, s', id)
  {
    assert IdFits(p, stamp, s, id);
    var v := ViewOf(s, id);
    var most := Most(p, v.first);
    match a
    case Skip(_) => Unlisted(most, v);
    case Save(job) => SaveFits(most, v, job);
    case End(_) => EndFits(most, v);
  }

  lemma ListStepFits(p: Power, stamp: Stamp, s: State, jobs: map<int, Job>, s': State, id: int)
    requires Inv(p, stamp, s) && Next(p, stamp, s, List(jobs), s')
    ensures IdFits(p, stamp, s', id)
  {
    assert IdFits(p, stamp, s, id);
    if id in jobs {
      assert DueRow(s, stamp, id, jobs[id]);
      ListedNow(Most(p, s.first[id].attempts), ViewOf(s, id));
    } else if id in s.rows {
      Unlisted(Most(p, s.first[id].attempts), ViewOf(s, id));
    }
  }

  /** The job an action is about. */
  function Subject(a: Action): Option<int> {
    match a
    case Insert(job) => Some(job.id)
    case Launch(id) => Some(id)
    case Skip(id) => Some(id)
    case Save(job) => Some(job.id)
    case Fail(id, _) => Some(id)
    case End(id) => Some(id)
    case _ => None
  }

  /** Nothing changes for the other jobs. */
  lemma SameView(p: Power, stamp: Stamp, s: State, a: Action, s': State, id: int)
    requires Next(p, stamp, s, a, s') && !a.List? && Subject(a) != Some(id)
    requires id in s.rows ==> id in s.first
    ensures id in s'.rows <==> id in s.rows
    ensures id in s'.first <==> id in s.first
    ensures id in s.rows ==> ViewOf(s', id) == ViewOf(s, id)
  {
  }

  lemma NothingNew(p: Power, stamp: Stamp, s: State, a: Action, s': State, id: int)
    requires Inv(p, stamp, s) && Next(p, stamp, s, a, s') && !a.List? && Subject(a) != Some(id) && id !in s.rows
    ensures IdFits(p, stamp, s', id)
  {
    assert IdFits(p, stamp, s, id);
  }

  lemma OtherFits(p: Power, stamp: Stamp, s: State, a: Action, s': State, id: int)
    requires Inv(p, stamp, s) && Next(p, stamp, s, a, s') && !a.List? && Subject(a) != Some(id)
    ensures IdFits(p, stamp, s', id)
  {
    assert IdFits(p, stamp, s, id);
    if id in s.rows {
      SameView(p, stamp, s, a, s', id);
    } else {
      NothingNew(p, stamp, s, a, s', id);
    }
  }

  lemma StepFits(p: Power, stamp: Stamp, s: State, a: Action, s': State, id: int)
    requires Inv(p, stamp, s) && Next(p, stamp, s, a, s')
    ensures IdFits(p, stamp, s', id)
  {
    if a.List? {
      ListStepFits(p, stamp, s, a.jobs, s', id);
    } else if Subject(a) != Some(id) {
      OtherFits(p, stamp, s, a, s', id);
    } else if a.Fail? {
      FailFits(p, stamp, s, id, a.kind, s');
    } else if a.Insert? {
      assert IdFits(p, stamp, s, id);
      InsertFits(Most(p, a.job.attempts), a.job);
    } else if a.Launch? {
      LaunchStepFits(p, stamp, s, s', id);
    } else {
      OwnFits(p, stamp, s, a, s', id);
    }
  }

  lemma ListStepInv(p: Power, stamp: Stamp, s: State, a: Action, s': State)
    requires Inv(p, stamp, s) && Next(p, stamp, s, a, s')
    ensures ListFits(stamp, s')
  {
    if a.List? {
      forall id | id in a.jobs ensures Due(s'.listed[id], stamp(s'.listedAt)) {
        assert DueRow(s, stamp, id, a.jobs[id]);
      }
    }
  }

  /** Every step keeps what belongs together, whatever has become of a listed job before it is launched. */
  lemma StepInv(p: Power, stamp: Stamp, s: State, a: Action, s': State)
    requires Inv(p, stamp, s) && Next(p, stamp, s, a, s')
    ensures Inv(p, stamp, s')
  {
    ListStepInv(p, stamp, s, a, s');
    forall id ensures IdFits(p, stamp, s', id) {
      StepFits(p, stamp, s, a, s', id);
    }
  }

  // ---------------------------------------------------------------- histories

  ghost predicate Initial(s: State) {
    && s.rows == map[] && s.live == map[] && s.listed == map[] && s.first == map[] && s.runs == map[]
    && s.stale == map[] && s.failedAt == map[] && s.listedAt <= s.now && ClockInRange(s.now)
  }

  /** A history of the scheduler: states joined by steps. */
  ghost predicate History(p: Power, stamp: Stamp, states: seq<State>, acts: seq<Action>) {
    && |states| == |acts| + 1 && Initial(states[0])
    && (forall k | 0 <= k < |acts| :: Next(p, stamp, states[k], acts[k], states[k + 1]))
  }

  lemma {:induction false} HistoryInv(p: Power, stamp: Stamp, states: seq<State>, acts: seq<Action>, k: nat)
    requires History(p, stamp, states, acts) && k < |states|
    ensures Inv(p, stamp, states[k])
  {
    if k > 0 {
      HistoryInv(p, stamp, states, acts, k - 1);
      StepInv(p, stamp, states[k - 1], acts[k - 1], states[k]);
    }
  }

  /** A job is run at most once more than it can fail, and once more for every stale launch, but never more than
      twice as often. One that is given up has had all the runs it can have without stale launches. */
  lemma RunsAreBounded(p: Power, stamp: Stamp, states: seq<State>, acts: seq<Action>, k: nat, id: int)
    requires History(p, stamp, states, acts) && k < |states| && id in states[k].rows
    ensures id in states[k].first
    ensures var most, runs := Most(p, states[k].first[id].attempts), Count(states[k].runs, id);
            && runs <= most + 1 + Count(states[k].stale, id) && runs <= 2 * (most + 1)
            && (states[k].rows[id].state == Failed && runs > 0 ==> most + 1 <= runs)
  {
    HistoryInv(p, stamp, states, acts, k);
    assert IdFits(p, stamp, states[k], id);
  }

  /** The runs that the setting allows, one more than `MaxAttempts`. */
  function Allowed(p: Power): nat {
    if p.maxAttempts > 0 then p.maxAttempts + 1 else 1
  }

  /** A job without a stale launch keeps to that if it was inserted without a negative count of attempts; when it has
      been given up after runs, it has kept to it only then. */
  lemma WithinAllowedIff(p: Power, stamp: Stamp, states: seq<State>, acts: seq<Action>, k: nat, id: int)
    requires History(p, stamp, states, acts) && k < |states| && id in states[k].rows
    requires Count(states[k].stale, id) == 0
    ensures id in states[k].first
    ensures var runs, fair := Count(states[k].runs, id), states[k].first[id].attempts >= 0 || p.maxAttempts <= 0;
            && (fair ==> runs <= Allowed(p))
            && (states[k].rows[id].state == Failed && runs > 0 ==> (runs <= Allowed(p) <==> fair))
  {
    RunsAreBounded(p, stamp, states, acts, k, id);
  }

  /** A retry that is launched from its current row is never launched from a query made more than one second before
      its delay was over, and its attempts are the runs so far but for the stale ones. */
  lemma RetriesWait(p: Power, states: seq<State>, acts: seq<Action>, k: nat, id: int)
    requires History(p, FormatTime, states, acts) && k < |acts| && acts[k] == Launch(id) && Current(states[k], id)
    requires Count(states[k].runs, id) > 0
    ensures var s := states[k];
            && id in s.listed && id in s.failedAt && id in s.first
            && var j, runs := s.listed[id], Count(s.runs, id);
            && s.failedAt[id] + Delay(j.attempts) < s.listedAt + SECOND <= s.now + SECOND
            && runs - Count(s.stale, id) <= j.attempts - s.first[id].attempts <= runs
  {
    var s := states[k];
    HistoryInv(p, FormatTime, states, acts, k);
    assert Next(p, FormatTime, s, acts[k], states[k + 1]);
    assert IdFits(p, FormatTime, s, id);
    DueRetry(ViewOf(s, id), s.now, s.listedAt);
  }

  lemma DueRetry(v: View, now: nat, at: nat)
    requires WaitFits(FormatTime, now, v) && v.row.state == Queued && v.live.None? && v.runs > 0
    requires Due(v.row, FormatTime(at)) && ClockInRange(at) && ClockInRange(now)
    ensures v.failed.Some? && v.failed.value + Delay(v.row.attempts) < at + SECOND
  {
    var retry := v.failed.value + Delay(v.row.attempts);
    DelayBounds(v.row.attempts);
    TextNotEmpty(retry);
    DueWithinASecond(retry, at);
  }

  lemma TextNotEmpty(t: nat)
    requires t != ZERO_TIME
    ensures FormatTime(t) != ""
  {
    var c := CivilOf(t);
    TextIs(c);
    assert |Text(c)| >= |Pad(c.year, 4)| == 4;
  }

  // ---------------------------------------------------------------- histories that reach the bounds

  /** Some history ends in this state. */
  ghost predicate Reachable(p: Power, stamp: Stamp, s: State) {
    exists states, acts :: History(p, stamp, states, acts) && states[|states| - 1] == s
  }

  lemma Reaches(p: Power, stamp: Stamp, s: State, a: Action, s': State)
    requires Reachable(p, stamp, s) && Next(p, stamp, s, a, s')
    ensures Reachable(p, stamp, s')
  {
    var states, acts :| History(p, stamp, states, acts) && states[|states| - 1] == s;
    assert History(p, stamp, states + [s'], acts + [a]);
  }

  function Single(o: Option<Job>): map<int, Job> {
    match o
    case None => map[]
    case Some(j) => map[j.id := j]
  }

  /** There is one job, with this row, run and place in the last answer. */
  ghost predicate Alone(p: Power, stamp: Stamp, s: State, row: Job, live: Option<Job>, listed: Option<Job>) {
    && Reachable(p, stamp, s)
    && s.rows == map[row.id := row] && s.live == Single(live) && s.listed == Single(listed)
    && (live.Some? ==> live.value.id == row.id) && (listed.Some? ==> listed.value.id == row.id)
  }

  lemma Inserts(p: Power, stamp: Stamp, j: Job, now: nat) returns (t: State)
    requires ClockInRange(now)
    ensures Alone(p, stamp, t, j, None, None) && t.now == now
    ensures t.first == map[j.id := j] && t.runs == map[] && t.stale == map[]
  {
    var s := State(map[], map[], map[], now, now, map[], map[], map[], map[]);
    assert History(p, stamp, [s], []);
    t := s.(rows := map[j.id := j], first := map[j.id := j]);
    assert s.rows[j.id := j] == t.rows && s.first[j.id := j] == t.first;
    Reaches(p, stamp, s, Insert(j), t);
  }

  lemma Passes(p: Power, stamp: Stamp, s: State, row: Job, live: Option<Job>, listed: Option<Job>, at: nat)
      returns (t: State)
    requires Alone(p, stamp, s, row, live, listed) && s.now <= at && ClockInRange(at)
    ensures Alone(p, stamp, t, row, live, listed) && t == s.(now := at)
  {
    t := s.(now := at);
    Reaches(p, stamp, s, Pass(at - s.now), t);
  }

  lemma ListStep(p: Power, stamp: Stamp, s: State, row: Job)
    requires s.rows == map[row.id := row] && Due(row, stamp(s.now))
    ensures Next(p, stamp, s, List(map[row.id := row]), s.(listedAt := s.now, listed := map[row.id := row]))
  {
    assert DueRow(s, stamp, row.id, row);
  }

  /** The clock goes on, and the row is listed. */
  lemma Lists(p: Power, stamp: Stamp, s: State, row: Job, live: Option<Job>, listed: Option<Job>, at: nat)
      returns (t: State)
    requires Alone(p, stamp, s, row, live, listed) && s.now <= at && ClockInRange(at) && Due(row, stamp(at))
    ensures Alone(p, stamp, t, row, live, Some(row)) && t == s.(now := at, listedAt := at, listed := t.listed)
  {
    var u := Passes(p, stamp, s, row, live, listed, at);
    ListStep(p, stamp, u, row);
    t := u.(listedAt := at, listed := map[row.id := row]);
    Reaches(p, stamp, u, List(map[row.id := row]), t);
  }

  lemma Launches(p: Power, stamp: Stamp, s: State, row: Job, j: Job) returns (t: State)
    requires Alone(p, stamp, s, row, None, Some(j))
    ensures Next(p, stamp, s, Launch(j.id), t) && Alone(p, stamp, t, row, Some(j), None)
    ensures t.now == s.now && t.first == s.first && t.runs == Counted(s.runs, j.id)
    ensures j == row ==> t.stale == s.stale
  {
    t := s.(live := map[j.id := j], listed := map[], runs := Counted(s.runs, j.id),
            stale := if j == row then s.stale else Counted(s.stale, j.id));
    assert s.live[j.id := j] == t.live && s.listed - {j.id} == t.listed;
    Reaches(p, stamp, s, Launch(j.id), t);
  }

  /** Saving that it has begun is all that a run does before it fails. */
  lemma Begins(p: Power, stamp: Stamp, s: State, row: Job, j: Job, listed: Option<Job>) returns (t: State, d: Job)
    requires Alone(p, stamp, s, row, Some(j), listed)
    ensures d == j.(state := Downloading) && Alone(p, stamp, t, d, Some(d), listed)
    ensures t == s.(rows := t.rows, live := t.live)
  {
    d := j.(state := Downloading);
    t := s.(rows := map[d.id := d], live := map[d.id := d]);
    assert s.rows[d.id := d] == t.rows && s.live[d.id := d] == t.live;
    Reaches(p, stamp, s, Save(d), t);
  }

  /** What is left of a failing run in its row. */
  ghost predicate Leaves(p: Power, stamp: Stamp, j: Job, at: nat, f: Job) {
    f.id == j.id
    && if Most(p, j.attempts) > 0
       then f.state == Queued && f.attempts == j.attempts + 1 && f.nextRetryAt == stamp(at + Delay(f.attempts))
       else f.state == Failed
  }

  lemma Ends(p: Power, stamp: Stamp, s: State, d: Job, listed: Option<Job>) returns (t: State, f: Job)
    requires Alone(p, stamp, s, d, Some(d), listed) && d.state != Done
    ensures Leaves(p, stamp, d, s.now, f) && Alone(p, stamp, t, f, None, listed)
    ensures t == s.(rows := t.rows, live := t.live, failedAt := s.failedAt[d.id := s.now])
  {
    f := FailureRow(p, stamp, d, "truncated", s.now);
    FailureLeaves(p, d, "truncated", stamp(s.now + Delay(d.attempts + 1)), s.now, d.attempts);
    t := s.(rows := map[d.id := f], live := map[], failedAt := s.failedAt[d.id := s.now]);
    assert s.rows[d.id := f] == t.rows && s.live - {d.id} == t.live;
    Reaches(p, stamp, s, Fail(d.id, "truncated"), t);
  }

  lemma Fails(p: Power, stamp: Stamp, s: State, row: Job, j: Job, listed: Option<Job>) returns (t: State, f: Job)
    requires Alone(p, stamp, s, row, Some(j), listed)
    ensures Leaves(p, stamp, j, s.now, f) && Alone(p, stamp, t, f, None, listed)
    ensures t == s.(rows := t.rows, live := t.live, failedAt := s.failedAt[j.id := s.now])
  {
    var u, d := Begins(p, stamp, s, row, j, listed);
    t, f := Ends(p, stamp, u, d, listed);
  }

  lemma {:induction false} NotBeforeItself(text: string)
    ensures TextAtMost(text, text)
  {
    if text != "" {
      NotBeforeItself(text[1..]);
    }
  }

  lemma DueAgain(stamp: Stamp, f: Job, at: nat)
    requires f.state == Queued && f.nextRetryAt == stamp(at)
    ensures Due(f, stamp(at))
  {
    NotBeforeItself(stamp(at));
  }

  /** Failing until it is given up, every run as soon as it is due. */
  lemma {:induction false} FailsOn(p: Power, stamp: Stamp, s: State, j: Job, at: nat) returns (t: State)
    requires Alone(p, stamp, s, j, None, None) && s.now <= at && Due(j, stamp(at))
    requires ZERO_TIME < at && InRange(at + (Most(p, j.attempts) + 1) * LAST_DELAY)
    ensures Reachable(p, stamp, t) && t.first == s.first && t.stale == s.stale
    ensures j.id in t.rows && t.rows[j.id].state == Failed
    ensures Count(t.runs, j.id) == Count(s.runs, j.id) + Most(p, j.attempts) + 1
    decreases Most(p, j.attempts)
  {
    var f;
    t := Lists(p, stamp, s, j, None, None, at);
    t := Launches(p, stamp, t, j, j);
    t, f := Fails(p, stamp, t, j, j, None);
    if Most(p, j.attempts) > 0 {
      DelayBounds(f.attempts);
      DueAgain(stamp, f, at + Delay(f.attempts));
      t := FailsOn(p, stamp, t, f, at + Delay(f.attempts));
    }
  }

  /** Without stale launches the bound is reached, for every setting and every job queued without a retry time, as
      far as the clock goes. With a negative count of attempts that is more often than the setting allows. */
  lemma BoundIsReached(p: Power, stamp: Stamp, j: Job, now: nat) returns (t: State)
    requires j.state == Queued && j.nextRetryAt == ""
    requires ZERO_TIME < now && InRange(now + (Most(p, j.attempts) + 1) * LAST_DELAY)
    ensures Reachable(p, stamp, t) && t.first == map[j.id := j] && t.stale == map[]
    ensures j.id in t.rows && t.rows[j.id].state == Failed
    ensures Count(t.runs, j.id) == Most(p, j.attempts) + 1
  {
    t := Inserts(p, stamp, j, now);
    t := FailsOn(p, stamp, t, j, now);
  }

  /** With one attempt allowed beyond the first, a job added with minus one attempts is run three times. */
  lemma NegativeAttemptsRunMore(p: Power, stamp: Stamp, j: Job, now: nat) returns (t: State)
    requires j.state == Queued && j.nextRetryAt == "" && j.attempts == -1 && p.maxAttempts == 1
    requires ZERO_TIME < now && InRange(now + 3 * LAST_DELAY)
    ensures Reachable(p, stamp, t) && t.stale == map[]
    ensures Count(t.runs, j.id) == 3 > Allowed(p)
  {
    t := BoundIsReached(p, stamp, j, now);
  }

  /** The runs that are still to come when every one is listed again before it has begun. */
  function ToCome(p: Power, listed: Job, row: Job): nat {
    Most(p, listed.attempts) + 1 + (if row.state == Queued then Most(p, row.attempts) + 1 else 0)
  }

  /** A run is launched from the last answer, its row is listed before it begins, and it fails. */
  lemma Overlaps(p: Power, stamp: Stamp, s: State, j: Job, row: Job, at: nat) returns (t: State, f: Job)
    requires Alone(p, stamp, s, row, None, Some(j)) && s.now <= at && ClockInRange(at) && Due(row, stamp(at))
    ensures Alone(p, stamp, t, f, None, Some(row)) && Leaves(p, stamp, j, at, f)
    ensures t.now == at && t.first == s.first && t.runs == Counted(s.runs, j.id)
    ensures t.failedAt == s.failedAt[j.id := at]
  {
    t := Launches(p, stamp, s, row, j);
    t := Lists(p, stamp, t, row, Some(j), None, at);
    t, f := Fails(p, stamp, t, row, j, Some(row));
  }

  lemma {:induction false} OverlapsOn(p: Power, stamp: Stamp, s: State, j: Job, row: Job, at: nat) returns (t: State)
    requires Alone(p, stamp, s, row, None, Some(j)) && s.now <= at
    requires if row.state == Failed then Most(p, j.attempts) == 0
             else Due(row, stamp(at)) && j.attempts <= row.attempts <= j.attempts + 1
    requires ZERO_TIME < at && InRange(at + ToCome(p, j, row) * LAST_DELAY)
    ensures Reachable(p, stamp, t) && t.first == s.first && j.id in t.rows
    ensures Count(t.runs, j.id) == Count(s.runs, j.id) + ToCome(p, j, row)
    decreases ToCome(p, j, row)
  {
    var f;
    if row.state == Failed {
      t := Launches(p, stamp, s, row, j);
      t, f := Fails(p, stamp, t, row, j, None);
    } else {
      t, f := Overlaps(p, stamp, s, j, row, at);
      var next := at + Delay(f.attempts);
      DelayBounds(f.attempts);
      if f.state == Queued {
        DueAgain(stamp, f, next);
      }
      t := OverlapsOn(p, stamp, t, row, f, next);
    }
  }

  /** With stale launches the other bound is reached too: a job is run twice as often as without them. */
  lemma DoubleIsReached(p: Power, stamp: Stamp, j: Job, now: nat) returns (t: State)
    requires j.state == Queued && j.nextRetryAt == ""
    requires ZERO_TIME < now && InRange(now + 2 * (Most(p, j.attempts) + 1) * LAST_DELAY)
    ensures Reachable(p, stamp, t) && t.first == map[j.id := j] && j.id in t.rows
    ensures Count(t.runs, j.id) == 2 * (Most(p, j.attempts) + 1)
  {
    t := Inserts(p, stamp, j, now);
    t := Lists(p, stamp, t, j, None, None, now);
    t := OverlapsOn(p, stamp, t, j, j, now);
  }

  /** And a retry need not wait: a job queued for later is launched at the moment of its failure. */
  lemma StaleRetryNeedNotWait(p: Power, stamp: Stamp, j: Job, now: nat) returns (s: State, s': State)
    requires j.state == Queued && j.nextRetryAt == "" && Most(p, j.attempts) > 0 && ClockInRange(now)
    ensures Reachable(p, stamp, s) && Next(p, stamp, s, Launch(j.id), s')
    ensures j.id in s.rows && s.rows[j.id].state == Queued && j.id in s.failedAt && s.failedAt[j.id] == s.now == now
    ensures s.rows[j.id].nextRetryAt == stamp(now + Delay(j.attempts + 1))
  {
    s := Inserts(p, stamp, j, now);
    s := Lists(p, stamp, s, j, None, None, now);
    var f;
    s, f := Overlaps(p, stamp, s, j, j, now);
    s' := Launches(p, stamp, s, f, j);
  }
}
