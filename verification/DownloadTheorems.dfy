/** The main results about the parallel download: what success means, which errors can be reported,
    that it always finishes, and when a resumed download can still succeed. */
module DownloadTheorems {
  import opened Basics
  import opened Ranges
  import opened Download
  import opened DownloadSafety

  // ---------------------------------------------------------------- correctness

  /** After any interleaving, with any number of failed, killed and restarted runs before it on the same
      destination, success means the destination is the resource, byte for byte, and the result describes it. */
  lemma SuccessIsTheResource(
    resource: seq<byte>, partSize: int, workers: nat, digest: seq<byte> -> string,
    dest: Option<seq<byte>>, acts: seq<Action>, t: State, outcome: Outcome)
    requires Sizes(|resource|, PartSize(partSize))
    requires var c := Configured(resource, partSize, digest);
             Run(c, Initial(workers, map[], dest), acts) == Some(t)
    requires t.main == Returned(outcome) && outcome.Success?
    ensures t.out.dest == Some(resource)
    ensures outcome.bytes == |resource| && outcome.digest == digest(resource)
    ensures outcome.parts == PartCount(|resource|, PartSize(partSize))
    ensures |resource| + PartSize(partSize) - 1 <= MAX_INT64 || |resource| <= PartSize(partSize)
  {
    var c := Configured(resource, partSize, digest);
    PlanChained(|resource|, PartSize(partSize));
    TilesIff(|resource|, PartSize(partSize));
    InitialInv(c, workers, map[], dest);
    RunInv(c, Initial(workers, map[], dest), acts, t);
  }

  /** The error reported is never an echo of the download's own cancel, a cancellation is reported only if
      the caller cancelled, and the two sanity checks after the join never fire on a plan that fits int64. */
  lemma ErrorsAreNotEchoes(
    resource: seq<byte>, partSize: int, workers: nat, digest: seq<byte> -> string,
    dest: Option<seq<byte>>, acts: seq<Action>, t: State, outcome: Outcome)
    requires Sizes(|resource|, PartSize(partSize))
    requires var c := Configured(resource, partSize, digest);
             Run(c, Initial(workers, map[], dest), acts) == Some(t)
    requires t.main == Returned(outcome)
    ensures outcome != PartFailed(OwnCancel) && outcome != Incomplete
    ensures outcome == PartFailed(ParentDone) || outcome == ContextDone ==> t.m.parentDone
    ensures outcome == WrongLength ==> |resource| + PartSize(partSize) - 1 > MAX_INT64
  {
    var c := Configured(resource, partSize, digest);
    PlanChained(|resource|, PartSize(partSize));
    TilesIff(|resource|, PartSize(partSize));
    InitialInv(c, workers, map[], dest);
    RunInv(c, Initial(workers, map[], dest), acts, t);
  }

  /** A part file is written only by the one worker holding its index, and only while the call is running. */
  lemma OneWriter(c: Config, s: State, a: Action, s': State, i: nat)
    requires c.Valid() && Inv(c, s) && Next(c, s, a) == Some(s') && !a.Restart? && !a.RemoveParts?
    requires FileSize(s'.m.files, i) != FileSize(s.m.files, i)
    ensures s.main.Waiting? && a.Work? && a.w < |s.workers| && s.workers[a.w].Holds(i)
    ensures forall v | 0 <= v < |s.workers| && v != a.w :: !s.workers[v].Holds(i)
    ensures FileSize(s.m.files, i) < FileSize(s'.m.files, i)
  {
    if a.Work? {
      OnlyWhileWaiting(c, s, a);
      StepKeepsFiles(c, s.m, s.workers[a.w], a.act, s'.m, s'.workers[a.w]);
    }
  }

  /** Once the call has returned, on success or failure, nothing it started changes a file any more. */
  lemma QuietAfterReturn(c: Config, s: State, a: Action, s': State)
    requires c.Valid() && Inv(c, s) && s.main.Returned? && Next(c, s, a) == Some(s') && !a.Restart?
    ensures a == ParentCancel && s' == s.(m := s'.m) && s'.m.files == s.m.files
  {
    if a.Work? || a.Send? || a.SeeCancel? || a.CloseQueue? {
      OnlyWhileWaiting(c, s, a);
    }
  }

  // ---------------------------------------------------------------- which fault is reported

  /** The fault a worker is about to report with this action. */
  function FaultOf(s: State, a: Action): Option<Fault> {
    if a.Work? && a.act.Report? && a.w < |s.workers| && s.workers[a.w].Reporting?
    then Some(s.workers[a.w].fault) else None
  }

  /** The fault of the first report in a history. */
  function FirstFault(c: Config, s: State, acts: seq<Action>): Option<Fault>
    decreases |acts|
  {
    if acts == [] then None
    else match Next(c, s, acts[0])
         case None => None
         case Some(s1) => if FaultOf(s, acts[0]).Some? then FaultOf(s, acts[0]) else FirstFault(c, s1, acts[1..])
  }

  /** The error slot is filled by the first report and keeps it. */
  lemma SlotStep(c: Config, s: State, a: Action, s': State)
    requires Next(c, s, a) == Some(s') && !a.Restart?
    ensures s'.m.errSlot == if s.m.errSlot.Some? then s.m.errSlot else FaultOf(s, a)
  {
  }

  lemma {:induction false} SlotIsFirst(c: Config, s: State, acts: seq<Action>, t: State)
    requires Run(c, s, acts) == Some(t) && forall k | 0 <= k < |acts| :: !acts[k].Restart?
    ensures t.m.errSlot == if s.m.errSlot.Some? then s.m.errSlot else FirstFault(c, s, acts)
    decreases |acts|
  {
    if acts != [] {
      var s1 := Next(c, s, acts[0]).value;
      SlotStep(c, s, acts[0], s1);
      SlotIsFirst(c, s1, acts[1..], t);
    }
  }

  /** From the join on the outcome is in keeping with the error slot. */
  predicate OutcomeFits(s: State) {
    match s.main
    case Waiting => true
    case Returned(outcome) =>
      if s.m.errSlot.Some? then outcome == PartFailed(s.m.errSlot.value) else !outcome.PartFailed?
    case _ => s.m.errSlot.None?
  }

  lemma OutcomeStep(c: Config, s: State, a: Action, s': State)
    requires c.Valid() && Inv(c, s) && OutcomeFits(s) && Next(c, s, a) == Some(s') && !a.Restart?
    ensures OutcomeFits(s')
  {
    if a.Work? || a.Send? || a.SeeCancel? || a.CloseQueue? {
      OnlyWhileWaiting(c, s, a);
    }
  }

  lemma {:induction false} OutcomeRun(c: Config, s: State, acts: seq<Action>, t: State)
    requires c.Valid() && Inv(c, s) && OutcomeFits(s) && Run(c, s, acts) == Some(t)
    requires forall k | 0 <= k < |acts| :: !acts[k].Restart?
    ensures OutcomeFits(t)
    decreases |acts|
  {
    if acts != [] {
      var s1 := Next(c, s, acts[0]).value;
      StepInv(c, s, acts[0], s1);
      OutcomeStep(c, s, acts[0], s1);
      OutcomeRun(c, s1, acts[1..], t);
    }
  }

  /** The fault a download returns is that of the first report of its run, whoever else reports later, and if there
      was a report it returns a fault: neither success nor another error covers it up. */
  lemma FirstFaultIsReturned(
    c: Config, workers: nat, files: Files, dest: Option<seq<byte>>, acts: seq<Action>, t: State, outcome: Outcome)
    requires c.Valid() && Prefixes(c, files) && Run(c, Initial(workers, files, dest), acts) == Some(t)
    requires forall k | 0 <= k < |acts| :: !acts[k].Restart?
    requires t.main == Returned(outcome)
    ensures match FirstFault(c, Initial(workers, files, dest), acts)
            case Some(fault) => outcome == PartFailed(fault)
            case None => !outcome.PartFailed?
  {
    var s := Initial(workers, files, dest);
    InitialInv(c, workers, files, dest);
    SlotIsFirst(c, s, acts, t);
    OutcomeRun(c, s, acts, t);
  }

  // ---------------------------------------------------------------- termination

  /** How many steps a worker can still take with what it holds. */
  function Weight(c: Config, worker: Worker): nat {
    match worker
    case Exited => 0
    case Receiving => 1
    case Cancelling => 1
    case Reporting(_) => 2
    case Fetched(_) => 3
    case Reading(idx, done, written) =>
      if idx < c.Count() && done + written <= c.Length(idx) then 4 + c.Length(idx) - done - written else 4
    case Holding(idx) => if idx < c.Count() && 0 <= c.Length(idx) then 5 + c.Length(idx) else 5
  }

  function Load(c: Config, workers: seq<Worker>): nat {
    if workers == [] then 0 else Weight(c, workers[0]) + Load(c, workers[1..])
  }

  lemma {:induction false} LoadUpdate(c: Config, workers: seq<Worker>, w: nat, now: Worker)
    requires w < |workers|
    ensures Load(c, workers[w := now]) + Weight(c, workers[w]) == Load(c, workers) + Weight(c, now)
  {
    if w == 0 {
      assert workers[w := now][1..] == workers[1..];
    } else {
      assert workers[w := now][1..] == workers[1..][w - 1 := now];
      LoadUpdate(c, workers[1..], w - 1, now);
    }
  }

  function MainWeight(c: Config, main: Main): nat {
    match main
    case Waiting => c.Count() + 4
    case Creating => c.Count() + 3
    case Assembling(next) => if next <= c.Count() then c.Count() - next + 2 else 0
    case Removing => 1
    case Returned(_) => 0
  }

  /** What one index costs from being received on. */
  function ItemWeight(c: Config): nat { c.Total() + 5 }

  function Times(n: nat, x: nat): nat {
    if n == 0 then 0 else x + Times(n - 1, x)
  }

  /** The items not yet received, buffered or not yet sent, and the producer itself. */
  function Supply(c: Config, m: Shared): nat {
    (if m.sent <= c.Count() then Times(c.Count() - m.sent, ItemWeight(c) + 1) else 0)
    + Times(|m.queue|, ItemWeight(c)) + (if m.closed then 0 else 1)
  }

  function Measure(c: Config, s: State): nat {
    Supply(c, s.m) + (if s.m.parentDone then 0 else 1) + Load(c, s.workers) + MainWeight(c, s.main)
  }

  lemma WorkerFalls(c: Config, m: Shared, was: Worker, act: WorkerAction, m': Shared, now: Worker)
    requires c.Valid() && Channel(c, m) && WorkerFits(c, m, was)
    requires WorkerStep(c, m, was, act) == Some((m', now))
    ensures Supply(c, m') + Weight(c, now) < Supply(c, m) + Weight(c, was)
    ensures m'.parentDone == m.parentDone
  {
  }

  lemma ProducerFalls(c: Config, m: Shared, a: Action, m': Shared)
    requires Channel(c, m) && ProducerNext(c, m, a) == Some(m')
    ensures Supply(c, m') < Supply(c, m) && m'.parentDone == m.parentDone
  {
  }

  /** Every step but a restart brings the end nearer. */
  lemma StepFalls(c: Config, s: State, a: Action, s': State)
    requires c.Valid() && Inv(c, s) && Next(c, s, a) == Some(s') && !a.Restart?
    ensures Measure(c, s') < Measure(c, s)
  {
    if a.Work? {
      OnlyWhileWaiting(c, s, a);
      WorkerFalls(c, s.m, s.workers[a.w], a.act, s'.m, s'.workers[a.w]);
      LoadUpdate(c, s.workers, a.w, s'.workers[a.w]);
    } else if a.Send? || a.SeeCancel? || a.CloseQueue? {
      OnlyWhileWaiting(c, s, a);
      ProducerFalls(c, s.m, a, s'.m);
    } else if !a.ParentCancel? {
      MainFalls(c, s, a, s');
    }
  }

  lemma MainFalls(c: Config, s: State, a: Action, s': State)
    requires c.Valid() && Inv(c, s) && MainNext(c, s, a) == Some(s')
    ensures MainWeight(c, s'.main) < MainWeight(c, s.main)
    ensures s'.workers == s.workers && s' == s.(m := s.m.(files := s'.m.files), main := s'.main, out := s'.out)
  {
  }

  /** No run goes on for ever: the measure of its first state bounds the number of its steps. */
  lemma {:induction false} RunsAreFinite(c: Config, s: State, acts: seq<Action>, t: State)
    requires c.Valid() && Inv(c, s) && Run(c, s, acts) == Some(t)
    requires forall k | 0 <= k < |acts| :: !acts[k].Restart?
    ensures |acts| + Measure(c, t) <= Measure(c, s)
    decreases |acts|
  {
    if acts != [] {
      var s1 := Next(c, s, acts[0]).value;
      StepFalls(c, s, acts[0], s1);
      StepInv(c, s, acts[0], s1);
      RunsAreFinite(c, s1, acts[1..], t);
    }
  }

  // ---------------------------------------------------------------- progress

  /** The benign steps: nothing fails, nobody cancels, and replies run exactly to the end of their range. */
  predicate Benign(c: Config, s: State, a: Action) {
    match a
    case Work(w, act) =>
      (match act
       case Begin(opening) => opening.Accepted?
       case Chunk(n) =>
         w < |s.workers| && s.workers[w].Reading? && s.workers[w].idx < c.Count()
         && s.workers[w].done + s.workers[w].written + n <= c.Length(s.workers[w].idx)
       case BodyEnds =>
         w < |s.workers| && s.workers[w].Reading? && s.workers[w].idx < c.Count()
         && s.workers[w].done + s.workers[w].written == c.Length(s.workers[w].idx)
       case WriteFails(_) => false
       case ReadFails(_) => false
       case Check(found) => found
       case _ => true)
    case ParentCancel => false
    case Restart(_, _) => false
    case CreateDest(ok) => ok
    case CopyPart(ok, _) => ok
    case CloseDest(ok) => ok
    case RemoveParts(ok, _) => ok
    case _ => true
  }

  predicate BenignRun(c: Config, s: State, acts: seq<Action>)
    decreases |acts|
  {
    acts == [] ||
    (Benign(c, s, acts[0]) && match Next(c, s, acts[0])
                              case None => true
                              case Some(s1) => BenignRun(c, s1, acts[1..]))
  }

  /** The benign step of a worker that is not gone and has something to do. */
  function Move(c: Config, m: Shared, worker: Worker): WorkerAction {
    match worker
    case Receiving => if m.queue == [] then Leave else Take
    case Holding(_) => Begin(Accepted)
    case Reading(idx, done, written) =>
      if idx < c.Count() && done + written < c.Length(idx)
      then Chunk(Min(BUFFER, c.Length(idx) - done - written)) else BodyEnds
    case Fetched(_) => Check(true)
    case Reporting(_) => Report
    case _ => Cancel
  }

  lemma WorkerCanMove(c: Config, m: Shared, worker: Worker)
    requires c.Valid() && Channel(c, m) && Prefixes(c, m.files) && WorkerFits(c, m, worker) && !worker.Exited?
    requires worker.Receiving? ==> m.queue != [] || m.closed
    ensures WorkerStep(c, m, worker, Move(c, m, worker)).Some?
  {
    if worker.Receiving? && m.queue != [] {
      assert m.queue[0] < c.Count();
    }
    if worker.Reading? {
      assert |c.resource[c.plan[worker.idx].from..]| == c.Total() - c.plan[worker.idx].from;
    }
  }

  /** A downloader with no workers waits for a receiver that never comes. */
  predicate Stuck(c: Config, s: State) {
    s.workers == [] && s.main.Waiting? && s.m.ctx == Live && !s.m.closed
  }

  lemma WaitingProgress(c: Config, s: State) returns (a: Action)
    requires c.Valid() && Running(c, s) && Prefixes(c, s.m.files) && s.main.Waiting? && !Stuck(c, s)
    ensures Next(c, s, a).Some? && Benign(c, s, a)
  {
    if !s.m.closed && s.m.sent >= c.Count() {
      a := CloseQueue;
    } else if !s.m.closed && s.m.ctx != Live {
      a := SeeCancel;
    } else if !s.m.closed && |s.m.queue| < s.m.capacity {
      a := Send;
    } else if AllExited(s) {
      assert |s.workers| > 0 ==> WorkerBlame(s.m, s.workers[0]);
      a := Join;
    } else {
      var w :| 0 <= w < |s.workers| && !s.workers[w].Exited?;
      assert WorkerFits(c, s.m, s.workers[w]);
      WorkerCanMove(c, s.m, s.workers[w]);
      a := Work(w, Move(c, s.m, s.workers[w]));
    }
  }

  /** In every reachable state that is not final, some goroutine can take a benign step. */
  lemma Progress(c: Config, s: State) returns (a: Action)
    requires c.Valid() && Inv(c, s) && !s.main.Returned? && !Stuck(c, s)
    ensures Next(c, s, a).Some? && Benign(c, s, a)
  {
    match s.main
    case Waiting => a := WaitingProgress(c, s);
    case Creating => a := CreateDest(true);
    case Removing => a := RemoveParts(true, {});
    case Assembling(n) =>
      if n < c.Count() {
        assert Whole(c, s.m.files, n);
        a := CopyPart(true, 0);
      } else {
        a := CloseDest(true);
      }
  }

  /** The download hangs exactly when it has no workers, until the caller cancels. */
  lemma BlockedIffNoWorkers(c: Config, s: State)
    requires c.Valid() && Inv(c, s) && !s.main.Returned?
    ensures (forall a | Next(c, s, a).Some? :: a.ParentCancel? || a.Restart?) <==> Stuck(c, s)
  {
    if Stuck(c, s) {
      assert !s.m.closed && |s.m.queue| == 0 == s.m.capacity && s.m.sent == 0;
    } else {
      var a := Progress(c, s);
    }
  }

  // ---------------------------------------------------------------- when a resumed download succeeds

  /** Nothing has gone wrong in this run, and no part file is longer than its part. */
  ghost predicate Healthy(c: Config, s: State) {
    && s.m.errSlot.None? && s.m.ctx == Live && !s.m.parentDone
    && (forall w | 0 <= w < |s.workers| :: HealthyWorker(c, s.m, s.workers[w]))
    && FilesFit(c, s.m.files)
    && (s.main.Returned? ==> s.main.outcome.Success?)
  }

  ghost predicate FilesFit(c: Config, files: Files) {
    forall i: nat | i in files && i < c.Count() :: |files[i]| <= c.Length(i)
  }

  ghost predicate HealthyWorker(c: Config, m: Shared, worker: Worker) {
    && !worker.Reporting? && !worker.Cancelling?
    && (worker.Fetched? ==> worker.idx < c.Count() && FileSize(m.files, worker.idx) == c.Length(worker.idx))
  }

  lemma BenignWorker(c: Config, m: Shared, was: Worker, act: WorkerAction, m': Shared, now: Worker)
    requires c.Valid() && Channel(c, m) && WorkerFits(c, m, was)
    requires HealthyWorker(c, m, was) && FilesFit(c, m.files)
    requires WorkerStep(c, m, was, act) == Some((m', now))
    requires act.Begin? ==> act.opening.Accepted?
    requires act.Chunk? ==> was.Reading? && was.done + was.written + act.n <= c.Length(was.idx)
    requires act.BodyEnds? ==> was.Reading? && was.done + was.written == c.Length(was.idx)
    requires !act.WriteFails? && !act.ReadFails? && (act.Check? ==> act.found)
    ensures HealthyWorker(c, m', now) && FilesFit(c, m'.files)
    ensures m'.errSlot == m.errSlot && m'.ctx == m.ctx && m'.parentDone == m.parentDone
  {
  }

  lemma OtherHealthy(c: Config, s: State, w: nat, v: nat, m': Shared)
    requires w < |s.workers| && v < |s.workers| && v != w && Exclusive(s.workers)
    requires KeepsFiles(s.m, s.workers[w], m') && HealthyWorker(c, s.m, s.workers[v])
    requires WorkerFits(c, s.m, s.workers[v])
    requires c.Valid()
    ensures HealthyWorker(c, m', s.workers[v])
  {
    var other := s.workers[v];
    if other.Fetched? {
      assert other.Holds(other.idx) && !s.workers[w].Holds(other.idx);
      assert other.idx in s.m.files;
    }
  }

  lemma BenignStep(c: Config, s: State, a: Action, s': State)
    requires c.Valid() && Tiles(c.plan, c.Total()) && Inv(c, s) && Healthy(c, s)
    requires Benign(c, s, a) && Next(c, s, a) == Some(s')
    ensures Healthy(c, s')
  {
    if a.Work? {
      OnlyWhileWaiting(c, s, a);
      var was, now := s.workers[a.w], s'.workers[a.w];
      assert WorkerFits(c, s.m, was) && HealthyWorker(c, s.m, was);
      BenignWorker(c, s.m, was, a.act, s'.m, now);
      StepKeepsFiles(c, s.m, was, a.act, s'.m, now);
      forall v | 0 <= v < |s'.workers| ensures HealthyWorker(c, s'.m, s'.workers[v]) {
        if v != a.w {
          assert WorkerFits(c, s.m, s.workers[v]) && HealthyWorker(c, s.m, s.workers[v]);
          OtherHealthy(c, s, a.w, v, s'.m);
        }
      }
    } else {
      BenignMain(c, s, a, s');
      forall v | 0 <= v < |s'.workers| ensures HealthyWorker(c, s'.m, s'.workers[v]) {
        assert HealthyWorker(c, s.m, s.workers[v]);
      }
    }
  }

  lemma BenignMain(c: Config, s: State, a: Action, s': State)
    requires c.Valid() && Tiles(c.plan, c.Total()) && Inv(c, s) && Healthy(c, s)
    requires Benign(c, s, a) && Next(c, s, a) == Some(s') && !a.Work?
    ensures s'.workers == s.workers && FilesFit(c, s'.m.files)
    ensures s'.m.files == s.m.files || AllExited(s)
    ensures s'.m.errSlot == s.m.errSlot && s'.m.ctx == s.m.ctx && s'.m.parentDone == s.m.parentDone
    ensures s'.main.Returned? ==> s'.main.outcome.Success?
  {
    match s.main
    case Waiting =>
      if a.Join? {
        AllFinished(c, s);
      }
    case Assembling(n) =>
      if n < c.Count() {
        assert Whole(c, s.m.files, n);
      }
    case _ =>
  }

  lemma {:induction false} BenignRunSucceeds(c: Config, s: State, acts: seq<Action>, t: State)
    requires c.Valid() && Tiles(c.plan, c.Total()) && Inv(c, s) && Healthy(c, s)
    requires BenignRun(c, s, acts) && Run(c, s, acts) == Some(t) && t.main.Returned?
    ensures t.main.outcome.Success?
    decreases |acts|
  {
    if acts != [] {
      var s1 := Next(c, s, acts[0]).value;
      BenignStep(c, s, acts[0], s1);
      StepInv(c, s, acts[0], s1);
      BenignRunSucceeds(c, s1, acts[1..], t);
    }
  }

  /** With a worker, benign steps lead from every reachable state to the end. */
  lemma {:induction false} CanFinish(c: Config, s: State) returns (acts: seq<Action>, t: State)
    requires c.Valid() && Inv(c, s) && |s.workers| > 0
    ensures Run(c, s, acts) == Some(t) && BenignRun(c, s, acts) && t.main.Returned?
    ensures forall k | 0 <= k < |acts| :: !acts[k].Restart?
    decreases Measure(c, s)
  {
    if s.main.Returned? {
      acts, t := [], s;
    } else {
      var a := Progress(c, s);
      var s1 := Next(c, s, a).value;
      StepFalls(c, s, a, s1);
      StepInv(c, s, a, s1);
      var rest;
      rest, t := CanFinish(c, s1);
      acts := [a] + rest;
      assert acts[1..] == rest;
    }
  }

  /** A part file longer than its part stays too long for the rest of the run. */
  lemma {:induction false} TooLongStays(c: Config, s: State, acts: seq<Action>, t: State, i: nat)
    requires c.Valid() && Inv(c, s) && Run(c, s, acts) == Some(t)
    requires forall k | 0 <= k < |acts| :: !acts[k].Restart?
    requires i < c.Count() && FileSize(s.m.files, i) > c.Length(i)
    requires s.main.Returned? ==> !s.main.outcome.Success?
    ensures t.main.Returned? ==> !t.main.outcome.Success?
    decreases |acts|
  {
    if acts != [] {
      var s1 := Next(c, s, acts[0]).value;
      StepInv(c, s, acts[0], s1);
      if s.main.Returned? {
        QuietAfterReturn(c, s, acts[0], s1);
      } else if acts[0].Work? {
        OnlyWhileWaiting(c, s, acts[0]);
        StepKeepsFiles(c, s.m, s.workers[acts[0].w], acts[0].act, s1.m, s1.workers[acts[0].w]);
      } else {
        assert !s.main.Waiting? ==> Whole(c, s.m.files, i);
      }
      TooLongStays(c, s1, acts[1..], t, i);
    }
  }

  /** A run keeps its number of workers. */
  lemma {:induction false} WorkersStay(c: Config, s: State, acts: seq<Action>, t: State)
    requires Run(c, s, acts) == Some(t) && forall k | 0 <= k < |acts| :: !acts[k].Restart?
    ensures |t.workers| == |s.workers|
    decreases |acts|
  {
    if acts != [] {
      WorkersStay(c, Next(c, s, acts[0]).value, acts[1..], t);
    }
  }

  ghost predicate SucceedsIn(c: Config, s: State, acts: seq<Action>) {
    && (forall k | 0 <= k < |acts| :: !acts[k].Restart?)
    && Run(c, s, acts).Some? && Run(c, s, acts).value.main.Returned?
    && Run(c, s, acts).value.main.outcome.Success?
  }

  /** Part files left by earlier runs can be completed to a successful download exactly when the plan covers
      the resource, there is a worker, and no file grew beyond its part. An over-long file, which only an
      over-long reply leaves behind, makes every later run fail. */
  lemma CanSucceedIff(c: Config, workers: nat, files: Files, dest: Option<seq<byte>>)
    requires c.Valid() && Prefixes(c, files)
    ensures (exists acts :: SucceedsIn(c, Initial(workers, files, dest), acts))
      <==> Tiles(c.plan, c.Total()) && workers > 0 && FilesFit(c, files)
  {
    var s := Initial(workers, files, dest);
    InitialInv(c, workers, files, dest);
    if acts :| SucceedsIn(c, s, acts) {
      var t := Run(c, s, acts).value;
      RunInv(c, s, acts, t);
      WorkersStay(c, s, acts, t);
      forall i: nat | i in files && i < c.Count() ensures |files[i]| <= c.Length(i) {
        if |files[i]| > c.Length(i) {
          TooLongStays(c, s, acts, t, i);
        }
      }
    }
    if Tiles(c.plan, c.Total()) && workers > 0 && FilesFit(c, files) {
      var acts, t := CanFinish(c, s);
      BenignRunSucceeds(c, s, acts, t);
      assert SucceedsIn(c, s, acts);
    }
  }

  /** So a download without part files can succeed for every resource and part size that fit, whatever number of
      workers is asked for: a new downloader settles on at least one. */
  lemma DownloadCanSucceed(
    resource: seq<byte>, partSize: int, requested: int, digest: seq<byte> -> string, dest: Option<seq<byte>>)
    requires Sizes(|resource|, PartSize(partSize))
    requires |resource| + PartSize(partSize) - 1 <= MAX_INT64 || |resource| <= PartSize(partSize)
    ensures var c := Configured(resource, partSize, digest);
            exists acts :: SucceedsIn(c, Initial(Workers(requested), map[], dest), acts)
  {
    PlanChained(|resource|, PartSize(partSize));
    TilesIff(|resource|, PartSize(partSize));
    CanSucceedIff(Configured(resource, partSize, digest), Workers(requested), map[], dest);
  }

  lemma RunFour(c: Config, s: State, a1: Action, a2: Action, a3: Action, a4: Action, s1: State, s2: State, s3: State,
                s4: State)
    requires Next(c, s, a1) == Some(s1) && Next(c, s1, a2) == Some(s2)
    requires Next(c, s2, a3) == Some(s3) && Next(c, s3, a4) == Some(s4)
    ensures Run(c, s, [a1, a2, a3, a4]) == Some(s4)
  {
    assert [a1, a2, a3, a4][1..] == [a2, a3, a4] && [a2, a3, a4][1..] == [a3, a4] && [a3, a4][1..] == [a4];
    assert Run(c, s3, [a4]) == Run(c, s4, []);
    assert Run(c, s2, [a3, a4]) == Run(c, s3, [a4]);
    assert Run(c, s1, [a2, a3, a4]) == Run(c, s2, [a3, a4]);
  }

  /** The plan of two bytes in parts of one. */
  lemma TwoParts(resource: seq<byte>)
    requires |resource| == 2
    ensures Plan(2, 1) == [Range(0, 0), Range(1, 1)] && Sizes(2, 1) && Chained(Plan(2, 1), 2)
  {
    CountCases(2, 1);
    PlanChained(2, 1);
    PartBounds(2, 1, 0);
    PartBounds(2, 1, 1);
  }

  /** One worker's state, with nothing but the channel, the files and the count of sent indices in use. */
  function Busy(files: Files, sent: nat, queue: seq<nat>, worker: Worker): State {
    State(Shared(files, sent, queue, false, Live, false, None, {}, 0, 2), [worker], Waiting, Output(None, [], 0))
  }

  lemma WorkStep(c: Config, s: State, act: WorkerAction, m: Shared, worker: Worker)
    requires |s.workers| == 1 && WorkerStep(c, s.m, s.workers[0], act) == Some((m, worker))
    ensures Next(c, s, Work(0, act)) == Some(s.(m := m, workers := [worker]))
  {
    assert s.workers[0 := worker] == [worker];
  }

  lemma OverlongReply(c: Config)
    requires |c.resource| == 2 && c.plan == [Range(0, 0), Range(1, 1)]
    ensures Run(c, Initial(1, map[], None),
                [Send, Work(0, Take), Work(0, Begin(Accepted)), Work(0, Chunk(2))])
         == Some(Busy(map[0 := c.resource], 1, [], Reporting(Genuine)))
  {
    var s0, s1 := Busy(map[], 0, [], Receiving), Busy(map[], 1, [0], Receiving);
    var s2, s3 := Busy(map[], 1, [], Holding(0)), Busy(map[0 := []], 1, [], Reading(0, 0, 0));
    var s4 := Busy(map[0 := c.resource], 1, [], Reporting(Genuine));
    assert Initial(1, map[], None).workers == [Receiving];
    assert [] + [0] == [0] && Next(c, s0, Send) == Some(s1);
    assert s1.m.queue[1..] == [];
    WorkStep(c, s1, Take, s2.m, Holding(0));
    WorkStep(c, s2, Begin(Accepted), s3.m, Reading(0, 0, 0));
    assert [] + c.resource[0..2] == c.resource;
    assert map[0 := []][0 := c.resource] == map[0 := c.resource];
    WorkStep(c, s3, Chunk(2), s4.m, Reporting(Genuine));
    RunFour(c, s0, Send, Work(0, Take), Work(0, Begin(Accepted)), Work(0, Chunk(2)), s1, s2, s3, s4);
  }

  /** An over-long part file is reached: from no files at all, a server that answers the request for the first of
      two bytes with both of them leaves a part file from which no later run succeeds. */
  lemma OverlongReplyStrands(resource: seq<byte>, digest: seq<byte> -> string) returns (acts: seq<Action>, t: State)
    requires |resource| == 2
    ensures var c := Configured(resource, 1, digest);
            && Run(c, Initial(1, map[], None), acts) == Some(t)
            && t.m.files == map[0 := resource] && |resource| > c.Length(0)
            && forall workers: nat ::
                 && Next(c, t, Restart({0}, workers)) == Some(Initial(workers, t.m.files, None))
                 && !exists more :: SucceedsIn(c, Initial(workers, t.m.files, None), more)
  {
    var c := Configured(resource, 1, digest);
    TwoParts(resource);
    OverlongReply(c);
    acts := [Send, Work(0, Take), Work(0, Begin(Accepted)), Work(0, Chunk(2))];
    t := Busy(map[0 := resource], 1, [], Reporting(Genuine));
    assert Keep(t.m.files, {0}) == t.m.files;
    forall workers: nat ensures !exists more :: SucceedsIn(c, Initial(workers, t.m.files, None), more) {
      Stranded(c, workers, resource);
    }
  }

  lemma Stranded(c: Config, workers: nat, resource: seq<byte>)
    requires c.resource == resource && |resource| == 2 && c.plan == [Range(0, 0), Range(1, 1)]
    ensures !exists more :: SucceedsIn(c, Initial(workers, map[0 := resource], None), more)
  {
    var files: Files := map[0 := resource];
    FileTooLong(c, files);
    CanSucceedIff(c, workers, files, None);
  }

  lemma FileTooLong(c: Config, files: Files)
    requires |c.resource| == 2 && c.plan == [Range(0, 0), Range(1, 1)] && files == map[0 := c.resource]
    ensures c.Valid() && Prefixes(c, files) && !FilesFit(c, files)
  {
    assert c.resource[c.plan[0].from..] == c.resource;
    assert |files[0]| > c.Length(0);
  }
}
