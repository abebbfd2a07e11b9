/** The parallel range download as a step relation: one producer, a bounded channel, the workers,
    the two contexts, the one-slot error channel, the part files and the goroutine that joins them
    (internal/fetch/download.go, lines 105-234 and 263-325). The server is the environment: it may
    refuse, break off, end early or send more than was asked for, but the bytes of an accepted
    reply are the resource's bytes from the requested start on. */
module Download {
  import opened Basics
  import opened Ranges

  const BUFFER: int := 256 * 1024

  type Files = map<nat, seq<byte>>

  /** One download: the resource, the parts planned for it, and the digest. */
  datatype Config = Config(resource: seq<byte>, plan: seq<Range>, digest: seq<byte> -> string)
  {
    ghost predicate Valid() { Chained(plan, Total()) }
    function Total(): nat { |resource| }
    function Count(): nat { |plan| }
    function Length(idx: nat): int requires idx < Count() { plan[idx].to - plan[idx].from + 1 }
    /** The bytes part `idx` must hold in the end. */
    ghost function Slice(idx: nat): seq<byte>
      requires Valid() && idx < Count()
    {
      resource[plan[idx].from..plan[idx].to + 1]
    }
  }

  /** The concurrency a new downloader settles on. */
  function Workers(requested: int): (n: nat)
    ensures 1 <= n <= 8
    ensures 1 <= requested <= 8 ==> n == requested
    ensures requested <= 0 ==> n == 4
    ensures requested > 8 ==> n == 8
  {
    if requested <= 0 then 4 else if requested > 8 then 8 else requested
  }

  /** The configuration `downloadDirect` works with for a resource the server can serve by ranges. */
  function Configured(resource: seq<byte>, partSize: int, digest: seq<byte> -> string): (c: Config)
    requires |resource| > 0
  {
    Config(resource, Plan(|resource|, PartSize(partSize)), digest)
  }

  /** Why a fetch stopped: a failure of its own, the caller's context, or the download's own cancel. */
  datatype Fault = Genuine | ParentDone | OwnCancel
  datatype JobContext = Live | DoneByParent | DoneByCancel

  datatype Worker =
    | Receiving
    | Holding(idx: nat)
    | Reading(idx: nat, done: nat, written: nat)
    | Fetched(idx: nat)
    | Reporting(fault: Fault)
    | Cancelling
    | Exited
  {
    predicate Holds(i: nat) {
      (Holding? || Reading? || Fetched?) && idx == i
    }
  }

  datatype Outcome =
    | Success(bytes: nat, digest: string, parts: int)
    | PartFailed(fault: Fault)
    | ContextDone
    | Incomplete
    | WrongLength
    | Storage

  datatype Main = Waiting | Creating | Assembling(next: nat) | Removing | Returned(outcome: Outcome)

  /** What the goroutines share. `finished` lists the indices counted in `partCount`; no step reads it. */
  datatype Shared = Shared(
    files: Files, sent: nat, queue: seq<nat>, closed: bool, ctx: JobContext, parentDone: bool,
    errSlot: Option<Fault>, finished: set<nat>, partCount: nat, capacity: nat)

  /** The destination file, the bytes fed to the hash, and the count of bytes copied. */
  datatype Output = Output(dest: Option<seq<byte>>, hashed: seq<byte>, written: nat)

  datatype State = State(m: Shared, workers: seq<Worker>, main: Main, out: Output)

  datatype Opening = OpenFails | RequestFails(fault: Fault) | Accepted

  datatype WorkerAction =
    | Take
    | Leave
    | Begin(opening: Opening)
    | Chunk(n: nat)
    | WriteFails(n: nat)
    | ReadFails(fault: Fault)
    | BodyEnds
    | Check(found: bool)
    | Report
    | Cancel

  datatype Action =
    | Send
    | SeeCancel
    | CloseQueue
    | Work(w: nat, act: WorkerAction)
    | ParentCancel
    | Join
    | CreateDest(ok: bool)
    | CopyPart(ok: bool, n: nat)
    | CloseDest(ok: bool)
    | RemoveParts(ok: bool, kept: set<nat>)
    | Restart(kept: set<nat>, workers: nat)

  // ---------------------------------------------------------------- steps

  /** A run begins with its own number of workers, and a channel with room for twice as many indices. */
  function Initial(workers: nat, files: Files, dest: Option<seq<byte>>): State {
    State(Shared(files, 0, [], false, Live, false, None, {}, 0, 2 * workers), seq(workers, _ => Receiving), Waiting,
          Output(dest, [], 0))
  }

  /** A fetch reports a cancelled context only when the job context is done, with the cause that came first. */
  predicate MayFail(m: Shared, f: Fault) {
    match f
    case Genuine => true
    case ParentDone => m.ctx == DoneByParent
    case OwnCancel => m.ctx == DoneByCancel
  }

  function FileSize(files: Files, idx: nat): nat {
    if idx in files then |files[idx]| else 0
  }

  /** Opening with O_CREATE and O_APPEND: an absent file becomes an empty one. */
  function Opened(files: Files, idx: nat): Files {
    if idx in files then files else files[idx := []]
  }

  /** The next `n` bytes of the reply, appended to the part file; the server has no byte past the end. */
  function Append(c: Config, files: Files, idx: nat, at: int, n: nat): Option<Files> {
    if n <= BUFFER && 0 <= at <= at + n <= c.Total() && idx in files
    then Some(files[idx := files[idx] + c.resource[at..at + n]])
    else None
  }

  type Step = Option<(Shared, Worker)>

  function TakeStep(c: Config, m: Shared): Step {
    if m.queue == [] || m.queue[0] >= c.Count() then None
    else
      var idx := m.queue[0];
      Some((m.(queue := m.queue[1..]), if c.plan[idx].from > c.plan[idx].to then Receiving else Holding(idx)))
  }

  /** Stat, open and request: how many bytes are there already decides what is asked for. */
  function BeginStep(c: Config, m: Shared, idx: nat, opening: Opening): Step
    requires idx < c.Count()
  {
    var done := FileSize(m.files, idx);
    if done > c.Length(idx) then Some((m, Reporting(Genuine)))
    else if done == c.Length(idx) then Some((m, Fetched(idx)))
    else match opening
         case OpenFails => Some((m, Reporting(Genuine)))
         case RequestFails(f) =>
           if MayFail(m, f) then Some((m.(files := Opened(m.files, idx)), Reporting(f))) else None
         case Accepted => Some((m.(files := Opened(m.files, idx)), Reading(idx, done, 0)))
  }

  /** One turn of the copy loop: read, write, count, and refuse more bytes than were asked for. */
  function ReadStep(c: Config, m: Shared, r: Worker, act: WorkerAction): Step
    requires r.Reading? && r.idx < c.Count()
  {
    var at := c.plan[r.idx].from + r.done + r.written;
    match act
    case Chunk(n) =>
      var files := Append(c, m.files, r.idx, at, n);
      if n == 0 || files.None? then None
      else Some((m.(files := files.value),
                 if r.done + r.written + n > c.Length(r.idx) then Reporting(Genuine)
                 else Reading(r.idx, r.done, r.written + n)))
    case WriteFails(n) =>
      var files := Append(c, m.files, r.idx, at, n);
      if files.None? then None else Some((m.(files := files.value), Reporting(Genuine)))
    case ReadFails(f) => if MayFail(m, f) then Some((m, Reporting(f))) else None
    case BodyEnds => Some((m, Fetched(r.idx)))
    case _ => None
  }

  function CheckStep(c: Config, m: Shared, idx: nat, found: bool): Step
    requires idx < c.Count()
  {
    if !found || idx !in m.files || |m.files[idx]| != c.Length(idx) then Some((m, Reporting(Genuine)))
    else Some((m.(partCount := m.partCount + 1, finished := m.finished + {idx}), Receiving))
  }

  /** One step of one worker on the shared state. */
  function WorkerStep(c: Config, m: Shared, worker: Worker, act: WorkerAction): Step {
    match worker
    case Receiving =>
      if act.Take? then TakeStep(c, m)
      else if act.Leave? && m.queue == [] && m.closed then Some((m, Exited))
      else None
    case Holding(idx) =>
      if act.Begin? && idx < c.Count() then BeginStep(c, m, idx, act.opening) else None
    case Reading(idx, _, _) =>
      if idx < c.Count() then ReadStep(c, m, worker, act) else None
    case Fetched(idx) =>
      if act.Check? && idx < c.Count() then CheckStep(c, m, idx, act.found) else None
    case Reporting(f) =>
      if act.Report? then Some((if m.errSlot == None then m.(errSlot := Some(f)) else m, Cancelling)) else None
    case Cancelling =>
      if act.Cancel? then Some((m.(ctx := if m.ctx == Live then DoneByCancel else m.ctx), Exited)) else None
    case Exited => None
  }

  function WorkerNext(c: Config, s: State, w: nat, act: WorkerAction): Option<State>
    requires w < |s.workers|
  {
    match WorkerStep(c, s.m, s.workers[w], act)
    case None => None
    case Some((m, worker)) => Some(s.(m := m, workers := s.workers[w := worker]))
  }

  function ProducerNext(c: Config, m: Shared, a: Action): Option<Shared> {
    match a
    case Send =>
      if !m.closed && m.sent < c.Count() && |m.queue| < m.capacity
      then Some(m.(queue := m.queue + [m.sent], sent := m.sent + 1)) else None
    case SeeCancel =>
      if !m.closed && m.sent < c.Count() && m.ctx != Live then Some(m.(closed := true)) else None
    case CloseQueue =>
      if !m.closed && m.sent >= c.Count() then Some(m.(closed := true)) else None
    case _ => None
  }

  predicate AllExited(s: State) {
    forall w | 0 <= w < |s.workers| :: s.workers[w].Exited?
  }

  /** Keeping some of the part files: what a crash or a failed RemoveAll leaves. */
  function Keep(files: Files, kept: set<nat>): Files {
    map i | i in files && i in kept :: files[i]
  }

  function JoinNext(c: Config, s: State): Option<State> {
    if !(s.m.closed && AllExited(s)) then None
    else Some(s.(main :=
      if s.m.errSlot.Some? then Returned(PartFailed(s.m.errSlot.value))
      else if s.m.parentDone then Returned(ContextDone)
      else if (s.m.partCount - c.Count()) % 0x1_0000_0000 != 0 then Returned(Incomplete)
      else Creating))
  }

  function CopyNext(c: Config, s: State, next: nat, ok: bool, n: nat): Option<State> {
    if next >= c.Count() || s.out.dest.None? then None
    else if next !in s.m.files then Some(s.(main := Returned(Storage)))
    else
      var part := s.m.files[next];
      var dest := s.out.dest.value;
      if ok then
        Some(s.(main := Assembling(next + 1),
                out := Output(Some(dest + part), s.out.hashed + part, s.out.written + |part|)))
      else if n <= |part| then
        Some(s.(main := Returned(Storage), out := s.out.(dest := Some(dest + part[..n]))))
      else None
  }

  /** The joining goroutine: wait, check, create, copy part after part, close, remove the parts. */
  function MainNext(c: Config, s: State, a: Action): Option<State> {
    match s.main
    case Waiting => if a.Join? then JoinNext(c, s) else None
    case Creating =>
      if !a.CreateDest? then None
      else if a.ok then Some(s.(main := Assembling(0), out := Output(Some([]), [], 0)))
      else Some(s.(main := Returned(Storage)))
    case Assembling(next) =>
      if a.CopyPart? then CopyNext(c, s, next, a.ok, a.n)
      else if !a.CloseDest? || next < c.Count() then None
      else Some(s.(main :=
        if !a.ok then Returned(Storage)
        else if s.out.written != c.Total() then Returned(WrongLength)
        else Removing))
    case Removing =>
      if !a.RemoveParts? then None
      else if a.ok then
        Some(s.(m := s.m.(files := map[]),
                main := Returned(Success(s.out.written, c.digest(s.out.hashed), c.Count()))))
      else Some(s.(m := s.m.(files := Keep(s.m.files, a.kept)), main := Returned(Storage)))
    case Returned(_) => None
  }

  function Next(c: Config, s: State, a: Action): Option<State> {
    match a
    case Work(w, act) =>
      if w < |s.workers| then WorkerNext(c, s, w, act) else None
    case ParentCancel =>
      if s.m.parentDone then None
      else Some(s.(m := s.m.(parentDone := true, ctx := if s.m.ctx == Live then DoneByParent else s.m.ctx)))
    case Restart(kept, workers) => Some(Initial(workers, Keep(s.m.files, kept), s.out.dest))
    case _ =>
      if a.Send? || a.SeeCancel? || a.CloseQueue? then
        match ProducerNext(c, s.m, a)
        case None => None
        case Some(m) => Some(s.(m := m))
      else MainNext(c, s, a)
  }

  /** A whole history: actions taken one after the other. */
  function Run(c: Config, s: State, acts: seq<Action>): Option<State>
    decreases |acts|
  {
    if acts == [] then Some(s)
    else match Next(c, s, acts[0])
         case None => None
         case Some(s1) => Run(c, s1, acts[1..])
  }

  // ---------------------------------------------------------------- invariant

  ghost predicate Channel(c: Config, m: Shared) {
    && m.sent <= c.Count()
    && |m.queue| <= m.sent && |m.queue| <= m.capacity
    && (forall k | 0 <= k < |m.queue| :: m.queue[k] == m.sent - |m.queue| + k)
    && (forall i | i in m.finished :: i < m.sent - |m.queue|)
    && m.partCount == |m.finished|
    && (m.capacity == 0 ==> m.sent == 0)
  }

  /** Every part file is a prefix of the resource from the part's first byte on. */
  ghost predicate Prefixes(c: Config, files: Files)
    requires c.Valid()
  {
    forall i | i in files :: i < c.Count() && files[i] <= c.resource[c.plan[i].from..]
  }

  ghost predicate Whole(c: Config, files: Files, i: nat)
    requires c.Valid()
  {
    i < c.Count() && i in files && files[i] == c.Slice(i)
  }

  ghost predicate WorkerFits(c: Config, m: Shared, worker: Worker) {
    match worker
    case Holding(idx) => idx < m.sent - |m.queue| && idx !in m.finished
    case Reading(idx, done, written) =>
      && idx < m.sent - |m.queue| && idx !in m.finished && idx < c.Count()
      && idx in m.files && |m.files[idx]| == done + written <= c.Length(idx)
    case Fetched(idx) => idx < m.sent - |m.queue| && idx !in m.finished
    case _ => true
  }

  /** No two workers hold the same index. */
  ghost predicate Exclusive(workers: seq<Worker>) {
    forall v, w, i: nat | 0 <= v < w < |workers| && workers[v].Holds(i) :: !workers[w].Holds(i)
  }

  /** Who may have cancelled, and what may stand in the error slot. */
  ghost predicate Blame(m: Shared) {
    && (m.ctx == DoneByCancel ==> m.errSlot.Some?)
    && (m.errSlot.Some? ==> m.errSlot.value != OwnCancel)
    && (m.errSlot == Some(ParentDone) || m.ctx == DoneByParent ==> m.parentDone)
    && (m.parentDone ==> m.ctx != Live)
  }

  ghost predicate WorkerBlame(m: Shared, worker: Worker) {
    match worker
    case Reporting(f) => MayFail(m, f)
    case Cancelling => m.errSlot.Some?
    case Exited => m.ctx != Live || (m.closed && m.queue == [])
    case _ => true
  }

  ghost predicate Troubled(s: State) {
    s.m.errSlot.Some? || exists w | 0 <= w < |s.workers| :: s.workers[w].Reporting?
  }

  ghost predicate Accounted(s: State, i: nat) {
    i in s.m.finished || exists w | 0 <= w < |s.workers| :: s.workers[w].Holds(i)
  }

  /** As long as nothing went wrong, every index taken from the channel is finished or in a worker's hands. */
  ghost predicate Coverage(c: Config, s: State) {
    && (s.m.closed && s.m.sent < c.Count() ==> s.m.ctx != Live)
    && (!Troubled(s) ==> forall i: nat | i < s.m.sent - |s.m.queue| :: Accounted(s, i))
  }

  ghost predicate Running(c: Config, s: State)
    requires c.Valid()
  {
    && s.m.capacity == 2 * |s.workers|
    && Channel(c, s.m) && Blame(s.m) && Coverage(c, s) && Exclusive(s.workers)
    && (forall w | 0 <= w < |s.workers| :: WorkerFits(c, s.m, s.workers[w]) && WorkerBlame(s.m, s.workers[w]))
    && (forall i | i in s.m.finished :: Whole(c, s.m.files, i))
  }

  ghost predicate Complete(c: Config, s: State)
    requires c.Valid()
  {
    && s.m.closed && AllExited(s) && |s.workers| > 0
    && (forall i: nat | i < c.Count() :: Whole(c, s.m.files, i))
  }

  ghost predicate Assembled(c: Config, out: Output, n: nat)
    requires c.Valid()
  {
    && n <= c.Count()
    && out.dest == Some(c.resource[..Covered(c.plan, n)])
    && out.hashed == out.dest.value && out.written == |out.hashed|
  }

  ghost predicate ReturnedWell(c: Config, s: State, outcome: Outcome) {
    && outcome != PartFailed(OwnCancel) && outcome != Incomplete
    && (outcome == PartFailed(ParentDone) || outcome == ContextDone ==> s.m.parentDone)
    && (outcome == WrongLength ==> !Tiles(c.plan, c.Total()))
    && (outcome.Success? ==>
          && outcome == Success(c.Total(), c.digest(c.resource), c.Count())
          && s.out.dest == Some(c.resource) && Tiles(c.plan, c.Total()) && |s.workers| > 0)
  }

  ghost predicate MainFits(c: Config, s: State)
    requires c.Valid()
  {
    match s.main
    case Waiting => Running(c, s)
    case Creating => Complete(c, s)
    case Assembling(n) => Complete(c, s) && Assembled(c, s.out, n)
    case Removing => Complete(c, s) && Assembled(c, s.out, c.Count()) && s.out.written == c.Total()
    case Returned(outcome) => s.m.closed && AllExited(s) && ReturnedWell(c, s, outcome)
  }

  ghost predicate Inv(c: Config, s: State)
    requires c.Valid()
  {
    Prefixes(c, s.m.files) && MainFits(c, s)
  }
}
