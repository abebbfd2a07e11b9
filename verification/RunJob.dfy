/** One run of a job from launch to clean-up (internal/queue/queue.go, lines 120-238): the row is saved on the
    way, the download is staged, the staged or remuxed file is renamed onto the target, the sidecar is written
    beside it, and a failure is recorded with its kind. What the outside answers is given beforehand. */
module RunJob {
  import opened Basics
  import opened Paths
  import opened Times
  import opened Store
  import opened Queue
  import opened Ranges
  import D = Download
  import T = DownloadTheorems

  /** A finished download: the staged bytes and the result that describes them. */
  datatype Received = Received(bytes: seq<byte>, count: int, digest: string, parts: int)

  /** What becomes of the sidecar: written whole, cut off by a failing write, or not even opened. */
  datatype Sidecar = Whole(text: seq<byte>) | Cut(text: seq<byte>) | Unopened

  datatype World = World(
    saves: seq<bool>, hasSource: bool, fits: bool, makesDir: bool, download: Option<Received>,
    renames: bool, sidecar: Sidecar, ffmpeg: bool, remux: Option<seq<byte>>, deferred: bool)

  /** Whether save number `k` of the run reaches the database. */
  predicate SaveAt(w: World, k: nat) {
    k < |w.saves| ==> w.saves[k]
  }

  predicate AllSaved(w: World) {
    forall k | 0 <= k < |w.saves| :: w.saves[k]
  }

  predicate Downloads(w: World) {
    w.hasSource && w.fits && w.makesDir && w.download.Some?
  }

  /** How a run ends: with a failure of some kind, or with a finished row. */
  datatype Verdict = Broken(kind: string) | Kept

  function Judge(w: World): Verdict {
    if !w.hasSource then Broken("resolve")
    else if !w.fits then Broken("disk_headroom")
    else if !w.makesDir then Broken("storage_perm_lost")
    else if w.download.None? then Broken("truncated")
    else if !w.renames then Broken("storage_perm_lost")
    else if w.deferred && !w.sidecar.Whole? then Broken("storage_metadata")
    else Kept
  }

  // ---------------------------------------------------------------- the library

  type Library = map<string, seq<byte>>

  class Disk {
    var library: Library
    var staged: Option<seq<byte>>

    constructor ()
      ensures library == map[] && staged.None?
    {
      library, staged := map[], None;
    }
  }

  /** The bytes of the file that is published. */
  function File(w: World): seq<byte>
    requires w.download.Some?
  {
    if !w.deferred && w.ffmpeg && w.remux.Some? then w.remux.value else w.download.value.bytes
  }

  /** ffmpeg's output beside the target is gone in the end, renamed or removed. */
  function AfterRemux(w: World, target: string, files: Library): Library {
    if !w.deferred && w.ffmpeg then files - {target + ".tmp"} else files
  }

  function AfterRename(w: World, target: string, files: Library): Library
    requires w.download.Some?
  {
    AfterRemux(w, target, files)[target := File(w)]
  }

  function WithSidecar(w: World, target: string, files: Library): Library {
    match w.sidecar
    case Whole(text) => files[SidecarOf(target) := text]
    case Cut(text) => files[SidecarOf(target) := text]
    case Unopened => files
  }

  /** The library a run leaves whose saves all reach the database. */
  function Left(w: World, target: string, files: Library): Library {
    if !Downloads(w) then files
    else if !w.renames then AfterRemux(w, target, files)
    else WithSidecar(w, target, AfterRename(w, target, files))
  }

  // ---------------------------------------------------------------- what a run promises

  /** One run: the power settings, the listed job, the target, the time of its end, the text of the time of a
      retry, and what the outside answers. */
  datatype Run = Run(power: Power, job: Job, target: string, now: nat, later: string, w: World)

  ghost predicate Timed(r: Run) {
    r.later == FormatTime(r.now + Delay(r.job.attempts + 1))
  }

  /** The row as a finished run leaves it. */
  ghost predicate Describes(row: Job, r: Received, target: string) {
    row.sha256 == r.digest && row.bytesTotal == r.count && row.bytesDone == r.count && row.partsDone == r.parts
    && row.targetPath == target
  }

  /** Wherever a run stops, the library is as before, or without ffmpeg's output, or has the whole file under the
      target, with or without the sidecar. */
  ghost predicate WholeOrUntouched(r: Run, before: Library, after: Library) {
    || after == before
    || (Downloads(r.w) && after == AfterRemux(r.w, r.target, before))
    || (Downloads(r.w) && r.w.renames
        && (after == AfterRename(r.w, r.target, before) || after == Left(r.w, r.target, before)))
  }

  /** A row that the run makes say done describes the download it came from, and the file is published. */
  ghost predicate DoneIsThere(r: Run, before: Library, after: Library, row: Job) {
    row.state == Done ==>
      && Downloads(r.w) && r.w.renames && Describes(row, r.w.download.value, r.target)
      && after == Left(r.w, r.target, before) && (r.w.deferred ==> r.w.sidecar.Whole?)
  }

  /** A recorded failure: queued again with a later time while attempts remain, failed otherwise. */
  ghost predicate Recorded(r: Run, kind: string, row: Job) {
    && row.errKind == kind && row.tmpPath == ""
    && if r.power.maxAttempts > 0 && r.job.attempts < r.power.maxAttempts
       then row.state == Queued && row.attempts == r.job.attempts + 1 && row.nextRetryAt == r.later
       else row.state == Failed && row.attempts == r.job.attempts && row.finishedAt == r.now
  }

  /** With every save reaching the database, a run that can be completed ends done, and any other is recorded
      with the kind of its failure; the library is what the world's answers leave. */
  ghost predicate JudgedWell(r: Run, before: Library, after: Library, row: Job) {
    && after == Left(r.w, r.target, before)
    && match Judge(r.w)
       case Kept =>
         row.state == Done && row.attempts == r.job.attempts && Describes(row, r.w.download.value, r.target)
         && (if r.w.sidecar.Whole? then row.finishedAt == r.now && row.errKind == r.job.errKind
             else row.errKind == "storage_metadata")
       case Broken(kind) => Recorded(r, kind, row)
  }

  /** `first` is the row as the run finds it, which need not be the job as it was listed. */
  ghost predicate Outcome(r: Run, before: Library, after: Library, first: Job, row: Job) {
    && WholeOrUntouched(r, before, after)
    && ((row == first && after == before) || DoneIsThere(r, before, after, row))
    && (AllSaved(r.w) ==> JudgedWell(r, before, after, row))
  }

  /** A failure that is the world's verdict, or that comes from a lost save, meets the promise. */
  lemma FailureFits(r: Run, j: Job, kind: string, saved: bool, before: Library, after: Library, first: Job, prior: Job)
    requires j.attempts == r.job.attempts
    requires prior.state != Done || (prior == first && after == before)
    requires WholeOrUntouched(r, before, after)
    requires AllSaved(r.w) ==> saved && Judge(r.w) == Broken(kind) && after == Left(r.w, r.target, before)
    ensures Outcome(r, before, after, first, if saved then FailureAs(r.power, j, kind, r.later, r.now) else prior)
  {
  }

  /** On the deferred path a failing sidecar leaves the file in its place while the row is queued again, or failed:
      the target holds the download, unless it is the very file the sidecar's failing write was to. */
  lemma FailedSidecarLeavesTheFile(r: Run, before: Library, after: Library, first: Job, row: Job)
    requires Outcome(r, before, after, first, row) && AllSaved(r.w)
    requires Judge(r.w) == Broken("storage_metadata")
    ensures after == WithSidecar(r.w, r.target, before[r.target := r.w.download.value.bytes])
    ensures Base(r.target) != SIDECAR || r.w.sidecar.Unopened?
      ==> r.target in after && after[r.target] == r.w.download.value.bytes
    ensures row.state == Queued <==> r.power.maxAttempts > 0 && r.job.attempts < r.power.maxAttempts
    ensures row.state == Queued || row.state == Failed
  {
    SidecarIff(r.target);
  }

  /** What the row says after a run whose saves all reach the database, and why. */
  lemma RowTells(r: Run, before: Library, after: Library, first: Job, row: Job)
    requires Outcome(r, before, after, first, row) && AllSaved(r.w)
    ensures row.state == Done <==>
      && r.w.hasSource && r.w.fits && r.w.makesDir && r.w.download.Some? && r.w.renames
      && (r.w.deferred ==> r.w.sidecar.Whole?)
    ensures !r.w.hasSource ==> row.errKind == "resolve"
    ensures r.w.hasSource && !r.w.fits ==> row.errKind == "disk_headroom"
    ensures r.w.hasSource && r.w.fits && (!r.w.makesDir || (r.w.download.Some? && !r.w.renames))
      ==> row.errKind == "storage_perm_lost"
    ensures r.w.hasSource && r.w.fits && r.w.makesDir && r.w.download.None? ==> row.errKind == "truncated"
    ensures r.w.hasSource && r.w.fits && r.w.makesDir && r.w.download.Some? && r.w.renames
      ==> row.errKind == if r.w.sidecar.Whole? then r.job.errKind else "storage_metadata"
    ensures row.state == Done ==>
      && row.sha256 == r.w.download.value.digest && row.bytesTotal == row.bytesDone == r.w.download.value.count
      && row.partsDone == r.w.download.value.parts && row.targetPath == r.target && row.attempts == r.job.attempts
  {
  }

  /** What such a run leaves in the library, name by name: the file under the target, the sidecar beside it, no
      remux output, and everything else as it was. */
  lemma LibraryTells(r: Run, before: Library, after: Library, first: Job, row: Job, name: string)
    requires Outcome(r, before, after, first, row) && AllSaved(r.w)
    ensures
      var there := r.w.hasSource && r.w.fits && r.w.makesDir && r.w.download.Some?;
      var remuxes := there && !r.w.deferred && r.w.ffmpeg;
      Lookup(after, name)
      == if there && r.w.renames && !r.w.sidecar.Unopened? && name == Dir(r.target) + ".hermit.json"
         then Some(r.w.sidecar.text)
         else if there && r.w.renames && name == r.target
         then (if remuxes && r.w.remux.Some? then r.w.remux else Some(r.w.download.value.bytes))
         else if remuxes && name == r.target + ".tmp" then None
         else Lookup(before, name)
  {
  }

  /** On the path that remuxes, done means that the target holds ffmpeg's output exactly as it came, or the download
      if there is no ffmpeg or it failed, whatever saves were lost; and the output's own name is gone. */
  lemma DoneHoldsTheRemux(r: Run, before: Library, after: Library, first: Job, row: Job)
    requires Outcome(r, before, after, first, row) && row.state == Done && (row != first || after != before)
    requires !r.w.deferred && Base(r.target) != SIDECAR
    ensures r.w.download.Some? && r.target in after
    ensures after[r.target]
         == if r.w.ffmpeg && r.w.remux.Some? then r.w.remux.value else r.w.download.value.bytes
    ensures r.w.ffmpeg ==> r.target + ".tmp" !in after
  {
    SidecarIff(r.target);
    TmpIsNoSidecar(r.target);
  }

  lemma TmpIsNoSidecar(target: string)
    ensures target + ".tmp" != SidecarOf(target) && target + ".tmp" != target
  {
    var side, tmp := SidecarOf(target), target + ".tmp";
    assert side[|side| - 1] == SIDECAR[|SIDECAR| - 1] == 'n';
    assert tmp[|tmp| - 1] == ".tmp"[3] == 'p';
    assert |tmp| == |target| + 4;
  }

  // ---------------------------------------------------------------- saving

  /** Row `i` is the job's, and its only one. */
  ghost predicate At(rows: seq<Job>, i: nat, j: Job) {
    i < |rows| && rows[i].id == j.id && rows[i].episodeId == j.episodeId && UniqueIds(rows)
  }

  lemma RowIs(rows: seq<Job>, i: nat, j: Job)
    requires At(rows, i, j)
    ensures Updated(rows, j) == rows[i := j] && At(rows[i := j], i, j)
  {
  }

  /** A save writes all of the row or, with the database failing, nothing. */
  method Save(table: Table, ghost i: nat, j: Job, saves: bool) returns (ok: bool)
    requires At(table.rows, i, j)
    modifies table
    ensures ok == saves && At(table.rows, i, j)
    ensures table.rows == if saves then old(table.rows)[i := j] else old(table.rows)
  {
    if saves {
      RowIs(table.rows, i, j);
      table.UpdateJob(j);
      assert table.rows == Updated(old(table.rows), j);
    }
    ok := saves;
  }

  /** The failure exit: the failure is recorded, if it can be. */
  method Fail(q: Queue, table: Table, ghost i: nat, r: Run, j: Job, kind: string, saves: bool)
    requires At(table.rows, i, j) && q.power == r.power && Timed(r) && j.attempts == r.job.attempts
    modifies table
    ensures At(table.rows, i, j)
    ensures table.rows
         == if saves then old(table.rows)[i := FailureAs(r.power, j, kind, r.later, r.now)] else old(table.rows)
  {
    if saves {
      ghost var f := FailureOf(r, j, kind);
      RowIs(table.rows, i, f);
      q.FailJob(table, j, kind, r.now);
    }
  }

  lemma FailureOf(r: Run, j: Job, kind: string) returns (f: Job)
    requires Timed(r) && j.attempts == r.job.attempts
    ensures f == FailureAs(r.power, j, kind, r.later, r.now) == Failure(r.power, j, kind, r.now)
    ensures f.id == j.id && f.episodeId == j.episodeId
  {
    f := FailureAs(r.power, j, kind, r.later, r.now);
  }

  // ---------------------------------------------------------------- the run

  /** What holds of the job and its row from the download on. */
  ghost predicate Underway(q: Queue, rows: seq<Job>, i: nat, r: Run, j: Job) {
    && At(rows, i, j) && rows[i].state != Done && j.attempts == r.job.attempts && j.errKind == r.job.errKind
    && q.power == r.power && Timed(r) && Downloads(r.w)
  }

  /** The sidecar is written in place: a failing write leaves what was written. */
  method WriteSidecar(disk: Disk, r: Run) returns (ok: bool)
    modifies disk`library
    ensures ok == r.w.sidecar.Whole? && disk.library == WithSidecar(r.w, r.target, old(disk.library))
  {
    ok := r.w.sidecar.Whole?;
    if !r.w.sidecar.Unopened? {
      disk.library := disk.library[SidecarOf(r.target) := r.w.sidecar.text];
    }
  }

  /** Publication without a remux: rename the staged file, write the sidecar, finish the row. */
  method PublishDeferred(q: Queue, table: Table, disk: Disk, ghost i: nat, r: Run, j: Job, k: nat, ghost first: Job)
    requires Underway(q, table.rows, i, r, j) && Describes(j, r.w.download.value, r.target)
    requires r.w.deferred && disk.staged == Some(r.w.download.value.bytes)
    modifies table, disk`library
    ensures At(table.rows, i, j) && table.rows == old(table.rows)[i := table.rows[i]]
    ensures Outcome(r, old(disk.library), disk.library, first, table.rows[i])
  {
    ghost var prior, before := table.rows[i], disk.library;
    var saves := SaveAt(r.w, k);
    if !r.w.renames {
      Fail(q, table, i, r, j, "storage_perm_lost", saves);
      FailureFits(r, j, "storage_perm_lost", saves, before, disk.library, first, prior);
      return;
    }
    disk.library := disk.library[r.target := disk.staged.value];
    var ok := WriteSidecar(disk, r);
    if !ok {
      Fail(q, table, i, r, j, "storage_metadata", saves);
      FailureFits(r, j, "storage_metadata", saves, before, disk.library, first, prior);
      return;
    }
    var _ := Save(table, i, j.(state := Done, finishedAt := r.now), saves);
  }

  /** The last steps of the other path: the staged or remuxed file is renamed, the row says done, and only then
      the sidecar is written. */
  method PublishFile(q: Queue, table: Table, disk: Disk, ghost i: nat, r: Run, j: Job, k: nat, file: seq<byte>,
                     ghost before: Library, ghost first: Job)
    requires Underway(q, table.rows, i, r, j) && Describes(j, r.w.download.value, r.target)
    requires !r.w.deferred && file == File(r.w) && disk.library == AfterRemux(r.w, r.target, before)
    modifies table, disk`library
    ensures At(table.rows, i, j) && table.rows == old(table.rows)[i := table.rows[i]]
    ensures Outcome(r, before, disk.library, first, table.rows[i])
  {
    ghost var prior := table.rows[i];
    if !r.w.renames {
      Fail(q, table, i, r, j, "storage_perm_lost", SaveAt(r.w, k));
      FailureFits(r, j, "storage_perm_lost", SaveAt(r.w, k), before, disk.library, first, prior);
      return;
    }
    disk.library := disk.library[r.target := file];
    var d := j.(state := Done);
    var ok := Save(table, i, d, SaveAt(r.w, k));
    if !ok {
      return;
    }
    ok := WriteSidecar(disk, r);
    if ok {
      var _ := Save(table, i, d.(finishedAt := r.now), SaveAt(r.w, k + 1));
    } else {
      var _ := Save(table, i, d.(errKind := "storage_metadata"), SaveAt(r.w, k + 1));
    }
  }

  /** Everything after the download. */
  method FinishRun(q: Queue, table: Table, disk: Disk, ghost i: nat, r: Run, j: Job, k: nat, ghost first: Job)
    requires Underway(q, table.rows, i, r, j) && disk.staged == Some(r.w.download.value.bytes)
    modifies table, disk`library
    ensures At(table.rows, i, j) && table.rows == old(table.rows)[i := table.rows[i]]
    ensures Outcome(r, old(disk.library), disk.library, first, table.rows[i])
  {
    var got := r.w.download.value;
    var d := j.(targetPath := r.target, sha256 := got.digest, bytesTotal := got.count, bytesDone := got.count,
                partsDone := got.parts);
    if r.w.deferred {
      PublishDeferred(q, table, disk, i, r, d, k, first);
      return;
    }
    ghost var before := disk.library;
    var file := disk.staged.value;
    if r.w.ffmpeg {
      d := d.(state := Remuxing);
      ghost var prior := table.rows[i];
      var ok := Save(table, i, d, SaveAt(r.w, k));
      if !ok {
        Fail(q, table, i, r, d, "database", SaveAt(r.w, k + 1));
        FailureFits(r, d, "database", SaveAt(r.w, k + 1), before, before, first, prior);
        return;
      }
      disk.library := disk.library - {r.target + ".tmp"};
      if r.w.remux.Some? {
        file := r.w.remux.value;
      }
    }
    PublishFile(q, table, disk, i, r, d, k + 1, file, before, first);
  }

  /** The steps before the download: the kind of failure they end with, if any, and whether it can be saved. */
  method Prepare(table: Table, ghost i: nat, job: Job, w: World)
    returns (j: Job, failed: Option<(string, bool)>)
    requires At(table.rows, i, job)
    modifies table
    ensures At(table.rows, i, job) && table.rows == old(table.rows)[i := table.rows[i]]
    ensures table.rows[i].state != Done || (failed.Some? && table.rows == old(table.rows))
    ensures j.id == job.id && j.episodeId == job.episodeId && j.attempts == job.attempts && j.errKind == job.errKind
    ensures failed.None? ==> Downloads(w)
    ensures failed.Some? && AllSaved(w) ==> failed.value.1 && Judge(w) == Broken(failed.value.0) && !Downloads(w)
  {
    j := job.(state := Downloading);
    var ok := Save(table, i, j, SaveAt(w, 0));
    if !ok {
      return j, Some(("database", SaveAt(w, 1)));
    }
    if !w.hasSource {
      return j, Some(("resolve", SaveAt(w, 1)));
    }
    if !w.fits {
      return j, Some(("disk_headroom", SaveAt(w, 1)));
    }
    if !w.makesDir {
      return j, Some(("storage_perm_lost", SaveAt(w, 1)));
    }
    j := j.(tmpPath := "download.part");
    ok := Save(table, i, j, SaveAt(w, 1));
    if !ok {
      return j, Some(("database", SaveAt(w, 2)));
    }
    if w.download.None? {
      return j, Some(("truncated", SaveAt(w, 2)));
    }
    failed := None;
  }

  /** The whole run, whatever has become of the row since the job was listed: only this job's row changes, the
      staging directory is gone at the end however it ends, and row and library are as promised. */
  method RunJob(q: Queue, table: Table, disk: Disk, ghost i: nat, r: Run)
    requires At(table.rows, i, r.job) && q.power == r.power && Timed(r)
    modifies table, disk
    ensures disk.staged.None?
    ensures At(table.rows, i, r.job) && table.rows == old(table.rows)[i := table.rows[i]]
    ensures Outcome(r, old(disk.library), disk.library, old(table.rows)[i], table.rows[i])
  {
    ghost var first := table.rows[i];
    disk.staged := None;
    var j, failed := Prepare(table, i, r.job, r.w);
    if failed.Some? {
      ghost var prior := table.rows[i];
      Fail(q, table, i, r, j, failed.value.0, failed.value.1);
      FailureFits(r, j, failed.value.0, failed.value.1, disk.library, disk.library, first, prior);
      return;
    }
    disk.staged := Some(r.w.download.value.bytes);
    FinishRun(q, table, disk, i, r, j, 2, first);
    disk.staged := None;
  }

  /** With the download's own guarantee: after a run on the deferred path that makes its row say done for a ranged
      source, the row's digest and byte counts are the source's, and the target holds the source's bytes, all of
      them, exactly if it does not have the sidecar's name; otherwise it holds the sidecar. Nothing else changes. */
  lemma DoneHoldsTheSource(
      resource: seq<byte>, partSize: int, workers: nat, digest: seq<byte> -> string, acts: seq<D.Action>, t: D.State,
      r: Run, before: Library, after: Library, first: Job, row: Job)
    requires Sizes(|resource|, PartSize(partSize))
    requires var c := D.Configured(resource, partSize, digest);
             D.Run(c, D.Initial(workers, map[], None), acts) == Some(t)
    requires t.main.Returned? && t.main.outcome.Success? && t.out.dest.Some?
    requires r.w.deferred && r.w.download == Some(Received(t.out.dest.value, t.main.outcome.bytes,
                                                           t.main.outcome.digest, t.main.outcome.parts))
    requires Outcome(r, before, after, first, row) && row.state == Done && (row != first || after != before)
    ensures row.sha256 == digest(resource) && row.bytesTotal == row.bytesDone == |resource|
    ensures r.w.sidecar.Whole? && r.target in after
    ensures after[r.target] == if Base(r.target) == SIDECAR then r.w.sidecar.text else resource
    ensures after == before[r.target := resource][SidecarOf(r.target) := r.w.sidecar.text]
  {
    T.SuccessIsTheResource(resource, partSize, workers, digest, None, acts, t, t.main.outcome);
    SidecarIff(r.target);
  }
}
