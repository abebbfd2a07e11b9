/** The job table (internal/db/store.go, lines 204-323): rows with unique ids, the upsert, and the query that
    lists the jobs that are due. The SQL engine is a sequence of rows; its order of ties is left open. */
module Store {
  import opened Times

  datatype JobState = Queued | Downloading | Remuxing | Done | Failed

  datatype Job = Job(
    id: int, episodeId: int, provider: string, quality: string, state: JobState, priority: int,
    createdAt: string, attempts: int, nextRetryAt: string, finishedAt: nat, errKind: string,
    sha256: string, bytesTotal: int, bytesDone: int, partsDone: int, targetPath: string, tmpPath: string)

  // ---------------------------------------------------------------- listing

  /** Queued, and without a retry time or with one that is not later than now, as text. */
  predicate Due(j: Job, now: string) {
    j.state == Queued && (j.nextRetryAt == "" || TextAtMost(j.nextRetryAt, now))
  }

  /** The order of the listing: by priority, then by the stored creation time. */
  predicate Before(a: Job, b: Job) {
    a.priority < b.priority || (a.priority == b.priority && TextLess(a.createdAt, b.createdAt))
  }

  lemma {:induction false} TextOrderIsTransitive(a: string, b: string, c: string)
    ensures TextAtMost(a, b) && TextAtMost(b, c) ==> TextAtMost(a, c)
  {
    if a != "" && b != "" && c != "" {
      TextOrderIsTransitive(a[1..], b[1..], c[1..]);
    }
  }

  lemma BeforeIsTransitive(a: Job, b: Job, c: Job)
    ensures !Before(b, a) && !Before(c, b) ==> !Before(c, a)
    ensures Before(a, b) ==> !Before(b, a)
  {
    TextOrderIsTransitive(a.createdAt, b.createdAt, c.createdAt);
    OneIsLess(a.createdAt, b.createdAt);
  }

  ghost predicate InOrder(jobs: seq<Job>) {
    forall i, j | 0 <= i < j < |jobs| :: !Before(jobs[j], jobs[i])
  }

  function RowLimit(limit: int): int {
    if limit <= 0 || limit > 1000 then 200 else limit
  }

  /** The due rows, as a multiset. */
  function DueRows(rows: seq<Job>, now: string): multiset<Job> {
    if rows == [] then multiset{}
    else DueRows(rows[..|rows| - 1], now)
         + (if Due(rows[|rows| - 1], now) then multiset{rows[|rows| - 1]} else multiset{})
  }

  /** An answer of the query: the first `limit` due rows of some sorted list of all of them. */
  ghost predicate Listing(rows: seq<Job>, now: string, limit: int, out: seq<Job>) {
    exists all: seq<Job> ::
      multiset(all) == DueRows(rows, now) && InOrder(all)
      && out == if |all| > RowLimit(limit) then all[..RowLimit(limit)] else all
  }

  lemma {:induction false} DueRowsAre(rows: seq<Job>, now: string, j: Job)
    ensures j in DueRows(rows, now) <==> j in rows && Due(j, now)
  {
    if rows != [] {
      DueRowsAre(rows[..|rows| - 1], now, j);
      assert rows == rows[..|rows| - 1] + [rows[|rows| - 1]];
    }
  }

  /** What every listing promises: only due rows, in order, no more than asked for, and no due row left out
      that comes before a listed one. */
  lemma ListingIsFair(rows: seq<Job>, now: string, limit: int, out: seq<Job>)
    requires Listing(rows, now, limit, out)
    ensures forall j | j in out :: j in rows && Due(j, now)
    ensures InOrder(out) && |out| <= RowLimit(limit)
    ensures forall j, k | j in out && k in rows && Due(k, now) && k !in out :: !Before(k, j)
    ensures |out| < RowLimit(limit) ==> forall k | k in rows && Due(k, now) :: k in out
  {
    var all: seq<Job> :| multiset(all) == DueRows(rows, now) && InOrder(all)
      && out == if |all| > RowLimit(limit) then all[..RowLimit(limit)] else all;
    AllAreDue(rows, now, all);
    forall j, k | j in out && k in all && k !in out ensures !Before(k, j) {
      var a :| 0 <= a < |out| && out[a] == j;
      var b :| 0 <= b < |all| && all[b] == k;
      assert all[a] == j && a < b;
    }
  }

  lemma DueTells(j: Job, now: string)
    ensures Due(j, now) <==>
      j.state == Queued && (j.nextRetryAt == "" || j.nextRetryAt == now || TextLess(j.nextRetryAt, now))
  {
    OneIsLess(j.nextRetryAt, now);
  }

  lemma NotBeforeTells(a: Job, b: Job)
    ensures !Before(b, a) <==>
      a.priority < b.priority || (a.priority == b.priority && !TextLess(b.createdAt, a.createdAt))
  {
  }

  /** The same in plain terms. A listed job is queued and its retry time, if any, is not later than now; it does not
      come after a job listed later, nor after a due job that is left out: the least priority number is first, and
      then what was created first. No more are listed than asked for, or 200 if that number is no good, and with
      fewer every due job is there. */
  lemma ListingTells(rows: seq<Job>, now: string, limit: int, out: seq<Job>, i: nat, k: Job)
    requires Listing(rows, now, limit, out) && i < |out|
    ensures out[i] in rows && out[i].state == Queued
    ensures out[i].nextRetryAt == "" || out[i].nextRetryAt == now || TextLess(out[i].nextRetryAt, now)
    ensures k in out[i + 1..] || (k in rows && k !in out && k.state == Queued
                                  && (k.nextRetryAt == "" || k.nextRetryAt == now || TextLess(k.nextRetryAt, now)))
      ==> out[i].priority < k.priority
          || (out[i].priority == k.priority && !TextLess(k.createdAt, out[i].createdAt))
    ensures |out| <= if 1 <= limit <= 1000 then limit else 200
  {
    ListingIsFair(rows, now, limit, out);
    DueTells(out[i], now);
    DueTells(k, now);
    NotBeforeTells(out[i], k);
    assert out[i] in out;
  }

  lemma ShortListingTells(rows: seq<Job>, now: string, limit: int, out: seq<Job>, k: Job)
    requires Listing(rows, now, limit, out) && |out| < (if 1 <= limit <= 1000 then limit else 200)
    requires k in rows && k.state == Queued
    requires k.nextRetryAt == "" || k.nextRetryAt == now || TextLess(k.nextRetryAt, now)
    ensures k in out
  {
    ListingIsFair(rows, now, limit, out);
    DueTells(k, now);
  }

  lemma AllAreDue(rows: seq<Job>, now: string, all: seq<Job>)
    requires multiset(all) == DueRows(rows, now)
    ensures forall j :: j in all <==> j in rows && Due(j, now)
  {
    forall j ensures j in all <==> j in rows && Due(j, now) {
      DueRowsAre(rows, now, j);
      assert j in all <==> j in multiset(all);
    }
  }

  ghost predicate UniqueIds(rows: seq<Job>) {
    forall i, j | 0 <= i < j < |rows| :: rows[i].id != rows[j].id
  }

  lemma {:induction false} DueRowsOnce(rows: seq<Job>, now: string, j: Job)
    requires UniqueIds(rows)
    ensures DueRows(rows, now)[j] <= 1
  {
    if rows != [] {
      var before, last := rows[..|rows| - 1], rows[|rows| - 1];
      DueRowsOnce(before, now, j);
      DueRowsAre(before, now, j);
      assert forall i | 0 <= i < |before| :: rows[i] == before[i] && rows[i].id != last.id;
    }
  }

  lemma CountedTwice<T>(all: seq<T>, i: nat, j: nat)
    requires i < j < |all| && all[i] == all[j]
    ensures multiset(all)[all[i]] >= 2
  {
    assert all == all[..j] + all[j..];
    assert all[i] in all[..j] && all[i] in all[j..];
  }

  lemma DueOnce(rows: seq<Job>, now: string, all: seq<Job>, i: nat, j: nat)
    requires UniqueIds(rows) && multiset(all) == DueRows(rows, now) && i < j < |all|
    ensures all[i].id != all[j].id
  {
    assert all[i] in multiset(all) && all[j] in multiset(all);
    DueRowsAre(rows, now, all[i]);
    DueRowsAre(rows, now, all[j]);
    DueRowsOnce(rows, now, all[i]);
    if all[i] == all[j] {
      CountedTwice(all, i, j);
    }
  }

  /** No job is listed twice. */
  lemma ListedOnce(rows: seq<Job>, now: string, limit: int, out: seq<Job>)
    requires UniqueIds(rows) && Listing(rows, now, limit, out)
    ensures forall i, j | 0 <= i < j < |out| :: out[i].id != out[j].id
  {
    var all: seq<Job> :| multiset(all) == DueRows(rows, now) && InOrder(all)
      && out == if |all| > RowLimit(limit) then all[..RowLimit(limit)] else all;
    forall i, j | 0 <= i < j < |out| ensures out[i].id != out[j].id {
      DueOnce(rows, now, all, i, j);
    }
  }

  // ---------------------------------------------------------------- the table

  /** Two rows conflict if they agree on episode, provider and quality; a missing episode never conflicts. */
  predicate Conflict(a: Job, b: Job) {
    a.episodeId != 0 && a.episodeId == b.episodeId && a.provider == b.provider && a.quality == b.quality
  }

  ghost predicate UniqueKeys(rows: seq<Job>) {
    forall i, j | 0 <= i < j < |rows| :: !Conflict(rows[i], rows[j])
  }

  /** What is left of a row that is queued again; its retry time and creation time stay. */
  function Requeued(row: Job, j: Job): Job {
    row.(state := Queued, priority := j.priority, bytesTotal := j.bytesTotal, bytesDone := 0, partsDone := 0,
         attempts := 0, errKind := "", tmpPath := j.tmpPath, targetPath := j.targetPath)
  }

  /** All that the upsert does to the fields of a conflicting row. */
  lemma RequeuedTells(row: Job, j: Job)
    ensures var now := Requeued(row, j);
            && now.state == Queued && now.attempts == 0 && now.bytesDone == 0 && now.partsDone == 0 && now.errKind == ""
            && now.priority == j.priority && now.bytesTotal == j.bytesTotal
            && now.tmpPath == j.tmpPath && now.targetPath == j.targetPath
            && now.id == row.id && now.episodeId == row.episodeId && now.provider == row.provider
            && now.quality == row.quality && now.createdAt == row.createdAt && now.nextRetryAt == row.nextRetryAt
            && now.finishedAt == row.finishedAt && now.sha256 == row.sha256
  {
  }

  class Table {
    var rows: seq<Job>

    ghost predicate Valid()
      reads this
    {
      UniqueIds(rows) && UniqueKeys(rows)
    }

    /** The upsert: a conflicting row is queued again under its old id, any other job gets a new row. */
    method InsertJob(j: Job) returns (id: int)
      requires Valid()
      modifies this
      ensures Valid() && |rows| >= |old(rows)|
      ensures forall i | 0 <= i < |old(rows)| ::
        rows[i] == if old(rows)[i].episodeId == j.episodeId != 0 && old(rows)[i].provider == j.provider
                      && old(rows)[i].quality == j.quality
                   then Requeued(old(rows)[i], j) else old(rows)[i]
      ensures if exists i | 0 <= i < |old(rows)| :: Conflict(old(rows)[i], j)
              then |rows| == |old(rows)| && exists i | 0 <= i < |rows| :: rows[i].id == id && Conflict(rows[i], j)
              else rows == old(rows) + [j.(id := id)] && forall i | 0 <= i < |old(rows)| :: old(rows)[i].id != id
    {
      var next := 1;
      for i := 0 to |rows|
        invariant rows == old(rows) && forall k | 0 <= k < i :: rows[k].id < next
        invariant forall k | 0 <= k < i :: !Conflict(rows[k], j)
      {
        if Conflict(rows[i], j) {
          rows := rows[i := Requeued(rows[i], j)];
          return rows[i].id;
        }
        if rows[i].id >= next {
          next := rows[i].id + 1;
        }
      }
      id := next;
      rows := rows + [j.(id := id)];
    }

    /** `UPDATE job SET … WHERE id = ?`: a row with the job's id is set, but for its episode; every other row stays,
        and a job that has no row changes nothing. */
    method UpdateJob(j: Job)
      modifies this
      ensures |rows| == |old(rows)|
      ensures forall i | 0 <= i < |rows| ::
        rows[i] == if old(rows)[i].id == j.id then j.(episodeId := old(rows)[i].episodeId) else old(rows)[i]
      ensures (forall i | 0 <= i < |rows| :: old(rows)[i].id != j.id) ==> rows == old(rows)
    {
      for i := 0 to |rows|
        invariant |rows| == |old(rows)|
        invariant forall k | 0 <= k < |rows| ::
          rows[k] == if k < i && old(rows)[k].id == j.id then j.(episodeId := old(rows)[k].episodeId) else old(rows)[k]
      {
        if rows[i].id == j.id {
          rows := rows[i := j.(episodeId := rows[i].episodeId)];
        }
      }
    }

    /** The listing of due jobs, kept sorted while the rows are read; equal keys keep the order of the rows. */
    method ListDue(now: string, limit: int) returns (out: seq<Job>)
      ensures Listing(rows, now, limit, out)
    {
      var all: seq<Job> := [];
      for i := 0 to |rows|
        invariant multiset(all) == DueRows(rows[..i], now) && InOrder(all)
      {
        assert rows[..i + 1][..i] == rows[..i];
        if Due(rows[i], now) {
          all := Insert(all, rows[i]);
        }
      }
      assert rows[..|rows|] == rows;
      out := if |all| > RowLimit(limit) then all[..RowLimit(limit)] else all;
    }
  }

  /** The sorted list with one more job, after those it does not come before. */
  method Insert(all: seq<Job>, j: Job) returns (out: seq<Job>)
    requires InOrder(all)
    ensures InOrder(out) && multiset(out) == multiset(all) + multiset{j}
  {
    var k := |all|;
    while k > 0 && Before(j, all[k - 1])
      invariant 0 <= k <= |all|
      invariant forall m | k <= m < |all| :: Before(j, all[m])
    {
      k := k - 1;
    }
    out := all[..k] + [j] + all[k..];
    InsertedInOrder(all, k, j);
    assert all == all[..k] + all[k..];
  }

  lemma InsertedInOrder(all: seq<Job>, k: nat, j: Job)
    requires InOrder(all) && k <= |all| && (k > 0 ==> !Before(j, all[k - 1]))
    requires forall m | k <= m < |all| :: Before(j, all[m])
    ensures InOrder(all[..k] + [j] + all[k..])
  {
    var out := all[..k] + [j] + all[k..];
    forall x, y | 0 <= x < y < |out| ensures !Before(out[y], out[x]) {
      if y == k {
        if x < k - 1 {
          assert !Before(all[k - 1], all[x]);
        }
        BeforeIsTransitive(all[x], all[k - 1], j);
      } else if x == k {
        BeforeIsTransitive(j, all[y - 1], j);
      } else {
        var p, q := if x < k then x else x - 1, if y < k then y else y - 1;
        assert out[x] == all[p] && out[y] == all[q];
      }
    }
  }

  /** The rows after an update. */
  function Updated(rows: seq<Job>, j: Job): (now: seq<Job>)
    ensures |now| == |rows|
    ensures forall i | 0 <= i < |rows| ::
      now[i] == if rows[i].id == j.id then j.(episodeId := rows[i].episodeId) else rows[i]
  {
    seq(|rows|, i requires 0 <= i < |rows| =>
      if rows[i].id == j.id then j.(episodeId := rows[i].episodeId) else rows[i])
  }
}
