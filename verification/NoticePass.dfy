// The second registry pass: workers read notice files from the archives the first pass offered.
module NoticePass {
  import opened Sequences
  import opened LicenseRows
  import opened WorkerPool
  import opened RegistryPasses

  // What reading an archive gave: it could not be read, or these notice files were in it.
  datatype Reply = Unread | Files(names: seq<string>)

  // `failed` and `sections` list rows: those reported as failed, and those whose notices were appended.
  datatype Shelf = Shelf(rows: seq<RowData>, resolved: nat, failed: seq<nat>, sections: seq<nat>)

  function Queue(offers: seq<Offer>, limit: nat): seq<Offer> {
    if |offers| <= limit then offers else offers[..limit]
  }

  function NoticedRow(row: RowData, r: Reply): RowData {
    match r
    case Unread => row
    case Files(names) => if names == [] then row.(noticeSearch := Some(RegistryArchive)) else row.(noticeFiles := Some(names))
  }

  function Shelved(s: Shelf, i: nat, r: Reply): Shelf
    requires i < |s.rows|
  {
    var found := r.Files? && r.names != [];
    Shelf(s.rows[i := NoticedRow(s.rows[i], r)],
          s.resolved + (if found then 1 else 0),
          s.failed + (if r.Unread? then [i] else []),
          s.sections + (if found then [i] else []))
  }

  function Archives(queue: seq<Offer>, replies: seq<Reply>): (Shelf, nat) -> Shelf {
    (s: Shelf, job: nat) =>
      if job < |queue| && job < |replies| && queue[job].row < |s.rows| then Shelved(s, queue[job].row, replies[job]) else s
  }

  // Different existing rows without a notice, one reply each.
  ghost predicate Fetchable(rows: seq<RowData>, queue: seq<Offer>, replies: seq<Reply>) {
    && |replies| == |queue| && OneEach(queue)
    && forall job :: 0 <= job < |queue| ==> queue[job].row < |rows| && !HasNotice(rows[queue[job].row])
  }

  // The queue cut from the offers of a first pass is of this kind.
  lemma QueueFetchable(rows: seq<RowData>, candidates: seq<nat>, answers: seq<Answer>, size: nat, schedule: seq<nat>, limit: nat, replies: seq<Reply>)
    requires WellPosed(rows, candidates, answers)
    requires |replies| == |Queue(FirstPass(rows, candidates, answers, size, schedule).shared.offers, limit)|
    ensures var books := FirstPass(rows, candidates, answers, size, schedule).shared;
            Fetchable(books.rows, Queue(books.offers, limit), replies)
  {
    var p := FirstPass(rows, candidates, answers, size, schedule);
    FirstPassBooks(rows, candidates, answers, size, schedule);
    OffersFacts(rows, candidates, answers, p.finished);
    var queue := Queue(p.shared.offers, limit);
    forall job | 0 <= job < |queue|
      ensures queue[job].row < |p.shared.rows| && !HasNotice(p.shared.rows[queue[job].row])
    {
      var o := queue[job];
      assert o in p.shared.offers;
      NoticesKept(p.shared, rows, candidates, answers, p.finished, o.row);
    }
  }

  // The first pass changes no notice.
  lemma NoticesKept(b: Books, rows: seq<RowData>, candidates: seq<nat>, answers: seq<Answer>, log: seq<nat>, i: nat)
    requires WellPosed(rows, candidates, answers) && JobLog(log, |candidates|)
    requires BooksOf(b, rows, candidates, answers, log) && i < |rows|
    ensures |b.rows| == |rows| && b.rows[i].noticeFiles == rows[i].noticeFiles
  {
    if i in candidates {
      var job :| 0 <= job < |candidates| && candidates[job] == i;
    }
  }

  // ---------------------------------------------------------------- what the finished jobs leave

  ghost predicate ShelfOf(s: Shelf, rows: seq<RowData>, queue: seq<Offer>, replies: seq<Reply>, log: seq<nat>)
    requires Fetchable(rows, queue, replies) && JobLog(log, |queue|)
  {
    && |s.rows| == |rows|
    && (forall job :: 0 <= job < |queue| ==>
          s.rows[queue[job].row] == if job in log then NoticedRow(rows[queue[job].row], replies[job]) else rows[queue[job].row])
    && (forall i :: 0 <= i < |rows| && !Queued(queue, i) ==> s.rows[i] == rows[i])
    && s.resolved == |s.sections| && |s.sections| + |s.failed| <= |log|
    && (forall i :: i in s.sections <==> exists job :: job in log && queue[job].row == i && replies[job].Files? && replies[job].names != [])
    && (forall i :: i in s.failed <==> exists job :: job in log && queue[job].row == i && replies[job].Unread?)
    && Distinct(s.sections) && Distinct(s.failed)
  }

  predicate Queued(queue: seq<Offer>, i: nat) {
    exists job :: 0 <= job < |queue| && queue[job].row == i
  }

  lemma AppendDistinct(s: seq<nat>, x: nat)
    requires Distinct(s) && x !in s
    ensures Distinct(s + [x]) && Distinct(s + [])
  {
    assert s + [] == s;
  }

  lemma ShelvedKeeps(s: Shelf, rows: seq<RowData>, queue: seq<Offer>, replies: seq<Reply>, front: seq<nat>, job: nat)
    requires Fetchable(rows, queue, replies) && JobLog(front, |queue|)
    requires ShelfOf(s, rows, queue, replies, front) && job < |queue| && job !in front
    ensures queue[job].row < |s.rows| && JobLog(front + [job], |queue|)
    ensures ShelfOf(Shelved(s, queue[job].row, replies[job]), rows, queue, replies, front + [job])
  {
    var log := front + [job];
    assert forall j :: j in log <==> j in front || j == job;
    assert forall j :: 0 <= j < |queue| && j != job ==> queue[j].row != queue[job].row;
    assert Queued(queue, queue[job].row);
    assert queue[job].row !in s.sections && queue[job].row !in s.failed;
    AppendDistinct(s.sections, queue[job].row);
    AppendDistinct(s.failed, queue[job].row);
  }

  lemma {:induction false} ShelfOfLog(rows: seq<RowData>, queue: seq<Offer>, replies: seq<Reply>, log: seq<nat>)
    requires Fetchable(rows, queue, replies) && JobLog(log, |queue|)
    ensures ShelfOf(Fold(Shelf(rows, 0, [], []), log, Archives(queue, replies)), rows, queue, replies, log)
  {
    if log != [] {
      var front, job := log[..|log| - 1], log[|log| - 1];
      assert log == front + [job];
      assert job in log && job !in front && forall j :: j in front ==> j in log;
      ShelfOfLog(rows, queue, replies, front);
      ShelvedKeeps(Fold(Shelf(rows, 0, [], []), front, Archives(queue, replies)), rows, queue, replies, front, job);
    }
  }

  // The state the workers share, as they update it.
  class ArchivePass {
    const queue: seq<Offer>
    const replies: seq<Reply>
    var cursor: nat
    var attempted: nat
    var workers: seq<Worker>
    var rows: seq<RowData>
    var resolved: nat
    var failed: seq<nat>
    var sections: seq<nat>
    ghost var finished: seq<nat>

    ghost function State(): Pool<Shelf>
      reads this
    {
      Pool(cursor, attempted, workers, Shelf(rows, resolved, failed, sections), finished)
    }

    ghost predicate Valid()
      reads this
    {
      && |replies| == |queue|
      && (forall job :: 0 <= job < |queue| ==> queue[job].row < |rows|)
      && (forall v :: 0 <= v < |workers| && workers[v].Waiting? ==> workers[v].job < |queue|)
    }

    constructor (rows: seq<RowData>, queue: seq<Offer>, replies: seq<Reply>, concurrency: nat)
      requires |replies| == |queue| && forall job :: 0 <= job < |queue| ==> queue[job].row < |rows|
      ensures Valid() && this.queue == queue && this.replies == replies
      ensures State() == Start(if concurrency < |queue| then concurrency else |queue|, Shelf(rows, 0, [], []))
    {
      this.queue, this.replies := queue, replies;
      cursor, attempted, resolved, failed, sections, finished := 0, 0, 0, [], [], [];
      this.rows := rows;
      workers := seq(if concurrency < |queue| then concurrency else |queue|, _ => Looking);
    }

    // What worker w does between two awaits.
    method Step(w: nat)
      requires Valid() && w < |workers|
      modifies this
      ensures Valid() && State() == Turn(old(State()), w, |queue|, Archives(queue, replies))
    {
      match workers[w]
      case Looking =>
        if cursor < |queue| {
          workers := workers[w := Waiting(cursor)];
          cursor := cursor + 1;
          attempted := attempted + 1;
        } else {
          workers := workers[w := Left];
        }
      case Waiting(job) =>
        Shelve(queue[job].row, replies[job]);
        workers := workers[w := Looking];
        finished := finished + [job];
      case Left =>
    }

    // Any sequence of turns.
    method Turns(schedule: seq<nat>)
      requires Valid()
      modifies this
      ensures Valid() && State() == Run(old(State()), schedule, |queue|, Archives(queue, replies))
    {
      for k := 0 to |schedule|
        invariant Valid() && State() == Run(old(State()), schedule[..k], |queue|, Archives(queue, replies))
      {
        assert schedule[..k + 1][..k] == schedule[..k];
        if schedule[k] < |workers| {
          Step(schedule[k]);
        }
      }
      assert schedule[..|schedule|] == schedule;
    }

    method Shelve(i: nat, r: Reply)
      requires Valid() && i < |rows|
      modifies this`rows, this`resolved, this`failed, this`sections
      ensures Valid()
      ensures Shelf(rows, resolved, failed, sections) == Shelved(old(Shelf(rows, resolved, failed, sections)), i, r)
    {
      match r
      case Unread =>
        failed := failed + [i];
      case Files(names) =>
        if names == [] {
          rows := rows[i := rows[i].(noticeSearch := Some(RegistryArchive))];
        } else {
          rows := rows[i := rows[i].(noticeFiles := Some(names))];
          sections := sections + [i];
          resolved := resolved + 1;
        }
    }
  }

  // ---------------------------------------------------------------- every run

  function SecondPass(rows: seq<RowData>, queue: seq<Offer>, replies: seq<Reply>, size: nat, schedule: seq<nat>): Pool<Shelf> {
    Run(Start(size, Shelf(rows, 0, [], [])), schedule, |queue|, Archives(queue, replies))
  }

  lemma SecondPassShelf(rows: seq<RowData>, queue: seq<Offer>, replies: seq<Reply>, size: nat, schedule: seq<nat>)
    requires Fetchable(rows, queue, replies)
    ensures var p := SecondPass(rows, queue, replies, size, schedule);
            JobLog(p.finished, |queue|) && ShelfOf(p.shared, rows, queue, replies, p.finished)
  {
    EveryRun(size, Shelf(rows, 0, [], []), schedule, |queue|, Archives(queue, replies));
    SharedIsFold(size, Shelf(rows, 0, [], []), schedule, |queue|, Archives(queue, replies));
    ShelfOfLog(rows, queue, replies, SecondPass(rows, queue, replies, size, schedule).finished);
  }

  // A row that has notice files, from before the pass or from some worker, keeps exactly those, whatever the
  // workers do afterwards.
  lemma NoticeNeverOverwritten(rows: seq<RowData>, queue: seq<Offer>, replies: seq<Reply>, size: nat, schedule: seq<nat>, more: seq<nat>, i: nat)
    requires Fetchable(rows, queue, replies) && i < |rows|
    ensures var now := SecondPass(rows, queue, replies, size, schedule).shared.rows;
            var later := SecondPass(rows, queue, replies, size, schedule + more).shared.rows;
            |now| == |later| == |rows| && (HasNotice(now[i]) ==> later[i] == now[i])
  {
    var p, q := SecondPass(rows, queue, replies, size, schedule), SecondPass(rows, queue, replies, size, schedule + more);
    SecondPassShelf(rows, queue, replies, size, schedule);
    SecondPassShelf(rows, queue, replies, size, schedule + more);
    FinishedGrows(Start(size, Shelf(rows, 0, [], [])), schedule, more, |queue|, Archives(queue, replies));
    assert forall job :: job in p.finished ==> job in q.finished;
    if Queued(queue, i) {
      var job :| 0 <= job < |queue| && queue[job].row == i;
    }
  }

  // What is left when every job has finished.
  ghost predicate AllShelved(s: Shelf, rows: seq<RowData>, queue: seq<Offer>, replies: seq<Reply>)
    requires Fetchable(rows, queue, replies)
  {
    && |s.rows| == |rows|
    && (forall job :: 0 <= job < |queue| ==>
          && s.rows[queue[job].row] == NoticedRow(rows[queue[job].row], replies[job])
          && (queue[job].row in s.failed <==> replies[job].Unread?)
          && (queue[job].row in s.sections <==> replies[job].Files? && replies[job].names != []))
    && (forall i :: 0 <= i < |rows| && !Queued(queue, i) ==> s.rows[i] == rows[i])
    && (forall i :: i in s.failed || i in s.sections ==> Queued(queue, i))
    && Distinct(s.failed) && Distinct(s.sections)
    && s.resolved == |s.sections| && s.resolved + |s.failed| <= |queue|
  }

  lemma FullLog(s: Shelf, rows: seq<RowData>, queue: seq<Offer>, replies: seq<Reply>, log: seq<nat>)
    requires Fetchable(rows, queue, replies) && JobLog(log, |queue|) && ShelfOf(s, rows, queue, replies, log)
    requires |log| == |queue| && forall job: nat :: job < |queue| ==> job in log
    ensures AllShelved(s, rows, queue, replies)
  {
    assert forall j, k :: 0 <= j < |queue| && 0 <= k < |queue| && queue[j].row == queue[k].row ==> j == k;
  }

  // A completed pass read every queued archive once; its rows, counts and lists of rows are those of
  // AllShelved for every schedule, so the lists differ at most in their order.
  lemma CompletePass(rows: seq<RowData>, queue: seq<Offer>, replies: seq<Reply>, size: nat, schedule: seq<nat>)
    requires Fetchable(rows, queue, replies) && (size > 0 || queue == [])
    requires Complete(SecondPass(rows, queue, replies, size, schedule))
    ensures var p := SecondPass(rows, queue, replies, size, schedule);
            p.attempted == |queue| && AllShelved(p.shared, rows, queue, replies)
  {
    var p := SecondPass(rows, queue, replies, size, schedule);
    SecondPassShelf(rows, queue, replies, size, schedule);
    CompleteRun(size, Shelf(rows, 0, [], []), schedule, |queue|, Archives(queue, replies));
    assert forall job: nat :: job in p.finished <==> job in Elements(p.finished);
    FullLog(p.shared, rows, queue, replies, p.finished);
  }
}
