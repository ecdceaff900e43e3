/** Properties of the copy loop of `MigrateTableData`: how the batches tile
    the remaining rows, what the counters end at, when heartbeats are due,
    how many batches a run takes, and how a failing batch stops the run. */
module BatchLoop {
  import opened Wrappers
  import opened Text
  import opened Errors
  import opened Types
  import opened Migration

  /** The rows the given batches reported, added up. */
  function RowsSum(bs: seq<BatchRecord>): int
  {
    if bs == [] then 0 else bs[0].rows + RowsSum(bs[1..])
  }

  /** The batches that completed: all of them, or all but the failed last one. */
  function Completed(r: LoopResult): seq<BatchRecord>
  {
    if r.err.Some? && |r.batches| > 0 then r.batches[..|r.batches| - 1] else r.batches
  }

  /** Batches run back to back from offset `start`: numbered consecutively
      after `number`, each starting below the total, where the previous one
      ended, and covering the configured size cut down to the rows left. */
  ghost predicate BackToBack(bs: seq<BatchRecord>, batchSize: int, total: int, start: int, number: int)
  {
    && (forall k :: 0 <= k < |bs| ==>
          bs[k].number == number + k + 1 && bs[k].offset < total
          && bs[k].size == ClampedSize(batchSize, bs[k].offset, total))
    && (|bs| > 0 ==> bs[0].offset == start)
    && (forall i, j :: 0 <= i && j == i + 1 && j < |bs| ==> bs[j].offset == bs[i].offset + bs[i].size)
  }

  /** Every batch of a run is a call of the batch step on its own page: the
      rows it records are what the step returned, and only a failed last
      batch returned an error. */
  ghost predicate Recorded(job: CopyJob, bs: seq<BatchRecord>, failedLast: bool)
    decreases |bs|
  {
    bs == [] ||
    (&& bs[0].rows == job.batch(bs[0].size, bs[0].offset).0
     && (job.batch(bs[0].size, bs[0].offset).1.Some? <==> failedLast && |bs| == 1)
     && Recorded(job, bs[1..], failedLast))
  }

  lemma CopyLoopShape(job: CopyJob, p: Progress)
    requires ValidJob(job)
    ensures var r := CopyLoop(job, p);
            && BackToBack(r.batches, job.batchSize, job.total, p.offset, p.batchCount)
            && Recorded(job, r.batches, r.err.Some?)
            && (p.offset >= job.total ==> r == LoopResult(None, [], [], p))
  {
    CopyLoopTiles(job, p);
    TilesBackToBack(CopyLoop(job, p).batches, job.batchSize, job.total, p.offset, p.batchCount);
    CopyLoopRecorded(job, p);
  }

  /** The same tiling, batch after batch. */
  ghost predicate Tiles(bs: seq<BatchRecord>, batchSize: int, total: int, start: int, number: int)
    decreases |bs|
  {
    bs == [] ||
    (&& start < total
     && bs[0].number == number + 1 && bs[0].offset == start
     && bs[0].size == ClampedSize(batchSize, start, total)
     && Tiles(bs[1..], batchSize, total, start + bs[0].size, number + 1))
  }

  lemma {:induction false} CopyLoopTiles(job: CopyJob, p: Progress)
    requires ValidJob(job)
    ensures Tiles(CopyLoop(job, p).batches, job.batchSize, job.total, p.offset, p.batchCount)
    decreases job.total - p.offset
  {
    if p.offset < job.total {
      var size := ClampedSize(job.batchSize, p.offset, job.total);
      var out := job.batch(size, p.offset);
      var record := BatchRecord(p.batchCount + 1, p.offset, size, out.0);
      if out.1.None? {
        var next := Progress(p.offset + size, p.migratedRows + out.0, p.batchCount + 1);
        var rest := CopyLoop(job, next).batches;
        CopyLoopTiles(job, next);
        CopyLoopRound(job, p);
        assert ([record] + rest)[1..] == rest;
      } else {
        CopyLoopFailedRound(job, p);
        assert [record][1..] == [];
      }
    }
  }

  lemma {:induction false} TilesBackToBack(bs: seq<BatchRecord>, batchSize: int, total: int, start: int, number: int)
    requires Tiles(bs, batchSize, total, start, number)
    ensures BackToBack(bs, batchSize, total, start, number)
    decreases |bs|
  {
    if bs != [] {
      var rest := bs[1..];
      TilesBackToBack(rest, batchSize, total, start + bs[0].size, number + 1);
      forall k | 0 < k < |bs|
        ensures bs[k] == rest[k - 1]
      {
      }
      forall i, j | 0 <= i && j == i + 1 && j < |bs|
        ensures bs[j].offset == bs[i].offset + bs[i].size
      {
        if i > 0 {
          assert bs[i] == rest[i - 1] && bs[j] == rest[j - 1];
        }
      }
    }
  }

  lemma {:induction false} CopyLoopRecorded(job: CopyJob, p: Progress)
    requires ValidJob(job)
    ensures var r := CopyLoop(job, p);
            Recorded(job, r.batches, r.err.Some?)
    decreases job.total - p.offset
  {
    if p.offset < job.total {
      var size := ClampedSize(job.batchSize, p.offset, job.total);
      var out := job.batch(size, p.offset);
      var record := BatchRecord(p.batchCount + 1, p.offset, size, out.0);
      if out.1.None? {
        var next := Progress(p.offset + size, p.migratedRows + out.0, p.batchCount + 1);
        var rest := CopyLoop(job, next).batches;
        CopyLoopRecorded(job, next);
        CopyLoopRound(job, p);
        assert ([record] + rest)[1..] == rest;
      } else {
        CopyLoopFailedRound(job, p);
        assert [record][1..] == [];
      }
    }
  }

  /** Every batch reads at least one row and at most the batch size, and no
      batch reads past the total. */
  lemma BatchesStayWithinRows(job: CopyJob, p: Progress)
    requires ValidJob(job)
    ensures var bs := CopyLoop(job, p).batches;
            forall k :: 0 <= k < |bs| ==>
              0 < bs[k].size <= job.batchSize && bs[k].offset + bs[k].size <= job.total
  {
    CopyLoopShape(job, p);
  }

  /** Where a run that never failed ends: at the total (or where it started,
      when that is already past the total), having added every row its
      batches reported to the migrated count and numbered every batch. */
  lemma {:induction false} CopyLoopFinishes(job: CopyJob, p: Progress)
    requires ValidJob(job)
    requires CopyLoop(job, p).err.None?
    ensures var r := CopyLoop(job, p);
            && r.final.offset == (if p.offset < job.total then job.total else p.offset)
            && r.final.migratedRows == p.migratedRows + RowsSum(r.batches)
            && r.final.batchCount == p.batchCount + |r.batches|
    decreases job.total - p.offset
  {
    var r := CopyLoop(job, p);
    if p.offset < job.total {
      var number := p.batchCount + 1;
      var size := ClampedSize(job.batchSize, p.offset, job.total);
      var out := job.batch(size, p.offset);
      var next := Progress(p.offset + size, p.migratedRows + out.0, number);
      var rest := CopyLoop(job, next);
      CopyLoopFinishes(job, next);
      assert r.batches[1..] == rest.batches;
    }
  }

  /** Where a run that failed stops: at the failed batch's offset, with a
      fatal error wrapping the batch's own error, having added only the rows
      of the batches before it. */
  lemma {:induction false} CopyLoopStops(job: CopyJob, p: Progress)
    requires ValidJob(job)
    requires CopyLoop(job, p).err.Some?
    ensures var r := CopyLoop(job, p);
            && |r.batches| > 0
            && var last := r.batches[|r.batches| - 1];
            && job.batch(last.size, last.offset).1.Some?
            && r.err == Some(BatchFailure(last.offset, job.batch(last.size, last.offset).1.value))
            && r.final == Progress(last.offset, p.migratedRows + RowsSum(Completed(r)), p.batchCount + |r.batches|)
    decreases job.total - p.offset
  {
    var r := CopyLoop(job, p);
    var number := p.batchCount + 1;
    var size := ClampedSize(job.batchSize, p.offset, job.total);
    var out := job.batch(size, p.offset);
    var record := BatchRecord(number, p.offset, size, out.0);
    if out.1.None? {
      var next := Progress(p.offset + size, p.migratedRows + out.0, number);
      var rest := CopyLoop(job, next);
      CopyLoopStops(job, next);
      assert r.batches == [record] + rest.batches;
      assert Completed(r) == [record] + Completed(rest);
      assert Completed(r)[1..] == Completed(rest);
    } else {
      assert Completed(r) == [];
    }
  }

  /** The heartbeats due after the completed batches `bs`, starting from
      `base` migrated rows: one after each batch whose number is a multiple
      of the interval, carrying the rows migrated so far. */
  function Beats(bs: seq<BatchRecord>, base: int, interval: int, total: int): seq<Heartbeat>
    requires interval > 0
  {
    if bs == [] then []
    else
      var after := base + bs[0].rows;
      HeartbeatDue(bs[0].number, after, interval, total) + Beats(bs[1..], after, interval, total)
  }

  /** One successful round of the loop: its batch, and any heartbeat it
      emits, come before everything the rest of the loop records. */
  lemma CopyLoopRound(job: CopyJob, p: Progress)
    requires ValidJob(job) && p.offset < job.total
    requires job.batch(ClampedSize(job.batchSize, p.offset, job.total), p.offset).1.None?
    ensures var size := ClampedSize(job.batchSize, p.offset, job.total);
            var rows := job.batch(size, p.offset).0;
            var next := Progress(p.offset + size, p.migratedRows + rows, p.batchCount + 1);
            var r := CopyLoop(job, p);
            var rest := CopyLoop(job, next);
            && r.batches == [BatchRecord(p.batchCount + 1, p.offset, size, rows)] + rest.batches
            && r.err == rest.err && r.final == rest.final
            && r.heartbeats == HeartbeatDue(next.batchCount, next.migratedRows, job.interval, job.total) + rest.heartbeats
            && Completed(r) == [BatchRecord(p.batchCount + 1, p.offset, size, rows)] + Completed(rest)
  {
    var size := ClampedSize(job.batchSize, p.offset, job.total);
    var rows := job.batch(size, p.offset).0;
    var next := Progress(p.offset + size, p.migratedRows + rows, p.batchCount + 1);
    var rest := CopyLoop(job, next);
    var record := BatchRecord(p.batchCount + 1, p.offset, size, rows);
    if rest.err.Some? {
      CopyLoopStops(job, next);
      assert ([record] + rest.batches)[..|rest.batches|] == [record] + rest.batches[..|rest.batches| - 1];
    }
  }

  /** A round whose batch fails ends the loop with that batch alone. */
  lemma CopyLoopFailedRound(job: CopyJob, p: Progress)
    requires ValidJob(job) && p.offset < job.total
    requires job.batch(ClampedSize(job.batchSize, p.offset, job.total), p.offset).1.Some?
    ensures var size := ClampedSize(job.batchSize, p.offset, job.total);
            var out := job.batch(size, p.offset);
            CopyLoop(job, p) == LoopResult(Some(BatchFailure(p.offset, out.1.value)),
                                           [BatchRecord(p.batchCount + 1, p.offset, size, out.0)], [],
                                           Progress(p.offset, p.migratedRows, p.batchCount + 1))
  {
  }

  /** Heartbeats due after a first batch and then the rest. */
  lemma BeatsCons(record: BatchRecord, bs: seq<BatchRecord>, base: int, interval: int, total: int)
    requires interval > 0
    ensures Beats([record] + bs, base, interval, total)
            == HeartbeatDue(record.number, base + record.rows, interval, total) + Beats(bs, base + record.rows, interval, total)
  {
    assert ([record] + bs)[1..] == bs;
  }

  /** The loop emits exactly the heartbeats due after its completed batches. */
  lemma {:induction false} CopyLoopHeartbeats(job: CopyJob, p: Progress)
    requires ValidJob(job)
    ensures var r := CopyLoop(job, p);
            r.heartbeats == Beats(Completed(r), p.migratedRows, job.interval, job.total)
    decreases job.total - p.offset
  {
    if p.offset < job.total {
      var size := ClampedSize(job.batchSize, p.offset, job.total);
      var out := job.batch(size, p.offset);
      if out.1.None? {
        var next := Progress(p.offset + size, p.migratedRows + out.0, p.batchCount + 1);
        var r, rest := CopyLoop(job, p), CopyLoop(job, next);
        var record := BatchRecord(p.batchCount + 1, p.offset, size, out.0);
        CopyLoopRound(job, p);
        calc {
          r.heartbeats;
          HeartbeatDue(next.batchCount, next.migratedRows, job.interval, job.total) + rest.heartbeats;
          { CopyLoopHeartbeats(job, next); }
          HeartbeatDue(next.batchCount, next.migratedRows, job.interval, job.total) + Beats(Completed(rest), next.migratedRows, job.interval, job.total);
          { assert next.batchCount == record.number && next.migratedRows == p.migratedRows + record.rows; }
          HeartbeatDue(record.number, p.migratedRows + record.rows, job.interval, job.total)
            + Beats(Completed(rest), p.migratedRows + record.rows, job.interval, job.total);
          { BeatsCons(record, Completed(rest), p.migratedRows, job.interval, job.total); }
          Beats([record] + Completed(rest), p.migratedRows, job.interval, job.total);
          Beats(Completed(r), p.migratedRows, job.interval, job.total);
        }
      }
    }
  }

  lemma RowsSumOfPrefix(bs: seq<BatchRecord>, k: int)
    requires 1 <= k < |bs|
    ensures RowsSum(bs[..k + 1]) == bs[0].rows + RowsSum(bs[1..][..k])
  {
    assert bs[..k + 1][1..] == bs[1..][..k];
  }

  /** Every heartbeat follows a batch whose number is a multiple of the
      interval, and reports the rows migrated up to and including it. */
  lemma {:induction false} BeatsOnlyOnMultiples(bs: seq<BatchRecord>, base: int, interval: int, total: int, h: Heartbeat)
    requires interval > 0
    requires h in Beats(bs, base, interval, total)
    ensures h.batch % interval == 0 && h.total == total
    ensures exists k :: 0 <= k < |bs| && bs[k].number == h.batch && h.processed == base + RowsSum(bs[..k + 1])
  {
    var after := base + bs[0].rows;
    var tail := bs[1..];
    if h in Beats(tail, after, interval, total) {
      BeatsOnlyOnMultiples(tail, after, interval, total, h);
      var j :| 0 <= j < |tail| && tail[j].number == h.batch && h.processed == after + RowsSum(tail[..j + 1]);
      RowsSumOfPrefix(bs, j + 1);
      assert bs[j + 1] == tail[j];
    } else {
      assert h == Heartbeat(bs[0].number, after, total);
      assert bs[..1][1..] == [];
      assert RowsSum(bs[..1]) == bs[0].rows;
      assert bs[0].number == h.batch && h.processed == base + RowsSum(bs[..0 + 1]);
    }
  }

  /** Every batch whose number is a multiple of the interval is followed by
      its heartbeat. */
  lemma {:induction false} BeatsOnEveryMultiple(bs: seq<BatchRecord>, base: int, interval: int, total: int, k: int)
    requires interval > 0
    requires 0 <= k < |bs| && bs[k].number % interval == 0
    ensures Heartbeat(bs[k].number, base + RowsSum(bs[..k + 1]), total) in Beats(bs, base, interval, total)
  {
    var after := base + bs[0].rows;
    var tail := bs[1..];
    if k > 0 {
      BeatsOnEveryMultiple(tail, after, interval, total, k - 1);
      RowsSumOfPrefix(bs, k);
      assert tail[k - 1] == bs[k];
    } else {
      assert bs[..1][1..] == [];
    }
  }

  /** No batch number is a multiple of the interval: no heartbeat at all. */
  lemma {:induction false} NoBeatsWithoutMultiples(bs: seq<BatchRecord>, base: int, interval: int, total: int)
    requires interval > 0
    requires forall k :: 0 <= k < |bs| ==> bs[k].number % interval != 0
    ensures Beats(bs, base, interval, total) == []
  {
    if bs != [] {
      NoBeatsWithoutMultiples(bs[1..], base + bs[0].rows, interval, total);
    }
  }

  /** A run over `n` remaining rows with no failure takes `n / size` batches
      rounded up: the fewest whose sizes add up to at least `n`. */
  lemma {:induction false} CopyLoopBatchCount(job: CopyJob, p: Progress)
    requires ValidJob(job)
    requires p.offset < job.total
    requires CopyLoop(job, p).err.None?
    ensures var count := |CopyLoop(job, p).batches|;
            (count - 1) * job.batchSize < job.total - p.offset <= count * job.batchSize
    decreases job.total - p.offset
  {
    var number := p.batchCount + 1;
    var size := ClampedSize(job.batchSize, p.offset, job.total);
    var out := job.batch(size, p.offset);
    var next := Progress(p.offset + size, p.migratedRows + out.0, number);
    var rest := CopyLoop(job, next);
    if job.total - p.offset > job.batchSize {
      CopyLoopBatchCount(job, next);
      var m := |rest.batches|;
      assert |CopyLoop(job, p).batches| == m + 1;
      assert (m + 1) * job.batchSize == m * job.batchSize + job.batchSize;
      assert m * job.batchSize == (m - 1) * job.batchSize + job.batchSize;
    } else {
      assert rest.batches == [];
    }
  }

  /** 250 rows in batches of 100 from the start: three batches at offsets 0,
      100 and 200 of sizes 100, 100 and 50, ending at offset 250, and no
      heartbeat at the default interval of 10. */
  lemma ThreeBatchesForTwoHundredFiftyRows(job: CopyJob)
    requires job.batchSize == 100 && job.total == 250 && job.interval == 10
    requires CopyLoop(job, Progress(0, 0, 0)).err.None?
    ensures var r := CopyLoop(job, Progress(0, 0, 0));
            && |r.batches| == 3
            && r.batches[0].number == 1 && r.batches[0].offset == 0 && r.batches[0].size == 100
            && r.batches[1].number == 2 && r.batches[1].offset == 100 && r.batches[1].size == 100
            && r.batches[2].number == 3 && r.batches[2].offset == 200 && r.batches[2].size == 50
            && r.final.offset == 250
            && r.heartbeats == []
  {
    var p := Progress(0, 0, 0);
    var r := CopyLoop(job, p);
    CopyLoopShape(job, p);
    CopyLoopFinishes(job, p);
    CopyLoopBatchCount(job, p);
    CopyLoopHeartbeats(job, p);
    assert Completed(r) == r.batches;
    NoBeatsWithoutMultiples(r.batches, 0, 10, 250);
  }

  /** Resuming at offset 200 with batches of 100 over 250 rows runs one batch,
      numbered 3, of the last 50 rows, and counts the 200 skipped rows as
      processed. */
  lemma ResumeRunsOnlyTheRest(job: CopyJob, options: ArchiveOptions)
    requires options.batchSize == 100 && options.resumeOffset == 200
    requires job.batchSize == 100 && job.total == 250 && job.interval > 0
    requires CopyLoop(job, StartProgress(options)).err.None?
    ensures var r := CopyLoop(job, StartProgress(options));
            && |r.batches| == 1
            && r.batches[0] == BatchRecord(3, 200, 50, job.batch(50, 200).0)
            && r.final == Progress(250, 200 + job.batch(50, 200).0, 3)
  {
    var p := StartProgress(options);
    assert p == Progress(200, 200, 2);
    var r := CopyLoop(job, p);
    CopyLoopShape(job, p);
    CopyLoopFinishes(job, p);
    CopyLoopBatchCount(job, p);
    assert RowsSum(r.batches) == r.batches[0].rows by {
      assert r.batches[1..] == [];
    }
  }

  /** How `MigrateTableData` ends: an empty year does nothing; a failure to
      read the columns or the row count is returned as an ordinary error; a
      failing batch always comes back as a `FatalMigrationError`; and a run
      that succeeds counts the resumed offset plus every row its batches
      reported. */
  lemma MigrateOutcomes(src: SourceDb, archive: ArchiveDb, table: Table, year: int, options: ArchiveOptions)
    requires BatchSizeFitsLoop(src, options)
    ensures var r := Migrate(src, archive, table, year, options);
            && (src.columns.Err? && !IsFatal(src.columns.error) ==> r.err.Some? && !IsFatal(r.err.value) && r.batches == [])
            && (src.columns.Ok? && src.rowCount.Err? && !IsFatal(src.rowCount.error) ==>
                  r.err.Some? && !IsFatal(r.err.value) && r.batches == [])
            && (src.columns.Ok? && src.rowCount == Ok(0) ==> r == MigrationResult(None, [], [], 0))
            && (src.columns.Ok? && src.rowCount.Ok? && r.err.Some? ==> IsFatal(r.err.value))
            && (src.columns.Ok? && src.rowCount.Ok? && src.rowCount.value != 0 && r.err.None? ==>
                  r.processed == options.resumeOffset + RowsSum(r.batches))
  {
    if src.columns.Ok? && src.rowCount.Ok? && src.rowCount.value != 0 {
      var job := JobFor(src, archive, table, year, src.columns.value, options, src.rowCount.value);
      var loop := CopyLoop(job, StartProgress(options));
      if loop.err.Some? {
        CopyLoopStops(job, StartProgress(options));
      } else {
        CopyLoopFinishes(job, StartProgress(options));
      }
    }
  }
}
