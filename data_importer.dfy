/** DataImporter: streams rows through the mapper and the validator, keeps
    the valid items in batches for the repository, and reports counters,
    errors, progress and the override notice. */
module Importer {
  import opened Wrappers
  import opened Items
  import opened ValidationErrors
  import opened ValidationResults
  import opened Validation
  import opened Mapping
  import opened Persistence
  import opened Dtos
  import opened ImportRuns
  import opened RowVerdicts

  /** The loop's local state: the counters, the buffered batch, the
      override count and samples, and the progress reports made so far. */
  datatype RunState = RunState(
    stats: Stats,
    batch: seq<Item>,
    gtinSkipCount: nat,
    samples: seq<GtinSample>,
    progress: seq<Progress>)

  const Start := RunState(Stats(0, 0, 0, map[]), [], 0, [], [])

  /** After the rows with verdicts vs, the loop's state is what those rows
      call for: the counters, errors and samples of the run so far, the
      buffer holding the items past the last full batch, and one progress
      report per full batch. */
  ghost predicate Tallied(st: RunState, vs: seq<RowVerdict>, n: nat, hasCallback: bool, total: Option<int>)
    requires n >= 1
  {
    var a := AcceptedItems(vs);
    && st.batch == Pending(a, n)
    && st.stats == Stats(|vs|, |a| - |st.batch|, SkippedCount(vs), ErrorsMap(vs))
    && st.gtinSkipCount == |Overrides(vs)|
    && st.samples == Take(Overrides(vs), MaxSamples)
    && st.progress == (if hasCallback then ProgressOf(vs, n, total) else [])
  }

  /** A repository with rows `tbl`, transaction log `txs` and faults
      `faults` holds the kept items xs up to their last full batch: every
      full batch committed in turn on top of `table`, or nothing written in
      a dry run. */
  ghost predicate Stored(
    tbl: Table, txs: seq<TransactionEnd>, faults: map<nat, Fault>,
    xs: seq<Item>, n: nat, dryRun: bool, transactions: seq<TransactionEnd>, table: Table)
    requires n >= 1
  {
    var full := FullBatches(xs, n);
    && (dryRun ==> tbl == table && txs == transactions)
    && (!dryRun ==>
      && tbl == UpsertAll(table, Flatten(full))
      && txs == transactions + Commits(|full|)
      && AllPass(faults, |transactions|, full))
  }

  /** Keeping an item without filling the buffer leaves the repository as
      it was. */
  lemma StoredKeep(
    tbl: Table, txs: seq<TransactionEnd>, faults: map<nat, Fault>,
    xs: seq<Item>, x: Item, n: nat, dryRun: bool, transactions: seq<TransactionEnd>, table: Table)
    requires n >= 1 && |Pending(xs, n)| + 1 != n
    requires Stored(tbl, txs, faults, xs, n, dryRun, transactions, table)
    ensures Stored(tbl, txs, faults, xs + [x], n, dryRun, transactions, table)
  {
    KeepOne(xs, x, n);
    assert FullBatches(xs + [x], n) == FullBatches(xs, n);
  }

  /** Filling the buffer and flushing it without a fault commits one more
      full batch (or, in a dry run, still writes nothing). */
  lemma StoredFlush(
    tbl: Table, txs: seq<TransactionEnd>, faults: map<nat, Fault>,
    xs: seq<Item>, x: Item, n: nat, dryRun: bool, transactions: seq<TransactionEnd>, table: Table)
    requires n >= 1 && |Pending(xs, n)| + 1 == n
    requires Stored(tbl, txs, faults, xs, n, dryRun, transactions, table)
    requires !dryRun ==> !FaultHits(faults, |txs|, n)
    ensures var b := Pending(xs, n) + [x];
      Stored(if dryRun then tbl else UpsertAll(tbl, b), if dryRun then txs else txs + [Committed],
        faults, xs + [x], n, dryRun, transactions, table)
  {
    KeepOne(xs, x, n);
    CommitOneMore(table, FullBatches(xs, n), Pending(xs, n) + [x], transactions);
  }

  /** Committing one more batch b on top of the batches `full`. */
  lemma CommitOneMore(table: Table, full: seq<seq<Item>>, b: seq<Item>, transactions: seq<TransactionEnd>)
    ensures UpsertAll(UpsertAll(table, Flatten(full)), b) == UpsertAll(table, Flatten(full + [b]))
    ensures transactions + Commits(|full|) + [Committed] == transactions + Commits(|full + [b]|)
    ensures (full + [b])[|full|] == b && (full + [b])[..|full|] == full
  {
    FlattenAppend(full, [b]);
    FlattenOne(b);
    UpsertAllAppend(table, Flatten(full), b);
  }

  /** A rejected row, once counted, is recorded among the errors: the
      tallies then cover it. */
  lemma TalliedReject(st: RunState, st1: RunState, v: RowVerdict, vs: seq<RowVerdict>, n: nat, hasCallback: bool, total: Option<int>)
    requires n >= 1 && v.outcome.Rejected?
    requires Tallied(st, vs, n, hasCallback, total)
    requires st1.gtinSkipCount == |Overrides(vs + [v])| && st1.samples == Take(Overrides(vs + [v]), MaxSamples)
    requires st1.stats == st.stats.(processed := st.stats.processed + 1)
    requires st1.batch == st.batch && st1.progress == st.progress
    ensures AcceptedItems(vs + [v]) == AcceptedItems(vs)
    ensures Tallied(st1.(stats := RecordError(st1.stats, v.line, v.outcome.messages)), vs + [v], n, hasCallback, total)
  {
    RunSnoc(vs, v, n, total);
  }

  /** An accepted row, once counted and buffered, is covered by the
      tallies. */
  lemma TalliedKeep(st: RunState, st1: RunState, next: RunState, v: RowVerdict, vs: seq<RowVerdict>, n: nat, hasCallback: bool, total: Option<int>)
    requires n >= 1 && v.outcome.Accepted?
    requires Tallied(st, vs, n, hasCallback, total)
    requires st1.gtinSkipCount == |Overrides(vs + [v])| && st1.samples == Take(Overrides(vs + [v]), MaxSamples)
    requires st1.stats == st.stats.(processed := st.stats.processed + 1)
    requires st1.batch == st.batch && st1.progress == st.progress
    requires var xs := AcceptedItems(vs) + [v.outcome.item];
      var flushed := Pending(xs, n) == [];
      && next.batch == Pending(xs, n)
      && next.stats == st1.stats.(imported := |xs| - |next.batch|)
      && next.gtinSkipCount == st1.gtinSkipCount && next.samples == st1.samples
      && next.progress == st1.progress + (if hasCallback && flushed then [Progress(st1.stats.processed, total)] else [])
    ensures AcceptedItems(vs + [v]) == AcceptedItems(vs) + [v.outcome.item]
    ensures Tallied(next, vs + [v], n, hasCallback, total)
  {
    RunSnoc(vs, v, n, total);
  }

  /** The run stopped at batch c of B: the earlier batches committed, batch
      c ran into its fault and rolled back, leaving the repository with rows
      `tbl` and log `txs`, and the progress reports are those of the earlier
      batches. */
  ghost predicate StoppedAt(
    tbl: Table, txs: seq<TransactionEnd>, faults: map<nat, Fault>,
    hasCallback: bool, n: nat, total: Option<int>, c: nat, vs: seq<RowVerdict>, B: seq<seq<Item>>,
    transactions: seq<TransactionEnd>, table: Table, progress: seq<Progress>)
    requires n >= 1
  {
    && c < |B|
    && AllPass(faults, |transactions|, B[..c])
    && FaultHits(faults, |transactions| + c, |B[c]|)
    && txs == transactions + Commits(c) + [RolledBack]
    && tbl == UpsertAll(table, Flatten(B[..c]))
    && progress == (if hasCallback then Take(ProgressOf(vs, n, total), c) else [])
  }

  /** A flush failing in the loop at row i stops the run at the batch after
      the full batches of the rows before it. */
  lemma StopInLoop(
    tbl: Table, txs: seq<TransactionEnd>, faults: map<nat, Fault>,
    st: RunState, all: seq<RowVerdict>, i: nat, n: nat, hasCallback: bool, total: Option<int>,
    transactions: seq<TransactionEnd>, table: Table)
    requires n >= 1 && i < |all| && all[i].outcome.Accepted?
    requires Tallied(st, all[..i], n, hasCallback, total)
    requires var a := AcceptedItems(all[..i]);
      var full := FullBatches(a, n);
      && |Pending(a, n)| + 1 == n
      && FaultHits(faults, |transactions| + |full|, n)
      && AllPass(faults, |transactions|, full)
      && txs == transactions + Commits(|full|) + [RolledBack]
      && tbl == UpsertAll(table, Flatten(full))
    ensures StoppedAt(tbl, txs, faults, hasCallback, n, total, |FullBatches(AcceptedItems(all[..i]), n)|,
      all, Batches(AcceptedItems(all), n), transactions, table, st.progress)
  {
    StopAt(all, i, n, total);
    var full := FullBatches(AcceptedItems(all[..i]), n);
    var B := Batches(AcceptedItems(all), n);
    forall j | 0 <= j < |full| ensures B[j] == full[j] {
      assert B[..|full|][j] == B[j];
    }
  }

  /** A stopped run did not get all its batches through. */
  lemma StoppedBlocks(
    tbl: Table, txs: seq<TransactionEnd>, faults: map<nat, Fault>,
    hasCallback: bool, n: nat, total: Option<int>, c: nat, vs: seq<RowVerdict>, B: seq<seq<Item>>,
    transactions: seq<TransactionEnd>, table: Table, progress: seq<Progress>)
    requires n >= 1
    requires StoppedAt(tbl, txs, faults, hasCallback, n, total, c, vs, B, transactions, table, progress)
    ensures !AllPass(faults, |transactions|, B)
  {
    assert FaultHits(faults, |transactions| + c, |B[c]|);
  }

  /** With no items left in the buffer, the full batches are all the
      batches and together hold every kept item. */
  lemma StoredWhole(
    tbl: Table, txs: seq<TransactionEnd>, faults: map<nat, Fault>,
    xs: seq<Item>, n: nat, dryRun: bool, transactions: seq<TransactionEnd>, table: Table)
    requires n >= 1 && Pending(xs, n) == []
    requires Stored(tbl, txs, faults, xs, n, dryRun, transactions, table)
    ensures Batches(xs, n) == FullBatches(xs, n)
    ensures !dryRun ==>
      && tbl == UpsertAll(table, xs)
      && txs == transactions + Commits(|Batches(xs, n)|)
      && AllPass(faults, |transactions|, Batches(xs, n))
  {
    var full := FullBatches(xs, n);
    FullBatchesCharacterised(xs, n);
    assert Flatten(full) == xs;
    assert Batches(xs, n) == full;
  }

  /** Flushing the items left in the buffer without a fault completes the
      run's batches. */
  lemma StoredLastFlush(
    tbl: Table, txs: seq<TransactionEnd>, faults: map<nat, Fault>,
    xs: seq<Item>, n: nat, transactions: seq<TransactionEnd>, table: Table)
    requires n >= 1 && Pending(xs, n) != []
    requires Stored(tbl, txs, faults, xs, n, false, transactions, table)
    requires !FaultHits(faults, |txs|, |Pending(xs, n)|)
    ensures var B := Batches(xs, n);
      && UpsertAll(tbl, Pending(xs, n)) == UpsertAll(table, xs)
      && txs + [Committed] == transactions + Commits(|B|)
      && AllPass(faults, |transactions|, B)
  {
    var full := FullBatches(xs, n);
    var p := Pending(xs, n);
    FullBatchesCharacterised(xs, n);
    CommitOneMore(table, full, p, transactions);
    FlattenAppend(full, [p]);
    FlattenOne(p);
    assert Batches(xs, n) == full + [p];
  }

  /** A fault on the final flush stops the run at its last batch. */
  lemma StoppedOnLastFlush(
    tbl: Table, txs: seq<TransactionEnd>, faults: map<nat, Fault>,
    hasCallback: bool, n: nat, total: Option<int>, vs: seq<RowVerdict>,
    transactions: seq<TransactionEnd>, table: Table, progress: seq<Progress>)
    requires n >= 1
    requires var xs := AcceptedItems(vs);
      && Pending(xs, n) != []
      && Stored(tbl, txs, faults, xs, n, false, transactions, table)
      && FaultHits(faults, |txs|, |Pending(xs, n)|)
    requires progress == (if hasCallback then ProgressOf(vs, n, total) else [])
    ensures StoppedAt(tbl, txs + [RolledBack], faults, hasCallback, n, total,
      |FullBatches(AcceptedItems(vs), n)|, vs, Batches(AcceptedItems(vs), n), transactions, table, progress)
  {
    var xs := AcceptedItems(vs);
    var full := FullBatches(xs, n);
    var B := Batches(xs, n);
    assert B == full + [Pending(xs, n)];
    assert B[..|full|] == full;
    ProgressCharacterised(vs, n, total);
    assert Take(ProgressOf(vs, n, total), |full|) == ProgressOf(vs, n, total);
  }

  class DataImporter {
    const repository: ItemRepository
    /** The URL test of the validator. */
    const isUrl: string -> bool

    constructor(repository: ItemRepository, isUrl: string -> bool)
      ensures this.repository == repository && this.isUrl == isUrl
    {
      this.repository := repository;
      this.isUrl := isUrl;
    }

    /** Judge applied to row `i` of the source: the verdict it gives is the
        one `all` holds for that row. */
    method JudgeAt(source: seq<SourceRow>, i: nat, options: ImportOptions, ghost all: seq<RowVerdict>)
      returns (v: RowVerdict)
      requires i < |source|
      requires Judged(source, all, options, isUrl)
      ensures v == all[i]
    {
      v := Judge(source[i], options);
    }

    /** The start of the loop body for a row with verdict v: one more row
        processed, and the override counted and sampled (up to MaxSamples)
        when it applied. */
    static method CountRow(st: RunState, v: RowVerdict, ghost vs: seq<RowVerdict>) returns (next: RunState)
      requires st.gtinSkipCount == |Overrides(vs)| && st.samples == Take(Overrides(vs), MaxSamples)
      ensures next.gtinSkipCount == |Overrides(vs + [v])| && next.samples == Take(Overrides(vs + [v]), MaxSamples)
      ensures next.stats == st.stats.(processed := st.stats.processed + 1)
      ensures next.batch == st.batch && next.progress == st.progress
    {
      next := st.(stats := st.stats.(processed := st.stats.processed + 1));
      RunSnoc(vs, v, 1, None);
      if v.overridden.Some? {
        TakeSnoc(Overrides(vs), GtinSample(v.line, v.overridden.value), MaxSamples);
        var samples := next.samples;
        if |samples| < MaxSamples {
          samples := samples + [GtinSample(v.line, v.overridden.value)];
        }
        next := next.(gtinSkipCount := next.gtinSkipCount + 1, samples := samples);
      }
    }

    /** The part of the loop body that maps the row, validates the item and
        applies the lenient GTIN override. */
    method Judge(r: SourceRow, options: ImportOptions) returns (v: RowVerdict)
      ensures v == VerdictOf(r, options, isUrl)
    {
      var mapped := Map(r.row);
      if mapped.Failure? {
        return RowVerdict(r.line, Rejected([mapped.error.message]), None);
      }
      var item := mapped.value;
      var validation := Validate(item, isUrl);
      var errors := validation.errors;
      var isValid := validation.isValid;
      if errors != [] {
        assert errors[0] in errors;
      }
      var overridden: Option<string> := None;
      if options.skipGtinValidation && errors != [] {
        var filtered := WithoutGtin(errors);
        WithoutGtinShorter(errors);
        if |filtered| != |errors| {
          overridden := Some(item.gtin);
        }
        errors := filtered;
        isValid := errors == [];
      }
      if !isValid {
        v := RowVerdict(r.line, Rejected(Messages(errors)), overridden);
      } else {
        v := RowVerdict(r.line, Accepted(item), overridden);
      }
    }

    /** processBatch(): a dry run only counts the items; otherwise they go
        to the repository in one call. */
    method ProcessBatch(items: seq<Item>, dryRun: bool) returns (r: Result<nat, RepositoryError>)
      requires repository.Valid()
      modifies repository
      ensures repository.Valid()
      ensures r.Success? ==> r.value == |items|
      ensures dryRun ==> r.Success? && unchanged(repository)
      ensures !dryRun && items != [] ==>
        repository.transactions == old(repository.transactions) + [if r.Success? then Committed else RolledBack]
      ensures !dryRun ==> (r.Failure? <==> items != [] && FaultHits(repository.faults, |old(repository.transactions)|, |items|))
      ensures !dryRun && r.Success? ==> repository.table == UpsertAll(old(repository.table), items)
      ensures r.Failure? ==> repository.table == old(repository.table) && r.error == RepositoryError(UpsertFailed)
    {
      if dryRun {
        return Success(|items|);
      }
      var outcome := repository.UpsertBatch(items);
      if outcome.Fail? {
        return Failure(outcome.error);
      }
      return Success(|items|);
    }

    /** Buffering a kept item x after the kept items xs: append it, and
        when the buffer reaches the batch size hand it to processBatch(),
        count what it imported, empty the buffer and report progress. A
        failing flush is returned in `failure`. */
    method Buffer(st: RunState, x: Item, options: ImportOptions, hasCallback: bool, total: Option<int>,
                  ghost xs: seq<Item>, ghost transactions: seq<TransactionEnd>, ghost table: Table)
      returns (next: RunState, failure: Option<RepositoryError>)
      requires repository.Valid()
      requires st.batch == Pending(xs, EffectiveBatchSize(options.batchSize))
      requires st.stats.imported == |xs| - |st.batch|
      requires Stored(repository.table, repository.transactions, repository.faults, xs,
        EffectiveBatchSize(options.batchSize), options.dryRun, transactions, table)
      modifies repository
      ensures options.dryRun ==> unchanged(repository)
      ensures repository.Valid()
      ensures failure.None? ==>
        var n := EffectiveBatchSize(options.batchSize);
        var flushed := Pending(xs + [x], n) == [];
        && next.batch == Pending(xs + [x], n)
        && next.stats == st.stats.(imported := |xs + [x]| - |next.batch|)
        && next.gtinSkipCount == st.gtinSkipCount && next.samples == st.samples
        && next.progress == st.progress + (if hasCallback && flushed then [Progress(st.stats.processed, total)] else [])
        && Stored(repository.table, repository.transactions, repository.faults, xs + [x], n, options.dryRun, transactions, table)
      ensures failure.Some? ==>
        && next == st
        && !options.dryRun
        && failure.value == RepositoryError(UpsertFailed)
        && |Pending(xs, EffectiveBatchSize(options.batchSize))| + 1 == EffectiveBatchSize(options.batchSize)
        && FaultHits(repository.faults, |old(repository.transactions)|, EffectiveBatchSize(options.batchSize))
        && repository.transactions == old(repository.transactions) + [RolledBack]
        && repository.table == old(repository.table)
    {
      ghost var n := EffectiveBatchSize(options.batchSize);
      var stats := st.stats;
      var batch := st.batch + [x];
      var progress := st.progress;
      failure := None;
      KeepOne(xs, x, n);
      FlushTest(options.batchSize, |batch|);
      if |batch| >= options.batchSize {
        ghost var tbl, txs := repository.table, repository.transactions;
        var r := ProcessBatch(batch, options.dryRun);
        if r.Failure? {
          failure := Some(r.error);
          next := st;
          return;
        }
        StoredFlush(tbl, txs, repository.faults, xs, x, n, options.dryRun, transactions, table);
        stats := stats.(imported := stats.imported + r.value);
        batch := [];
        if hasCallback {
          progress := progress + [Progress(stats.processed, total)];
        }
      } else {
        StoredKeep(repository.table, repository.transactions, repository.faults, xs, x, n, options.dryRun, transactions, table);
      }
      next := RunState(stats, batch, st.gtinSkipCount, st.samples, progress);
    }

    /** The rest of the loop body for a row with verdict v: count it, note
        an override, then either record its error or buffer its item. A
        failing flush is returned in `failure`. */
    method Step(st: RunState, v: RowVerdict, options: ImportOptions, hasCallback: bool, total: Option<int>,
                ghost vs: seq<RowVerdict>, ghost transactions: seq<TransactionEnd>, ghost table: Table)
      returns (next: RunState, failure: Option<RepositoryError>)
      requires repository.Valid()
      requires Tallied(st, vs, EffectiveBatchSize(options.batchSize), hasCallback, total)
      requires Stored(repository.table, repository.transactions, repository.faults, AcceptedItems(vs),
        EffectiveBatchSize(options.batchSize), options.dryRun, transactions, table)
      modifies repository
      ensures options.dryRun ==> unchanged(repository)
      ensures repository.Valid()
      ensures failure.None? ==> Tallied(next, vs + [v], EffectiveBatchSize(options.batchSize), hasCallback, total)
      ensures failure.None? ==>
        Stored(repository.table, repository.transactions, repository.faults, AcceptedItems(vs + [v]),
          EffectiveBatchSize(options.batchSize), options.dryRun, transactions, table)
      ensures failure.Some? ==>
        var n := EffectiveBatchSize(options.batchSize);
        var a := AcceptedItems(vs);
        var full := FullBatches(a, n);
        && next == st
        && !options.dryRun
        && failure.value == RepositoryError(UpsertFailed)
        && v.outcome.Accepted?
        && |Pending(a, n)| + 1 == n
        && FaultHits(repository.faults, |transactions| + |full|, n)
        && AllPass(repository.faults, |transactions|, full)
        && repository.transactions == transactions + Commits(|full|) + [RolledBack]
        && repository.table == UpsertAll(table, Flatten(full))
    {
      ghost var n := EffectiveBatchSize(options.batchSize);
      var st1 := CountRow(st, v, vs);
      failure := None;
      match v.outcome {
      case Rejected(messages) =>
        next := st1.(stats := RecordError(st1.stats, v.line, messages));
        TalliedReject(st, st1, v, vs, n, hasCallback, total);
      case Accepted(item) =>
        next, failure := Buffer(st1, item, options, hasCallback, total, AcceptedItems(vs), transactions, table);
        if failure.Some? {
          next := st;
        } else {
          TalliedKeep(st, st1, next, v, vs, n, hasCallback, total);
        }
      }
    }

    /** What follows the loop, once the rows with verdicts `all` are
        through: flush the remaining buffer, log the override notice and
        build the result with its status. */
    method Finish(st: RunState, options: ImportOptions, hasCallback: bool, total: Option<int>,
                  ghost all: seq<RowVerdict>, ghost transactions: seq<TransactionEnd>, ghost table: Table)
      returns (result: Result<ImportResult, RepositoryError>, progress: seq<Progress>, notice: Option<GtinNotice>)
      requires repository.Valid()
      requires Tallied(st, all, EffectiveBatchSize(options.batchSize), hasCallback, total)
      requires Stored(repository.table, repository.transactions, repository.faults, AcceptedItems(all),
        EffectiveBatchSize(options.batchSize), options.dryRun, transactions, table)
      modifies repository
      ensures repository.Valid()
      ensures options.dryRun ==> result.Success? && unchanged(repository)
      ensures !options.dryRun ==> var B := Batches(AcceptedItems(all), EffectiveBatchSize(options.batchSize));
        (result.Success? <==> AllPass(repository.faults, |transactions|, B))
      ensures result.Success? ==>
        && result.value == ResultOf(all)
        && notice == NoticeOf(all, options)
        && progress == (if hasCallback then ProgressOf(all, EffectiveBatchSize(options.batchSize), total) else [])
      ensures result.Success? && !options.dryRun ==>
        && repository.table == UpsertAll(table, AcceptedItems(all))
        && repository.transactions == transactions + Commits(|Batches(AcceptedItems(all), EffectiveBatchSize(options.batchSize))|)
      ensures result.Failure? ==>
        var n := EffectiveBatchSize(options.batchSize);
        && !options.dryRun
        && result.error == RepositoryError(UpsertFailed)
        && notice.None?
        && StoppedAt(repository.table, repository.transactions, repository.faults, hasCallback, n, total,
             |FullBatches(AcceptedItems(all), n)|, all, Batches(AcceptedItems(all), n), transactions, table, progress)
    {
      ghost var n := EffectiveBatchSize(options.batchSize);
      ghost var a := AcceptedItems(all);
      ghost var txs := repository.transactions;
      ghost var tbl := repository.table;
      var stats := st.stats;
      progress := st.progress;
      notice := None;
      if st.batch != [] {
        var r := ProcessBatch(st.batch, options.dryRun);
        if r.Failure? {
          StoppedOnLastFlush(tbl, txs, repository.faults, hasCallback, n, total, all, transactions, table, progress);
          StoppedBlocks(repository.table, repository.transactions, repository.faults, hasCallback, n, total,
            |FullBatches(a, n)|, all, Batches(a, n), transactions, table, progress);
          result := Failure(r.error);
          return;
        }
        stats := stats.(imported := stats.imported + r.value);
        if !options.dryRun {
          StoredLastFlush(tbl, txs, repository.faults, a, n, transactions, table);
        }
      } else {
        StoredWhole(tbl, txs, repository.faults, a, n, options.dryRun, transactions, table);
      }
      if options.skipGtinValidation && st.gtinSkipCount > 0 {
        notice := Some(GtinNotice(st.gtinSkipCount, st.samples));
      }
      var status := DetermineStatus(stats.processed, stats.imported, stats.skipped);
      result := Success(ImportResult(status, stats.processed, stats.imported, stats.skipped, stats.errors));
    }

    /** The loop of import() and what follows it, for rows whose verdicts
        are `all`. */
    method ImportRows(source: seq<SourceRow>, estimate: Option<int>, options: ImportOptions, hasCallback: bool,
                      ghost all: seq<RowVerdict>)
      returns (result: Result<ImportResult, RepositoryError>, progress: seq<Progress>, notice: Option<GtinNotice>)
      requires repository.Valid()
      requires Judged(source, all, options, isUrl)
      modifies repository
      ensures repository.Valid()
      ensures options.dryRun ==> result.Success? && unchanged(repository)
      ensures !options.dryRun ==> var B := Batches(AcceptedItems(all), EffectiveBatchSize(options.batchSize));
        (result.Success? <==> AllPass(repository.faults, |old(repository.transactions)|, B))
      ensures result.Success? ==> var vs := all;
        && result.value == ResultOf(vs)
        && notice == NoticeOf(vs, options)
        && progress == (if hasCallback then ProgressOf(vs, EffectiveBatchSize(options.batchSize), estimate) else [])
      ensures result.Success? && !options.dryRun ==>
        && repository.table == UpsertAll(old(repository.table), AcceptedItems(all))
        && repository.transactions == old(repository.transactions) + Commits(|Batches(AcceptedItems(all), EffectiveBatchSize(options.batchSize))|)
      ensures result.Failure? ==>
        && !options.dryRun
        && result.error == RepositoryError(UpsertFailed)
        && notice.None?
        && exists c: nat :: StoppedAt(repository.table, repository.transactions, repository.faults,
             hasCallback, EffectiveBatchSize(options.batchSize), estimate, c,
             all, Batches(AcceptedItems(all), EffectiveBatchSize(options.batchSize)),
             old(repository.transactions), old(repository.table), progress)
    {
      ghost var n := EffectiveBatchSize(options.batchSize);
      ghost var tx0 := repository.transactions;
      ghost var t0 := repository.table;
      var st := Start;
      for i := 0 to |source|
        invariant repository.Valid()
        invariant options.dryRun ==> unchanged(repository)
        invariant Tallied(st, all[..i], n, hasCallback, estimate)
        invariant Stored(repository.table, repository.transactions, repository.faults, AcceptedItems(all[..i]),
          n, options.dryRun, tx0, t0)
      {
        var v := JudgeAt(source, i, options, all);
        assert all[..i + 1] == all[..i] + [v];
        var failure;
        st, failure := Step(st, v, options, hasCallback, estimate, all[..i], tx0, t0);
        if failure.Some? {
          StopInLoop(repository.table, repository.transactions, repository.faults, st, all, i, n, hasCallback, estimate, tx0, t0);
          ghost var c := |FullBatches(AcceptedItems(all[..i]), n)|;
          ghost var B := Batches(AcceptedItems(all), n);
          StoppedBlocks(repository.table, repository.transactions, repository.faults, hasCallback, n, estimate,
            c, all, B, tx0, t0, st.progress);
          result := Failure(failure.value);
          progress := st.progress;
          notice := None;
          return;
        }
      }
      assert all[..|source|] == all;
      result, progress, notice := Finish(st, options, hasCallback, estimate, all, tx0, t0);
    }

    /** import(). `source` is what the reader yields, `estimate` its
        estimated count, and `hasCallback` whether a progress callback was
        given; the calls it would receive are returned in `progress`, and the
        override notice the logger would receive in `notice`. A repository
        failure ends the run with that failure. */
    method Import(source: seq<SourceRow>, estimate: Option<int>, options: ImportOptions, hasCallback: bool)
      returns (result: Result<ImportResult, RepositoryError>, progress: seq<Progress>, notice: Option<GtinNotice>)
      requires repository.Valid()
      modifies repository
      ensures repository.Valid()
      ensures options.dryRun ==> result.Success? && unchanged(repository)
      ensures !options.dryRun ==> var B := RunBatches(source, options, isUrl);
        (result.Success? <==> AllPass(repository.faults, |old(repository.transactions)|, B))
      ensures result.Success? ==> var vs := Verdicts(source, options, isUrl);
        && result.value == ResultOf(vs)
        && notice == NoticeOf(vs, options)
        && progress == (if hasCallback then ProgressOf(vs, EffectiveBatchSize(options.batchSize), estimate) else [])
      ensures result.Success? && !options.dryRun ==>
        && repository.table == UpsertAll(old(repository.table), AcceptedItems(Verdicts(source, options, isUrl)))
        && repository.transactions == old(repository.transactions) + Commits(|RunBatches(source, options, isUrl)|)
      ensures result.Failure? ==>
        && !options.dryRun
        && result.error == RepositoryError(UpsertFailed)
        && notice.None?
        && exists c: nat :: StoppedAt(repository.table, repository.transactions, repository.faults,
             hasCallback, EffectiveBatchSize(options.batchSize), estimate, c,
             Verdicts(source, options, isUrl), RunBatches(source, options, isUrl),
             old(repository.transactions), old(repository.table), progress)
    {
      ghost var all := Verdicts(source, options, isUrl);
      VerdictsJudged(source, options, isUrl);
      result, progress, notice := ImportRows(source, estimate, options, hasCallback, all);
    }
  }
}
