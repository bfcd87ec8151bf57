/** What one run of DataImporter::import() computes, stated over the
    verdicts of its rows in source order: the counters, the errors map, the
    override notice, the batches handed to the repository, the progress
    reports and the final status. */
module ImportRuns {
  import opened Wrappers
  import opened Items
  import opened ImportStatuses
  import opened Dtos

  /** What the loop does with a row: keep the item for the next batch, or
      skip the row with its error messages. */
  datatype RowOutcome = Accepted(item: Item) | Rejected(messages: seq<string>)

  /** A row's outcome, with its line and, when the lenient override dropped
      an InvalidGtin for it, the row's GTIN. */
  datatype RowVerdict = RowVerdict(line: int, outcome: RowOutcome, overridden: Option<string>)

  /** One entry of the override notice's samples. */
  datatype GtinSample = GtinSample(line: int, gtin: string)

  /** The notice logged when the override fired: how many rows it fired
      for and the first few of them. */
  datatype GtinNotice = GtinNotice(rows: nat, samples: seq<GtinSample>)

  /** One call of the progress callback: rows processed so far and the
      source's estimate of its size. */
  datatype Progress = Progress(processed: nat, total: Option<int>)

  const MaxSamples := 5

  // ---------------------------------------------------------------------
  // Counters, errors and override samples over a run

  function AcceptedItems(vs: seq<RowVerdict>): seq<Item>
    decreases |vs|
  {
    if vs == [] then []
    else
      var last := vs[|vs| - 1];
      AcceptedItems(vs[..|vs| - 1]) + if last.outcome.Accepted? then [last.outcome.item] else []
  }

  function SkippedCount(vs: seq<RowVerdict>): nat
    decreases |vs|
  {
    if vs == [] then 0
    else SkippedCount(vs[..|vs| - 1]) + if vs[|vs| - 1].outcome.Rejected? then 1 else 0
  }

  /** The errors map: each skipped row's messages under its line; a later
      row with the same line overwrites an earlier one. */
  function ErrorsMap(vs: seq<RowVerdict>): map<int, seq<string>>
    decreases |vs|
  {
    if vs == [] then map[]
    else
      var last := vs[|vs| - 1];
      var m := ErrorsMap(vs[..|vs| - 1]);
      if last.outcome.Rejected? then m[last.line := last.outcome.messages] else m
  }

  /** Every row the override fired for, in order. */
  function Overrides(vs: seq<RowVerdict>): seq<GtinSample>
    decreases |vs|
  {
    if vs == [] then []
    else
      var last := vs[|vs| - 1];
      Overrides(vs[..|vs| - 1]) + if last.overridden.Some? then [GtinSample(last.line, last.overridden.value)] else []
  }

  /** The first k elements, or all of them when there are fewer. */
  function Take<T>(xs: seq<T>, k: nat): (r: seq<T>)
    ensures |r| == if |xs| < k then |xs| else k
    ensures r <= xs
  {
    if |xs| <= k then xs else xs[..k]
  }

  /** One more row: how each quantity of the run moves. */
  lemma RunSnoc(vs: seq<RowVerdict>, v: RowVerdict, n: nat, total: Option<int>)
    requires n >= 1
    ensures AcceptedItems(vs + [v]) == AcceptedItems(vs) + if v.outcome.Accepted? then [v.outcome.item] else []
    ensures SkippedCount(vs + [v]) == SkippedCount(vs) + if v.outcome.Rejected? then 1 else 0
    ensures ErrorsMap(vs + [v]) == if v.outcome.Rejected? then ErrorsMap(vs)[v.line := v.outcome.messages] else ErrorsMap(vs)
    ensures Overrides(vs + [v]) == Overrides(vs) + if v.overridden.Some? then [GtinSample(v.line, v.overridden.value)] else []
    ensures ProgressOf(vs + [v], n, total) == ProgressOf(vs, n, total) +
      if v.outcome.Accepted? && Pending(AcceptedItems(vs + [v]), n) == [] then [Progress(|vs| + 1, total)] else []
  {
    assert (vs + [v])[..|vs|] == vs;
  }

  /** Sampling one more element keeps the first k. */
  lemma TakeSnoc<T>(xs: seq<T>, x: T, k: nat)
    ensures Take(xs + [x], k) == if |xs| < k then xs + [x] else Take(xs, k)
  {
    if |xs| >= k {
      assert (xs + [x])[..k] == xs[..k];
    }
  }

  /** Every row is either kept or skipped. */
  lemma {:induction false} CountsAddUp(vs: seq<RowVerdict>)
    ensures |AcceptedItems(vs)| + SkippedCount(vs) == |vs|
    decreases |vs|
  {
    if vs != [] {
      CountsAddUp(vs[..|vs| - 1]);
    }
  }

  /** The kept items are exactly the accepted rows' items. */
  lemma AcceptedInOrder(vs: seq<RowVerdict>)
    ensures forall x :: x in AcceptedItems(vs) <==> exists k :: 0 <= k < |vs| && vs[k].outcome == Accepted(x)
  {
    forall x ensures x in AcceptedItems(vs) <==> exists k :: 0 <= k < |vs| && vs[k].outcome == Accepted(x) {
      if x in AcceptedItems(vs) {
        AcceptedFrom(vs, x);
      }
      if exists k :: 0 <= k < |vs| && vs[k].outcome == Accepted(x) {
        var k :| 0 <= k < |vs| && vs[k].outcome == Accepted(x);
        AcceptedKept(vs, k);
      }
    }
  }

  /** Every kept item comes from an accepted row. */
  lemma {:induction false} AcceptedFrom(vs: seq<RowVerdict>, x: Item)
    requires x in AcceptedItems(vs)
    ensures exists k :: 0 <= k < |vs| && vs[k].outcome == Accepted(x)
    decreases |vs|
  {
    var n := |vs| - 1;
    var init := vs[..n];
    if x in AcceptedItems(init) {
      AcceptedFrom(init, x);
      var k :| 0 <= k < |init| && init[k].outcome == Accepted(x);
      assert vs[k] == init[k];
    } else {
      assert vs[n].outcome == Accepted(x);
    }
  }

  /** Every accepted row's item is kept. */
  lemma {:induction false} AcceptedKept(vs: seq<RowVerdict>, k: nat)
    requires k < |vs| && vs[k].outcome.Accepted?
    ensures vs[k].outcome.item in AcceptedItems(vs)
    decreases |vs|
  {
    var n := |vs| - 1;
    if k < n {
      var init := vs[..n];
      AcceptedKept(init, k);
      assert init[k] == vs[k];
    }
  }

  /** The lines of the skipped rows. */
  function RejectedLines(vs: seq<RowVerdict>): set<int> {
    set v | v in vs && v.outcome.Rejected? :: v.line
  }

  predicate DistinctLines(vs: seq<RowVerdict>) {
    forall j, k :: 0 <= j < k < |vs| ==> vs[j].line != vs[k].line
  }

  /** The errors map has an entry exactly for the lines of skipped rows. */
  lemma {:induction false} ErrorsMapKeys(vs: seq<RowVerdict>)
    ensures ErrorsMap(vs).Keys == RejectedLines(vs)
    decreases |vs|
  {
    if vs != [] {
      var n := |vs| - 1;
      ErrorsMapKeys(vs[..n]);
      assert vs == vs[..n] + [vs[n]];
      assert RejectedLines(vs) == RejectedLines(vs[..n]) + if vs[n].outcome.Rejected? then {vs[n].line} else {};
    }
  }

  /** The entry for a line holds the messages of the last skipped row with
      that line. */
  lemma {:induction false} ErrorsMapLastWins(vs: seq<RowVerdict>, k: nat)
    requires k < |vs| && vs[k].outcome.Rejected?
    requires forall j :: k < j < |vs| && vs[j].line == vs[k].line ==> vs[j].outcome.Accepted?
    ensures vs[k].line in ErrorsMap(vs) && ErrorsMap(vs)[vs[k].line] == vs[k].outcome.messages
    decreases |vs|
  {
    var n := |vs| - 1;
    if k < n {
      var init := vs[..n];
      assert init[k] == vs[k];
      ErrorsMapLastWins(init, k);
    }
  }

  /** With distinct lines, each skipped row's messages sit under its line. */
  lemma ErrorsMapEntries(vs: seq<RowVerdict>)
    requires DistinctLines(vs)
    ensures forall k :: 0 <= k < |vs| && vs[k].outcome.Rejected? ==>
      vs[k].line in ErrorsMap(vs) && ErrorsMap(vs)[vs[k].line] == vs[k].outcome.messages
  {
    forall k | 0 <= k < |vs| && vs[k].outcome.Rejected?
      ensures vs[k].line in ErrorsMap(vs) && ErrorsMap(vs)[vs[k].line] == vs[k].outcome.messages
    {
      ErrorsMapLastWins(vs, k);
    }
  }

  /** With distinct lines, the errors map has one entry per skipped row. */
  lemma {:induction false} ErrorsMapSize(vs: seq<RowVerdict>)
    requires DistinctLines(vs)
    ensures |ErrorsMap(vs)| == SkippedCount(vs)
    decreases |vs|
  {
    if vs != [] {
      var n := |vs| - 1;
      var init := vs[..n];
      assert DistinctLines(init);
      ErrorsMapSize(init);
      ErrorsMapKeys(init);
    }
  }

  /** The override notice counts every row the override fired for and
      samples the first five of them. */
  function NoticeOf(vs: seq<RowVerdict>, options: ImportOptions): Option<GtinNotice> {
    var all := Overrides(vs);
    if options.skipGtinValidation && |all| > 0 then Some(GtinNotice(|all|, Take(all, MaxSamples))) else None
  }

  /** The override samples are the overridden rows' lines and GTINs, in
      source order. */
  lemma {:induction false} OverridesListed(vs: seq<RowVerdict>)
    ensures |Overrides(vs)| <= |vs|
    ensures forall s :: s in Overrides(vs) <==>
      exists k :: 0 <= k < |vs| && vs[k].overridden.Some? && s == GtinSample(vs[k].line, vs[k].overridden.value)
    decreases |vs|
  {
    if vs != [] {
      var n := |vs| - 1;
      var init := vs[..n];
      OverridesListed(init);
      forall s ensures s in Overrides(vs) <==>
        exists k :: 0 <= k < |vs| && vs[k].overridden.Some? && s == GtinSample(vs[k].line, vs[k].overridden.value)
      {
        if s in Overrides(init) {
          var k :| 0 <= k < |init| && init[k].overridden.Some? && s == GtinSample(init[k].line, init[k].overridden.value);
          assert vs[k] == init[k];
        }
        if exists k :: 0 <= k < |vs| && vs[k].overridden.Some? && s == GtinSample(vs[k].line, vs[k].overridden.value) {
          var k :| 0 <= k < |vs| && vs[k].overridden.Some? && s == GtinSample(vs[k].line, vs[k].overridden.value);
          if k < n {
            assert init[k] == vs[k];
          }
        }
      }
    }
  }

  // ---------------------------------------------------------------------
  // Batching and progress

  /** The batch size the flush test `count >= batchSize` amounts to: a size
      below 1 flushes after every item. */
  function EffectiveBatchSize(batchSize: int): (n: nat)
    ensures n >= 1
    ensures batchSize >= 1 ==> n == batchSize
  {
    if batchSize >= 1 then batchSize else 1
  }

  /** For a non-empty buffer the two flush tests agree. */
  lemma FlushTest(batchSize: int, count: nat)
    requires 1 <= count
    ensures count >= batchSize <==> count >= EffectiveBatchSize(batchSize)
  {
  }

  /** The full batches of n items the kept items xs fill, front to back:
      what the loop has flushed once xs were kept. */
  function FullBatches(xs: seq<Item>, n: nat): (bs: seq<seq<Item>>)
    requires n >= 1
    decreases |xs|
  {
    if |xs| < n then [] else [xs[..n]] + FullBatches(xs[n..], n)
  }

  /** The items still buffered once xs were kept: fewer than n, and the
      tail of xs. */
  function Pending(xs: seq<Item>, n: nat): (r: seq<Item>)
    requires n >= 1
    ensures |r| < n && |r| <= |xs|
    decreases |xs|
  {
    if |xs| < n then xs else Pending(xs[n..], n)
  }

  /** Every batch handed to the repository over a whole run: the full
      batches and then the remainder, when there is one. */
  function Batches(xs: seq<Item>, n: nat): seq<seq<Item>>
    requires n >= 1
  {
    FullBatches(xs, n) + if Pending(xs, n) == [] then [] else [Pending(xs, n)]
  }

  function Flatten(bs: seq<seq<Item>>): seq<Item>
    decreases |bs|
  {
    if bs == [] then [] else bs[0] + Flatten(bs[1..])
  }

  lemma {:induction false} FlattenAppend(a: seq<seq<Item>>, b: seq<seq<Item>>)
    ensures Flatten(a + b) == Flatten(a) + Flatten(b)
    decreases |a|
  {
    if a == [] {
      assert a + b == b;
    } else {
      assert (a + b)[1..] == a[1..] + b;
      FlattenAppend(a[1..], b);
    }
  }

  lemma FlattenOne(b: seq<Item>)
    ensures Flatten([b]) == b
  {
    assert [b][1..] == [];
  }

  /** Keeping one more item: it joins the buffer, and when that fills the
      buffer to n items the buffer becomes one more full batch. */
  lemma {:induction false} KeepOne(xs: seq<Item>, x: Item, n: nat)
    requires n >= 1
    ensures FullBatches(xs + [x], n)
         == FullBatches(xs, n) + if |Pending(xs, n)| + 1 == n then [Pending(xs, n) + [x]] else []
    ensures Pending(xs + [x], n) == if |Pending(xs, n)| + 1 == n then [] else Pending(xs, n) + [x]
    decreases |xs|
  {
    var ys := xs + [x];
    if |xs| < n {
      if |ys| == n {
        assert ys[..n] == ys && ys[n..] == [];
      }
    } else {
      assert ys[..n] == xs[..n];
      assert ys[n..] == xs[n..] + [x];
      KeepOne(xs[n..], x, n);
    }
  }

  /** The full batches and the buffer together are the kept items, in
      order, and every full batch holds exactly n items. */
  lemma FullBatchesCharacterised(xs: seq<Item>, n: nat)
    requires n >= 1
    ensures Flatten(FullBatches(xs, n)) + Pending(xs, n) == xs
    ensures forall k :: 0 <= k < |FullBatches(xs, n)| ==> |FullBatches(xs, n)[k]| == n
  {
    FullBatchesCover(xs, n);
    FullBatchesSized(xs, n);
  }

  lemma {:induction false} FullBatchesCover(xs: seq<Item>, n: nat)
    requires n >= 1
    ensures Flatten(FullBatches(xs, n)) + Pending(xs, n) == xs
    decreases |xs|
  {
    if |xs| >= n {
      var head, tail := xs[..n], xs[n..];
      FullBatchesCover(tail, n);
      FlattenCons(head, FullBatches(tail, n));
      assert head + tail == xs;
    }
  }

  lemma FlattenCons(b: seq<Item>, bs: seq<seq<Item>>)
    ensures Flatten([b] + bs) == b + Flatten(bs)
  {
    assert ([b] + bs)[1..] == bs;
  }

  lemma {:induction false} FullBatchesSized(xs: seq<Item>, n: nat)
    requires n >= 1
    ensures forall k :: 0 <= k < |FullBatches(xs, n)| ==> |FullBatches(xs, n)[k]| == n
    decreases |xs|
  {
    if |xs| >= n {
      FullBatchesSized(xs[n..], n);
      var bs := FullBatches(xs, n);
      assert bs[1..] == FullBatches(xs[n..], n);
      forall k | 0 <= k < |bs| ensures |bs[k]| == n {
        if k > 0 {
          assert bs[k] == bs[1..][k - 1];
        }
      }
    }
  }

  /** Over a whole run the batches carry every kept item once, in order;
      all but the last hold exactly n items, and each holds between one and
      n. */
  lemma BatchesCharacterised(xs: seq<Item>, n: nat)
    requires n >= 1
    ensures Flatten(Batches(xs, n)) == xs
    ensures forall k :: 0 <= k < |Batches(xs, n)| - 1 ==> |Batches(xs, n)[k]| == n
    ensures forall k :: 0 <= k < |Batches(xs, n)| ==> 1 <= |Batches(xs, n)[k]| <= n
  {
    FullBatchesCharacterised(xs, n);
    var f := FullBatches(xs, n);
    var p := Pending(xs, n);
    if p == [] {
      assert Batches(xs, n) == f;
      assert Flatten(f) + [] == Flatten(f);
    } else {
      FlattenAppend(f, [p]);
      FlattenOne(p);
    }
  }

  /** The full batches of a prefix of the kept items start the full batches
      of all of them. */
  lemma {:induction false} FullBatchesPrefix(xs: seq<Item>, ys: seq<Item>, n: nat)
    requires n >= 1 && ys <= xs
    ensures FullBatches(ys, n) <= FullBatches(xs, n)
    decreases |xs| - |ys|
  {
    if |ys| < |xs| {
      var zs := xs[..|ys| + 1];
      assert zs == ys + [xs[|ys|]];
      KeepOne(ys, xs[|ys|], n);
      FullBatchesPrefix(xs, zs, n);
    } else {
      assert ys == xs;
    }
  }

  /** The progress reports of a run with a callback: one after each flush
      inside the loop, carrying the rows processed so far and the estimate. */
  function ProgressOf(vs: seq<RowVerdict>, n: nat, total: Option<int>): seq<Progress>
    requires n >= 1
    decreases |vs|
  {
    if vs == [] then []
    else
      ProgressOf(vs[..|vs| - 1], n, total) +
        if vs[|vs| - 1].outcome.Accepted? && Pending(AcceptedItems(vs), n) == [] then [Progress(|vs|, total)] else []
  }

  /** There is one report per full batch and none for the final remainder;
      each carries the estimate, and the processed counts strictly increase
      up to the number of rows. */
  lemma {:induction false} ProgressCharacterised(vs: seq<RowVerdict>, n: nat, total: Option<int>)
    requires n >= 1
    ensures |ProgressOf(vs, n, total)| == |FullBatches(AcceptedItems(vs), n)|
    ensures forall k :: 0 <= k < |ProgressOf(vs, n, total)| ==>
      ProgressOf(vs, n, total)[k].total == total && 1 <= ProgressOf(vs, n, total)[k].processed <= |vs|
    ensures forall j, k :: 0 <= j < k < |ProgressOf(vs, n, total)| ==>
      ProgressOf(vs, n, total)[j].processed < ProgressOf(vs, n, total)[k].processed
    decreases |vs|
  {
    if vs != [] {
      var init := vs[..|vs| - 1];
      ProgressCharacterised(init, n, total);
      var last := vs[|vs| - 1];
      if last.outcome.Accepted? {
        var a := AcceptedItems(init);
        assert AcceptedItems(vs) == a + [last.outcome.item];
        KeepOne(a, last.outcome.item, n);
        assert Pending(AcceptedItems(vs), n) == [] <==> |Pending(a, n)| + 1 == n;
      } else {
        assert AcceptedItems(vs) == AcceptedItems(init);
      }
    }
  }

  // ---------------------------------------------------------------------
  // Prefixes of a run

  lemma {:induction false} AcceptedPrefix(vs: seq<RowVerdict>, i: nat)
    requires i <= |vs|
    ensures AcceptedItems(vs[..i]) <= AcceptedItems(vs)
    decreases |vs| - i
  {
    if i < |vs| {
      AcceptedPrefix(vs, i + 1);
      assert vs[..i + 1][..i] == vs[..i];
    } else {
      assert vs[..i] == vs;
    }
  }

  lemma {:induction false} ProgressPrefix(vs: seq<RowVerdict>, i: nat, n: nat, total: Option<int>)
    requires i <= |vs| && n >= 1
    ensures ProgressOf(vs[..i], n, total) <= ProgressOf(vs, n, total)
    decreases |vs| - i
  {
    if i < |vs| {
      ProgressPrefix(vs, i + 1, n, total);
      ProgressGrows(vs[..i + 1], n, total);
      assert vs[..i + 1][..i] == vs[..i];
    } else {
      assert vs[..i] == vs;
    }
  }

  lemma ProgressGrows(vs: seq<RowVerdict>, n: nat, total: Option<int>)
    requires vs != [] && n >= 1
    ensures ProgressOf(vs[..|vs| - 1], n, total) <= ProgressOf(vs, n, total)
  {
  }

  /** A flush failing at row i stops the run at the batch after the full
      batches of the rows before it: the batches before it are those full
      batches, it holds the buffer and row i's item, and the reports so far
      are the run's first reports, one per earlier batch. */
  lemma StopAt(vs: seq<RowVerdict>, i: nat, n: nat, total: Option<int>)
    requires n >= 1 && i < |vs| && vs[i].outcome.Accepted?
    requires var a := AcceptedItems(vs[..i]);
      |Pending(a, n)| + 1 == n
    ensures var a := AcceptedItems(vs[..i]);
      var B := Batches(AcceptedItems(vs), n);
      var c := |FullBatches(a, n)|;
      && c < |B|
      && B[..c] == FullBatches(a, n)
      && B[c] == Pending(a, n) + [vs[i].outcome.item]
      && Take(ProgressOf(vs, n, total), c) == ProgressOf(vs[..i], n, total)
  {
    StopAtBatches(vs, i, n);
    StopAtProgress(vs, i, n, total);
  }

  lemma StopAtBatches(vs: seq<RowVerdict>, i: nat, n: nat)
    requires n >= 1 && i < |vs| && vs[i].outcome.Accepted?
    requires |Pending(AcceptedItems(vs[..i]), n)| + 1 == n
    ensures var a := AcceptedItems(vs[..i]);
      var B := Batches(AcceptedItems(vs), n);
      var c := |FullBatches(a, n)|;
      && c < |B|
      && B[..c] == FullBatches(a, n)
      && B[c] == Pending(a, n) + [vs[i].outcome.item]
  {
    var a := AcceptedItems(vs[..i]);
    var x := vs[i].outcome.item;
    var all := AcceptedItems(vs);
    assert vs[..i + 1][..i] == vs[..i];
    assert AcceptedItems(vs[..i + 1]) == a + [x];
    KeepOne(a, x, n);
    var f1 := FullBatches(a + [x], n);
    assert f1 == FullBatches(a, n) + [Pending(a, n) + [x]];
    AcceptedPrefix(vs, i + 1);
    FullBatchesPrefix(all, a + [x], n);
    var B := Batches(all, n);
    assert f1 <= FullBatches(all, n) <= B;
    var c := |FullBatches(a, n)|;
    assert B[..c] == f1[..c] == FullBatches(a, n);
    assert B[c] == f1[c];
  }

  lemma StopAtProgress(vs: seq<RowVerdict>, i: nat, n: nat, total: Option<int>)
    requires n >= 1 && i < |vs|
    ensures Take(ProgressOf(vs, n, total), |FullBatches(AcceptedItems(vs[..i]), n)|) == ProgressOf(vs[..i], n, total)
  {
    ProgressPrefix(vs, i, n, total);
    ProgressCharacterised(vs[..i], n, total);
  }

  // ---------------------------------------------------------------------
  // The status

  /** determineStatus(): nothing processed fails; no row skipped succeeds;
      rows skipped and none imported fails; otherwise partial. */
  function DetermineStatus(processed: nat, imported: nat, skipped: nat): (s: ImportStatus)
    ensures s == ImportStatus.Success <==> processed != 0 && skipped == 0
    ensures s == Failed <==> processed == 0 || (skipped != 0 && imported == 0)
    ensures s == PartialFailure <==> processed != 0 && skipped != 0 && imported != 0
  {
    if processed == 0 then Failed
    else if skipped == 0 then ImportStatus.Success
    else if imported == 0 then Failed
    else PartialFailure
  }

  /** For a finished run (every processed row kept or skipped): success
      means every row was kept, failure that none was, and partial failure
      that some were kept and some skipped. */
  lemma StatusOfRun(processed: nat, imported: nat, skipped: nat)
    requires processed == imported + skipped
    ensures DetermineStatus(processed, imported, skipped) == ImportStatus.Success <==> processed > 0 && imported == processed
    ensures DetermineStatus(processed, imported, skipped) == Failed <==> imported == 0
    ensures DetermineStatus(processed, imported, skipped) == PartialFailure <==> 0 < imported < processed
  {
  }

  /** The counters of a run, as the PHP code keeps them in `$stats`. */
  datatype Stats = Stats(processed: nat, imported: nat, skipped: nat, errors: map<int, seq<string>>)

  /** recordError(): the row counts as skipped and its messages are stored
      under its line, replacing any earlier entry for that line; nothing else
      changes. */
  function RecordError(stats: Stats, line: int, messages: seq<string>): (r: Stats)
    ensures r.skipped == stats.skipped + 1
    ensures r.processed == stats.processed && r.imported == stats.imported
    ensures line in r.errors && r.errors[line] == messages
    ensures forall l :: l != line ==> (l in r.errors <==> l in stats.errors)
    ensures forall l :: l != line && l in stats.errors ==> r.errors[l] == stats.errors[l]
  {
    stats.(skipped := stats.skipped + 1, errors := stats.errors[line := messages])
  }

  /** The result of a run that produced one. */
  function ResultOf(vs: seq<RowVerdict>): ImportResult {
    var imported := |AcceptedItems(vs)|;
    var skipped := SkippedCount(vs);
    ImportResult(DetermineStatus(|vs|, imported, skipped), |vs|, imported, skipped, ErrorsMap(vs))
  }
}
