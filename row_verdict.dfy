/** The verdict DataImporter::import() reaches for one row: mapping,
    validation and the lenient GTIN override. */
module RowVerdicts {
  import opened Wrappers
  import opened Items
  import opened ValidationErrors
  import opened Dtos
  import opened Mapping
  import opened Validation
  import opened ImportRuns

  /** One row of the data source with its line number. */
  datatype SourceRow = SourceRow(line: int, row: Row)

  // ---------------------------------------------------------------------
  // The verdict of one row

  /** The error categories with every InvalidGtin removed, order kept. */
  function WithoutGtin(errors: seq<ValidationError>): (r: seq<ValidationError>)
    ensures |r| <= |errors|
    decreases |errors|
  {
    if errors == [] then []
    else
      var last := errors[|errors| - 1];
      WithoutGtin(errors[..|errors| - 1]) + if last == InvalidGtin then [] else [last]
  }

  /** WithoutGtin keeps every category other than InvalidGtin, and nothing
      else. */
  lemma {:induction false} WithoutGtinMembers(errors: seq<ValidationError>)
    ensures forall e :: e in WithoutGtin(errors) <==> e in errors && e != InvalidGtin
    decreases |errors|
  {
    if errors != [] {
      var n := |errors| - 1;
      WithoutGtinMembers(errors[..n]);
      assert errors == errors[..n] + [errors[n]];
    }
  }

  /** WithoutGtin shortens the list exactly when it held an InvalidGtin. */
  lemma {:induction false} WithoutGtinShorter(errors: seq<ValidationError>)
    ensures |WithoutGtin(errors)| < |errors| <==> InvalidGtin in errors
    decreases |errors|
  {
    if errors != [] {
      var n := |errors| - 1;
      WithoutGtinShorter(errors[..n]);
      assert errors == errors[..n] + [errors[n]];
    }
  }

  /** The categories the importer acts on: the validator's, minus InvalidGtin
      when the override is on. */
  function EffectiveErrors(errors: seq<ValidationError>, skipGtin: bool): seq<ValidationError> {
    if skipGtin && errors != [] then WithoutGtin(errors) else errors
  }

  /** The verdict for a row at `line` whose mapping gave `mapped` and whose
      item, when there is one, failed the categories `errors`. */
  function VerdictFrom(line: int, mapped: Result<Item, MappingError>, errors: seq<ValidationError>, skipGtin: bool): RowVerdict {
    match mapped
    case Failure(e) => RowVerdict(line, Rejected([e.message]), None)
    case Success(item) =>
      var effective := EffectiveErrors(errors, skipGtin);
      RowVerdict(
        line,
        if effective == [] then Accepted(item) else Rejected(Messages(effective)),
        if skipGtin && InvalidGtin in errors then Some(item.gtin) else None)
  }

  /** The verdict of one row under the given options. */
  function VerdictOf(r: SourceRow, options: ImportOptions, isUrl: string -> bool): RowVerdict {
    var mapped := Map(r.row);
    VerdictFrom(r.line, mapped, if mapped.Success? then Errors(mapped.value, isUrl) else [], options.skipGtinValidation)
  }

  /** The verdicts of the rows, in source order. */
  function Verdicts(source: seq<SourceRow>, options: ImportOptions, isUrl: string -> bool): (vs: seq<RowVerdict>)
    ensures |vs| == |source|
    decreases |source|
  {
    if source == [] then []
    else Verdicts(source[..|source| - 1], options, isUrl) + [VerdictOf(source[|source| - 1], options, isUrl)]
  }

  lemma VerdictsSnoc(source: seq<SourceRow>, i: nat, options: ImportOptions, isUrl: string -> bool)
    requires i < |source|
    ensures Verdicts(source[..i + 1], options, isUrl)
         == Verdicts(source[..i], options, isUrl) + [VerdictOf(source[i], options, isUrl)]
  {
    assert source[..i + 1][..i] == source[..i];
  }

  /** The verdicts of a prefix of the source are a prefix of its verdicts. */
  lemma VerdictsPrefix(source: seq<SourceRow>, i: nat, options: ImportOptions, isUrl: string -> bool)
    requires i <= |source|
    ensures Verdicts(source[..i], options, isUrl) == Verdicts(source, options, isUrl)[..i]
  {
    var all := Verdicts(source, options, isUrl);
    var pre := Verdicts(source[..i], options, isUrl);
    VerdictsJudged(source, options, isUrl);
    VerdictsJudged(source[..i], options, isUrl);
    forall k | 0 <= k < i
      ensures pre[k] == all[k]
    {
      assert source[..i][k] == source[k];
      assert pre[k] == VerdictOf(source[..i][k], options, isUrl);
      assert all[k] == VerdictOf(source[k], options, isUrl);
    }
  }

  lemma {:induction false} VerdictAt(source: seq<SourceRow>, i: nat, options: ImportOptions, isUrl: string -> bool)
    requires i < |source|
    ensures Verdicts(source, options, isUrl)[i] == VerdictOf(source[i], options, isUrl)
    decreases |source|
  {
    var m := |source| - 1;
    if i < m {
      VerdictAt(source[..m], i, options, isUrl);
    }
  }

  /** `all` holds, row for row, the verdicts of the source. */
  ghost predicate Judged(source: seq<SourceRow>, all: seq<RowVerdict>, options: ImportOptions, isUrl: string -> bool) {
    && |all| == |source|
    && forall k {:trigger VerdictOf(source[k], options, isUrl)} :: 0 <= k < |source| ==> all[k] == VerdictOf(source[k], options, isUrl)
  }

  lemma VerdictsJudged(source: seq<SourceRow>, options: ImportOptions, isUrl: string -> bool)
    ensures Judged(source, Verdicts(source, options, isUrl), options, isUrl)
  {
    forall k | 0 <= k < |source|
      ensures Verdicts(source, options, isUrl)[k] == VerdictOf(source[k], options, isUrl)
    {
      VerdictAt(source, k, options, isUrl);
    }
  }

  /** The batches a whole run hands to the repository. */
  function RunBatches(source: seq<SourceRow>, options: ImportOptions, isUrl: string -> bool): seq<seq<Item>> {
    Batches(AcceptedItems(Verdicts(source, options, isUrl)), EffectiveBatchSize(options.batchSize))
  }

  /** Part way through a run, the full batches flushed so far start the
      run's batches, and the progress reports so far, one per full batch,
      start the run's reports. */
  lemma RunPrefix(source: seq<SourceRow>, options: ImportOptions, isUrl: string -> bool, i: nat, total: Option<int>)
    requires i <= |source|
    ensures var vs := Verdicts(source[..i], options, isUrl);
      var n := EffectiveBatchSize(options.batchSize);
      && FullBatches(AcceptedItems(vs), n) <= RunBatches(source, options, isUrl)
      && ProgressOf(vs, n, total) <= ProgressOf(Verdicts(source, options, isUrl), n, total)
      && |ProgressOf(vs, n, total)| == |FullBatches(AcceptedItems(vs), n)|
  {
    var all := Verdicts(source, options, isUrl);
    var n := EffectiveBatchSize(options.batchSize);
    VerdictsPrefix(source, i, options, isUrl);
    AcceptedPrefix(all, i);
    FullBatchesPrefix(AcceptedItems(all), AcceptedItems(all[..i]), n);
    ProgressPrefix(all, i, n, total);
    ProgressCharacterised(all[..i], n, total);
  }

  /** A mapped item's GTIN is trimmed, so the importer always gets the
      intended GTIN verdict, the final line feed case being impossible. */
  lemma MappedGtinVerdict(row: Row, isUrl: string -> bool)
    requires Map(row).Success?
    ensures RulePasses(InvalidGtin, Map(row).value, isUrl) <==> IsValidGtin(Map(row).value.gtin)
  {
    TrimmedGtinAgrees(row["gtin"]);
  }

  /** With the override off, a mapped item is kept exactly when every rule
      passes, and is otherwise skipped with the messages of all the failed
      categories; the override never fires. */
  lemma StrictVerdict(line: int, item: Item, v: RuleVerdicts)
    ensures VerdictFrom(line, Success(item), FailedAmong(AllErrors, v), false).overridden.None?
    ensures VerdictFrom(line, Success(item), FailedAmong(AllErrors, v), false).outcome.Accepted?
      <==> forall e :: Passes(e, v)
    ensures VerdictFrom(line, Success(item), FailedAmong(AllErrors, v), false).outcome.Rejected? ==>
      VerdictFrom(line, Success(item), FailedAmong(AllErrors, v), false).outcome.messages
        == Messages(FailedAmong(AllErrors, v))
  {
    FailedCharacterised(v);
  }

  /** With the override on, InvalidGtin never reaches the messages, a mapped
      item is kept exactly when every other rule passes, and the override
      fires, recording the item's GTIN, exactly when the GTIN rule failed. */
  lemma LenientVerdict(line: int, item: Item, v: RuleVerdicts)
    ensures VerdictFrom(line, Success(item), FailedAmong(AllErrors, v), true).overridden
      == if Passes(InvalidGtin, v) then None else Some(item.gtin)
    ensures VerdictFrom(line, Success(item), FailedAmong(AllErrors, v), true).outcome.Accepted?
      <==> forall e :: e != InvalidGtin ==> Passes(e, v)
    ensures VerdictFrom(line, Success(item), FailedAmong(AllErrors, v), true).outcome.Rejected? ==>
      && VerdictFrom(line, Success(item), FailedAmong(AllErrors, v), true).outcome.messages
           == Messages(WithoutGtin(FailedAmong(AllErrors, v)))
      && forall e :: e in WithoutGtin(FailedAmong(AllErrors, v)) <==> e != InvalidGtin && !Passes(e, v)
  {
    var errors := FailedAmong(AllErrors, v);
    FailedCharacterised(v);
    WithoutGtinMembers(errors);
    if errors == [] {
      assert forall e :: Passes(e, v);
    } else {
      var w := WithoutGtin(errors);
      if w != [] {
        assert w[0] in w;
      }
    }
  }

  /** A row that fails to map is skipped with the mapper's single message,
      whatever the options. */
  lemma UnmappedVerdict(r: SourceRow, options: ImportOptions, isUrl: string -> bool)
    requires Map(r.row).Failure?
    ensures VerdictOf(r, options, isUrl) == RowVerdict(r.line, Rejected([MissingMessage(MissingColumns(r.row))]), None)
  {
  }
}
