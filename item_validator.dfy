/** ItemValidator: six independent business rules over an Item. Each failed
    rule contributes its category to the verdict, in a fixed order; the
    verdict is valid exactly when no rule failed. */
module Validation {
  import opened PhpStrings
  import opened PhpNumbers
  import opened Items
  import opened ValidationErrors
  import opened ValidationResults

  /** The accepted language codes, compared after ASCII lower-casing. */
  const ValidLanguages: seq<string> := ["en", "de", "fr", "it", "es", "nl", "pl"]

  /** Prices must lie strictly below ten trillion. */
  const PriceLimit: real := 10000000000000.0

  // ---------------------------------------------------------------------
  // GTIN

  /** PHP's (int) cast of a one-character string: a digit gives its value,
      anything else 0. */
  function CharInt(c: char): (d: nat)
    ensures d < 10
  {
    if IsDigit(c) then DigitValue(c) else 0
  }

  /** The GS1 weight of position k of the payload: 1 at even positions,
      3 at odd ones (counting from 0 at the left). */
  function Weight(k: nat): nat {
    if k % 2 == 0 then 1 else 3
  }

  /** The weighted digit sum of a payload. */
  function WeightedSum(payload: string): nat
    decreases |payload|
  {
    if payload == [] then 0
    else WeightedSum(payload[..|payload| - 1]) + Weight(|payload| - 1) * CharInt(payload[|payload| - 1])
  }

  /** The check digit the GS1 standard check digit calculation (section 7.9 of
      the GS1 General Specifications) assigns to a payload. */
  function CheckDigit(payload: string): (d: nat)
    ensures d < 10
  {
    (10 - WeightedSum(payload) % 10) % 10
  }

  /** The 13th character carries the check digit of the first twelve. */
  predicate Gtin13ChecksumHolds(gtin: string)
    requires |gtin| >= 13
  {
    CheckDigit(gtin[..12]) == CharInt(gtin[12])
  }

  /** isValidGtin13Checksum(): accumulates the weighted sum of the first
      twelve characters and compares the derived check digit with the
      thirteenth. */
  method IsValidGtin13Checksum(gtin: string) returns (ok: bool)
    requires |gtin| >= 13
    ensures ok == Gtin13ChecksumHolds(gtin)
  {
    var sum := 0;
    for i := 0 to 12
      invariant sum == WeightedSum(gtin[..i])
    {
      var digit := CharInt(gtin[i]);
      sum := sum + if i % 2 == 0 then digit else 3 * digit;
      assert gtin[..i + 1][..i] == gtin[..i];
    }
    var expected := (10 - sum % 10) % 10;
    ok := expected == CharInt(gtin[12]);
  }

  /** Eight to fourteen ASCII digits and nothing else. */
  predicate IsDigitRun(s: string) {
    8 <= |s| <= 14 && AllDigits(s)
  }

  /** A valid GTIN: a run of 8 to 14 digits that, when it has 13 digits,
      also carries a correct check digit. */
  predicate IsValidGtin(gtin: string) {
    IsDigitRun(gtin) && (|gtin| == 13 ==> Gtin13ChecksumHolds(gtin))
  }

  /** isValidGtin() with the pattern read as intended: pattern test first,
      the checksum only for 13 digits. */
  method CheckGtin(gtin: string) returns (ok: bool)
    ensures ok == IsValidGtin(gtin)
  {
    if !IsDigitRun(gtin) {
      return false;
    }
    if |gtin| == 13 {
      ok := IsValidGtin13Checksum(gtin);
      return;
    }
    return true;
  }

  /** The pattern /^\d{8,14}$/ as PCRE reads it: '$' also matches before a
      final line feed. */
  predicate MatchesGtinPatternAsWritten(s: string) {
    IsDigitRun(s) || (|s| >= 1 && s[|s| - 1] == '\n' && IsDigitRun(s[..|s| - 1]))
  }

  /** isValidGtin() exactly as written, with that reading of '$'. */
  predicate IsValidGtinAsWritten(gtin: string) {
    MatchesGtinPatternAsWritten(gtin) && (|gtin| == 13 ==> Gtin13ChecksumHolds(gtin))
  }

  /** As written, a 13-digit GTIN with a wrong check digit is accepted once a
      line feed follows it: the string is 14 characters long, so the checksum
      is never computed. */
  lemma TrailingLineFeedSkipsChecksum()
    ensures !IsValidGtin("4006381333932")
    ensures IsValidGtinAsWritten("4006381333932\n")
  {
    var bad := "4006381333932";
    assert bad[..12] == "400638133393";
    Payload400638133393();
    var s := "4006381333932\n";
    assert s[..|s| - 1] == bad;
  }

  /** The two readings agree on every string that does not end in a line
      feed, so on every trimmed GTIN. */
  lemma AsWrittenAgreesWithoutLineFeed(gtin: string)
    requires gtin == [] || gtin[|gtin| - 1] != '\n'
    ensures IsValidGtinAsWritten(gtin) == IsValidGtin(gtin)
  {
  }

  /** isValidGtin() as written: the pattern test with PCRE's '$', then the
      checksum only when strlen() is 13. */
  method CheckGtinAsWritten(gtin: string) returns (ok: bool)
    ensures ok == IsValidGtinAsWritten(gtin)
  {
    if !MatchesGtinPatternAsWritten(gtin) {
      return false;
    }
    if |gtin| == 13 {
      ok := IsValidGtin13Checksum(gtin);
      return;
    }
    return true;
  }

  /** Trimming removes any final line feed, so on a trimmed GTIN (what the
      mapper hands over) the two readings agree. */
  lemma TrimmedGtinAgrees(raw: string)
    ensures IsValidGtinAsWritten(Trim(raw)) == IsValidGtin(Trim(raw))
  {
  }

  /** validate() reaches the intended GTIN verdict on every GTIN that does
      not end in a line feed. */
  lemma UnterminatedGtinVerdict(item: Item, isUrl: string -> bool)
    requires item.gtin == [] || item.gtin[|item.gtin| - 1] != '\n'
    ensures RulePasses(InvalidGtin, item, isUrl) <==> IsValidGtin(item.gtin)
  {
    AsWrittenAgreesWithoutLineFeed(item.gtin);
  }

  /** One more character of a prefix adds its weighted value. */
  lemma WeightedSumStep(s: string, k: nat)
    requires 1 <= k <= |s|
    ensures WeightedSum(s[..k]) == WeightedSum(s[..k - 1]) + Weight(k - 1) * CharInt(s[k - 1])
  {
    assert s[..k][..k - 1] == s[..k - 1];
  }

  lemma Payload400638133393()
    ensures CheckDigit("400638133393") == 1
  {
    PayloadSum("400638133393");
  }

  lemma PayloadSum(s: string)
    requires s == "400638133393"
    ensures WeightedSum(s) == 89
  {
    assert s[..12] == s;
    WeightedSumStep(s, 12);
    WeightedSumStep(s, 11);
    WeightedSumStep(s, 10);
    WeightedSumStep(s, 9);
    WeightedSumStep(s, 8);
    WeightedSumStep(s, 7);
    WeightedSumStep(s, 6);
    WeightedSumStep(s, 5);
    WeightedSumStep(s, 4);
    WeightedSumStep(s, 3);
    WeightedSumStep(s, 2);
    WeightedSumStep(s, 1);
  }

  /** The recorded examples: 4006381333931 is valid, the same payload with
      check digit 2 is not. */
  lemma Gtin13Examples()
    ensures IsValidGtin("4006381333931") && IsValidGtinAsWritten("4006381333931")
    ensures !IsValidGtin("4006381333932") && !IsValidGtinAsWritten("4006381333932")
  {
    Payload400638133393();
    assert "4006381333931"[..12] == "400638133393";
    assert "4006381333932"[..12] == "400638133393";
    AsWrittenAgreesWithoutLineFeed("4006381333931");
    AsWrittenAgreesWithoutLineFeed("4006381333932");
  }

  /** Every payload has exactly one check digit that validates it. */
  lemma CheckDigitUnique(payload: string, c: char)
    requires |payload| == 12 && AllDigits(payload) && IsDigit(c)
    ensures IsValidGtin(payload + [c]) <==> DigitValue(c) == CheckDigit(payload)
  {
    var g := payload + [c];
    assert g[..12] == payload;
    assert AllDigits(g) by {
      forall k | 0 <= k < |g| ensures IsDigit(g[k]) {
        if k < 12 { assert g[k] == payload[k]; }
      }
    }
  }

  /** Digit runs of any accepted length other than 13 pass without a
      checksum. */
  lemma OtherLengthsNeedNoChecksum(gtin: string)
    requires IsDigitRun(gtin) && |gtin| != 13
    ensures IsValidGtin(gtin)
  {
  }

  /** A single mistyped digit in the payload changes the weighted sum by the
      weight times the difference. */
  lemma {:induction false} WeightedSumChange(p: string, q: string, k: nat)
    requires |p| == |q| && k < |p|
    requires forall j :: 0 <= j < |p| && j != k ==> p[j] == q[j]
    ensures WeightedSum(q) - WeightedSum(p) == Weight(k) * (CharInt(q[k]) - CharInt(p[k]))
    decreases |p|
  {
    var n := |p| - 1;
    if k < n {
      WeightedSumChange(p[..n], q[..n], k);
      assert p[..n][k] == p[k] && q[..n][k] == q[k];
      SameLastDigit(p, q, Weight(k) * (CharInt(q[k]) - CharInt(p[k])));
    } else {
      assert p[..n] == q[..n];
      LastDigitChange(p, q);
    }
  }

  lemma SameLastDigit(p: string, q: string, d: int)
    requires |p| == |q| > 0 && p[|p| - 1] == q[|q| - 1]
    requires WeightedSum(q[..|q| - 1]) - WeightedSum(p[..|p| - 1]) == d
    ensures WeightedSum(q) - WeightedSum(p) == d
  {
  }

  lemma LastDigitChange(p: string, q: string)
    requires |p| == |q| > 0 && p[..|p| - 1] == q[..|q| - 1]
    ensures WeightedSum(q) - WeightedSum(p) == Weight(|p| - 1) * (CharInt(q[|q| - 1]) - CharInt(p[|p| - 1]))
  {
    var w: int, a: int, b: int := Weight(|p| - 1), CharInt(p[|p| - 1]), CharInt(q[|q| - 1]);
    assert w * b - w * a == w * (b - a);
  }

  /** Weights 1 and 3 both are units modulo 10, so a non-zero digit change
      never leaves the sum unchanged modulo 10. */
  lemma WeightedDigitChangeNonZero(w: nat, delta: int)
    requires w == 1 || w == 3
    requires -9 <= delta <= 9 && delta != 0
    ensures (w * delta) % 10 != 0
  {
  }

  /** The check digit depends only on the weighted sum modulo 10. */
  lemma CheckDigitDetermines(a: nat, b: nat)
    requires (10 - a % 10) % 10 == (10 - b % 10) % 10
    ensures (b - a) % 10 == 0
  {
  }

  /** Changing any one digit of a valid GTIN-13 makes it invalid. */
  lemma SingleDigitErrorDetected(gtin: string, typo: string, k: nat)
    requires IsValidGtin(gtin) && |gtin| == 13
    requires |typo| == 13 && AllDigits(typo) && k < 13 && typo[k] != gtin[k]
    requires forall j :: 0 <= j < 13 && j != k ==> typo[j] == gtin[j]
    ensures !IsValidGtin(typo)
  {
    if k < 12 {
      var p, q := gtin[..12], typo[..12];
      WeightedSumChange(p, q, k);
      var delta := CharInt(q[k]) - CharInt(p[k]);
      assert delta != 0 by {
        assert IsDigit(q[k]) && IsDigit(p[k]);
        assert q[k] != p[k];
      }
      WeightedDigitChangeNonZero(Weight(k), delta);
      if IsValidGtin(typo) {
        assert CheckDigit(q) == CheckDigit(p);
        CheckDigitDetermines(WeightedSum(p), WeightedSum(q));
        assert false;
      }
    } else {
      assert gtin[..12] == typo[..12];
      assert IsDigit(typo[12]) && IsDigit(gtin[12]);
    }
  }

  // ---------------------------------------------------------------------
  // The other field rules

  /** isValidPrice(): numeric, strictly positive and strictly below the
      limit; the comparison is exact. */
  predicate IsValidPrice(price: string) {
    IsNumeric(price) && 0.0 < NumericValue(price) < PriceLimit
  }

  /** isValidStock(). */
  predicate IsValidStock(stock: int) {
    stock >= 0
  }

  /** isValidLanguage(): case-insensitive membership in the allow-list. */
  predicate IsValidLanguage(language: string) {
    Lower(language) in ValidLanguages
  }

  lemma LanguageExamples()
    ensures IsValidLanguage("DE") && IsValidLanguage("de") && IsValidLanguage("en")
    ensures !IsValidLanguage("xx")
  {
    assert Lower("en") == "en";
    assert Lower("DE") == "de";
    assert Lower("de") == "de";
    assert Lower("xx") == "xx";
  }

  /** Every accepted language code has two characters, and lower-casing a
      code never changes the verdict. */
  lemma LanguageShape(language: string)
    ensures IsValidLanguage(language) ==> |language| == 2
    ensures IsValidLanguage(Lower(language)) == IsValidLanguage(language)
  {
    assert Lower(Lower(language)) == Lower(language);
  }

  /** isValidUrl() is PHP's filter_var with FILTER_VALIDATE_URL, which this
      model takes as a parameter `isUrl`; these are the two facts about it
      the recorded examples fix. */
  predicate AgreesWithUrlExamples(isUrl: string -> bool) {
    isUrl("https://example.com/img.jpg") && !isUrl("not-a-url")
  }

  // ---------------------------------------------------------------------
  // The verdict

  /** The outcome of each of the six rules, one field each. */
  datatype RuleVerdicts = RuleVerdicts(gtin: bool, price: bool, stock: bool, language: bool, url: bool, title: bool)

  /** Each rule applied to the field it reads. */
  function VerdictsOf(item: Item, isUrl: string -> bool): RuleVerdicts {
    RuleVerdicts(
      IsValidGtinAsWritten(item.gtin),
      IsValidPrice(item.price),
      IsValidStock(item.stock),
      IsValidLanguage(item.language),
      isUrl(item.picture),
      item.title != "")
  }

  /** Whether the rule behind category e passed. */
  predicate Passes(e: ValidationError, v: RuleVerdicts) {
    match e
    case InvalidGtin => v.gtin
    case InvalidPrice => v.price
    case InvalidStock => v.stock
    case InvalidLanguage => v.language
    case InvalidUrl => v.url
    case MissingRequiredField => v.title
  }

  /** Categories listed in strictly increasing declaration order, so each
      at most once. */
  predicate Increasing(errors: seq<ValidationError>) {
    forall j, k :: 0 <= j < k < |errors| ==> Rank(errors[j]) < Rank(errors[k])
  }

  /** The categories among `tags` whose rule failed, keeping their order. */
  function FailedAmong(tags: seq<ValidationError>, v: RuleVerdicts): (r: seq<ValidationError>)
    ensures |r| <= |tags|
    decreases |tags|
  {
    if tags == [] then []
    else
      var last := tags[|tags| - 1];
      var init := tags[..|tags| - 1];
      FailedAmong(init, v) + if Passes(last, v) then [] else [last]
  }

  lemma FailedAmongSnoc(tags: seq<ValidationError>, e: ValidationError, v: RuleVerdicts)
    ensures FailedAmong(tags + [e], v) == FailedAmong(tags, v) + if Passes(e, v) then [] else [e]
  {
    assert (tags + [e])[..|tags|] == tags;
  }

  /** A category is kept exactly when it is among the tags and its rule
      failed. */
  lemma {:induction false} FailedAmongMembers(tags: seq<ValidationError>, v: RuleVerdicts, e: ValidationError)
    ensures e in FailedAmong(tags, v) <==> e in tags && !Passes(e, v)
    decreases |tags|
  {
    if tags != [] {
      var last := tags[|tags| - 1];
      var init := tags[..|tags| - 1];
      FailedAmongMembers(init, v, e);
      assert tags == init + [last];
    }
  }

  /** Filtering keeps the order of the categories it is given. */
  lemma {:induction false} FailedAmongIncreasing(tags: seq<ValidationError>, v: RuleVerdicts)
    requires Increasing(tags)
    ensures Increasing(FailedAmong(tags, v))
    decreases |tags|
  {
    if tags != [] {
      var last := tags[|tags| - 1];
      var init := tags[..|tags| - 1];
      assert Increasing(init);
      FailedAmongIncreasing(init, v);
      var head := FailedAmong(init, v);
      forall e | e in head ensures Rank(e) < Rank(last) {
        FailedAmongMembers(init, v, e);
        var j :| 0 <= j < |init| && init[j] == e;
        assert tags[j] == e;
      }
    }
  }

  /** The categories whose rule failed, in declaration order. */
  function Errors(item: Item, isUrl: string -> bool): seq<ValidationError> {
    FailedAmong(AllErrors, VerdictsOf(item, isUrl))
  }

  /** The rule behind category e holds for the item. */
  predicate RulePasses(e: ValidationError, item: Item, isUrl: string -> bool) {
    Passes(e, VerdictsOf(item, isUrl))
  }

  /** Filtering all categories keeps exactly the failed ones, each once, in
      declaration order, and keeps none exactly when every rule passed. */
  lemma FailedCharacterised(v: RuleVerdicts)
    ensures forall e :: e in FailedAmong(AllErrors, v) <==> !Passes(e, v)
    ensures Increasing(FailedAmong(AllErrors, v))
    ensures FailedAmong(AllErrors, v) == [] <==> forall e :: Passes(e, v)
  {
    FailedMembers(v);
    AllErrorsIncreasing();
    FailedAmongIncreasing(AllErrors, v);
    var r := FailedAmong(AllErrors, v);
    if r != [] {
      assert r[0] in r;
    }
  }

  lemma FailedMembers(v: RuleVerdicts)
    ensures forall e :: e in FailedAmong(AllErrors, v) <==> !Passes(e, v)
  {
    forall e ensures e in FailedAmong(AllErrors, v) <==> !Passes(e, v) {
      AllErrorsComplete(e);
      FailedAmongMembers(AllErrors, v, e);
    }
  }

  lemma AllErrorsIncreasing()
    ensures Increasing(AllErrors)
  {
    forall j, k | 0 <= j < k < |AllErrors| ensures Rank(AllErrors[j]) < Rank(AllErrors[k]) {
      assert Rank(AllErrors[j]) == j && Rank(AllErrors[k]) == k;
    }
  }

  /** The failed categories as six successive checks, the shape validate()
      has. */
  lemma FailedInTurn(v: RuleVerdicts)
    ensures FailedAmong(AllErrors, v)
         == (if v.gtin then [] else [InvalidGtin])
          + (if v.price then [] else [InvalidPrice])
          + (if v.stock then [] else [InvalidStock])
          + (if v.language then [] else [InvalidLanguage])
          + (if v.url then [] else [InvalidUrl])
          + (if v.title then [] else [MissingRequiredField])
  {
    var t0: seq<ValidationError> := [];
    var t1 := t0 + [InvalidGtin];
    FailedAmongSnoc(t0, InvalidGtin, v);
    var t2 := t1 + [InvalidPrice];
    FailedAmongSnoc(t1, InvalidPrice, v);
    var t3 := t2 + [InvalidStock];
    FailedAmongSnoc(t2, InvalidStock, v);
    var t4 := t3 + [InvalidLanguage];
    FailedAmongSnoc(t3, InvalidLanguage, v);
    var t5 := t4 + [InvalidUrl];
    FailedAmongSnoc(t4, InvalidUrl, v);
    var t6 := t5 + [MissingRequiredField];
    FailedAmongSnoc(t5, MissingRequiredField, v);
    assert t6 == AllErrors;
  }

  /** validate(): checks the six rules in turn, appending each failed
      rule's category. */
  method Validate(item: Item, isUrl: string -> bool) returns (result: ValidationResult)
    ensures result.errors == Errors(item, isUrl)
    ensures forall e :: e in result.errors <==> !RulePasses(e, item, isUrl)
    ensures Increasing(result.errors)
    ensures result.isValid <==> forall e :: RulePasses(e, item, isUrl)
  {
    var gtinOk := CheckGtinAsWritten(item.gtin);
    var priceOk := IsValidPrice(item.price);
    var stockOk := IsValidStock(item.stock);
    var languageOk := IsValidLanguage(item.language);
    var urlOk := isUrl(item.picture);
    var titleOk := item.title != "";
    ghost var v := RuleVerdicts(gtinOk, priceOk, stockOk, languageOk, urlOk, titleOk);
    assert v == VerdictsOf(item, isUrl);
    var errors: seq<ValidationError> := [];
    // `expected` follows the shape of FailedInTurn, one rule at a time.
    ghost var expected: seq<ValidationError> := if gtinOk then [] else [InvalidGtin];
    if !gtinOk {
      errors := errors + [InvalidGtin];
    }
    assert errors == expected;
    expected := expected + if priceOk then [] else [InvalidPrice];
    if !priceOk {
      errors := errors + [InvalidPrice];
    }
    assert errors == expected;
    expected := expected + if stockOk then [] else [InvalidStock];
    if !stockOk {
      errors := errors + [InvalidStock];
    }
    assert errors == expected;
    expected := expected + if languageOk then [] else [InvalidLanguage];
    if !languageOk {
      errors := errors + [InvalidLanguage];
    }
    assert errors == expected;
    expected := expected + if urlOk then [] else [InvalidUrl];
    if !urlOk {
      errors := errors + [InvalidUrl];
    }
    assert errors == expected;
    expected := expected + if titleOk then [] else [MissingRequiredField];
    if !titleOk {
      errors := errors + [MissingRequiredField];
    }
    assert errors == expected;
    FailedInTurn(v);
    FailedCharacterised(v);
    result := ValidationResult(errors == [], errors);
  }

  /** The reference item of the recorded examples. */
  const ReferenceItem := Item("4006381333931", "en", "Valid title", "https://example.com/img.jpg", "Description", "19.99", 10)

  /** With a URL filter that agrees with the recorded examples, the
      reference item passes every rule. */
  lemma ReferenceItemPasses(isUrl: string -> bool)
    requires AgreesWithUrlExamples(isUrl)
    ensures Errors(ReferenceItem, isUrl) == []
  {
    Gtin13Examples();
    LanguageExamples();
    Price1999();
    var v := VerdictsOf(ReferenceItem, isUrl);
    assert v == RuleVerdicts(true, true, true, true, true, true);
    FailedInTurn(v);
  }

  /** As written, validate() reports no GTIN error for the mistyped GTIN
      once a line feed follows it. */
  lemma LineFeedGtinPasses(isUrl: string -> bool)
    ensures InvalidGtin !in Errors(ReferenceItem.(gtin := "4006381333932\n"), isUrl)
  {
    TrailingLineFeedSkipsChecksum();
    var item := ReferenceItem.(gtin := "4006381333932\n");
    FailedMembers(VerdictsOf(item, isUrl));
  }

  /** Each single-field defect of the recorded examples raises its own
      category. */
  lemma SingleDefectExamples(isUrl: string -> bool)
    requires AgreesWithUrlExamples(isUrl)
    ensures InvalidStock in Errors(ReferenceItem.(stock := -5), isUrl)
    ensures InvalidLanguage in Errors(ReferenceItem.(language := "xx"), isUrl)
    ensures InvalidUrl in Errors(ReferenceItem.(picture := "not-a-url"), isUrl)
    ensures InvalidGtin in Errors(ReferenceItem.(gtin := "4006381333932"), isUrl)
    ensures MissingRequiredField in Errors(ReferenceItem.(title := ""), isUrl)
  {
    DefectExample(ReferenceItem.(stock := -5), isUrl, InvalidStock);
    DefectExample(ReferenceItem.(language := "xx"), isUrl, InvalidLanguage);
    DefectExample(ReferenceItem.(picture := "not-a-url"), isUrl, InvalidUrl);
    DefectExample(ReferenceItem.(gtin := "4006381333932"), isUrl, InvalidGtin);
    DefectExample(ReferenceItem.(title := ""), isUrl, MissingRequiredField);
  }

  /** The five defective variants of the reference item, each paired with
      the category its defect raises. */
  predicate IsDefectExample(item: Item, e: ValidationError) {
    || (item == ReferenceItem.(stock := -5) && e == InvalidStock)
    || (item == ReferenceItem.(language := "xx") && e == InvalidLanguage)
    || (item == ReferenceItem.(picture := "not-a-url") && e == InvalidUrl)
    || (item == ReferenceItem.(gtin := "4006381333932") && e == InvalidGtin)
    || (item == ReferenceItem.(title := "") && e == MissingRequiredField)
  }

  lemma DefectExample(item: Item, isUrl: string -> bool, e: ValidationError)
    requires AgreesWithUrlExamples(isUrl)
    requires IsDefectExample(item, e)
    ensures e in Errors(item, isUrl)
  {
    Gtin13Examples();
    LanguageExamples();
    DefectRaises(item, isUrl, e);
  }

  /** A failed rule puts its category among the errors. */
  lemma DefectRaises(item: Item, isUrl: string -> bool, e: ValidationError)
    requires !RuleHolds(e, item, isUrl)
    ensures e in Errors(item, isUrl)
  {
    AllErrorsComplete(e);
    FailedAmongMembers(AllErrors, VerdictsOf(item, isUrl), e);
  }

  /** The rule behind category e, applied only to the field it reads. */
  predicate RuleHolds(e: ValidationError, item: Item, isUrl: string -> bool) {
    match e
    case InvalidGtin => IsValidGtinAsWritten(item.gtin)
    case InvalidPrice => IsValidPrice(item.price)
    case InvalidStock => IsValidStock(item.stock)
    case InvalidLanguage => IsValidLanguage(item.language)
    case InvalidUrl => isUrl(item.picture)
    case MissingRequiredField => item.title != ""
  }

  /** An upper-case language code passes like its lower-case form. */
  lemma UpperCaseLanguageExample(isUrl: string -> bool)
    requires AgreesWithUrlExamples(isUrl)
    ensures Errors(ReferenceItem.(language := "DE"), isUrl) == []
  {
    Gtin13Examples();
    LanguageExamples();
    Price1999();
    var v := VerdictsOf(ReferenceItem.(language := "DE"), isUrl);
    assert v == RuleVerdicts(true, true, true, true, true, true);
    FailedInTurn(v);
  }

  lemma Price1999()
    ensures IsValidPrice("19.99")
  {
    PriceLiteralValid("19.99");
  }

  lemma PriceLiteralValid(price: string)
    requires price == "19.99"
    ensures IsValidPrice(price)
  {
    var w, f := price[..2], price[3..];
    TwoDigits(w, 19);
    TwoDigits(f, 99);
    PlainDecimalValue(w, f);
    SplitAtDot(price, 2);
    assert Pow10(|f|) == 100;
    PriceInRange(19, 99);
  }

  lemma PriceInRange(a: nat, b: nat)
    requires a == 19 && b == 99
    ensures 0.0 < a as real + b as real / 100 as real < PriceLimit
  {
  }

  lemma TwoDigits(s: string, n: nat)
    requires |s| == 2 && AllDigits(s) && n == DigitValue(s[0]) * 10 + DigitValue(s[1])
    ensures DigitsValue(s) == n
  {
    var a := s[..1];
    assert a[..0] == [] && a[0] == s[0] && s[..|s| - 1] == a;
    assert DigitsValue(a) == DigitValue(s[0]);
  }
}
