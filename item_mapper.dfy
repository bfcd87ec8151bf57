/** ItemMapper: turns one data row (column name to text) into an Item, or
    fails with the list of required columns the row lacks. */
module Mapping {
  import opened Wrappers
  import opened PhpStrings
  import opened PhpNumbers
  import opened Items

  /** A data row: column name to raw cell text. */
  type Row = map<string, string>

  /** The seven columns every row must carry, in the order the failure
      message lists them. */
  const RequiredColumns: seq<string> := ["gtin", "language", "title", "picture", "description", "price", "stock"]

  /** getRequiredColumns(): seven distinct column names, led by the GTIN. */
  function GetRequiredColumns(): (columns: seq<string>)
    ensures |columns| == 7 && columns[0] == "gtin"
    ensures forall j, k :: 0 <= j < k < |columns| ==> columns[j] != columns[k]
  {
    RequiredColumns
  }

  /** Every required column is a key of the row (values may be empty). */
  predicate HasRequiredColumns(row: Row) {
    && "gtin" in row && "language" in row && "title" in row && "picture" in row
    && "description" in row && "price" in row && "stock" in row
  }

  /** The same as: every entry of RequiredColumns is a key of the row. */
  lemma HasRequiredColumnsListed(row: Row)
    ensures HasRequiredColumns(row) <==> forall c :: c in RequiredColumns ==> c in row
  {
    assert RequiredColumns[0] == "gtin" && RequiredColumns[1] == "language";
    assert RequiredColumns[2] == "title" && RequiredColumns[3] == "picture";
    assert RequiredColumns[4] == "description" && RequiredColumns[5] == "price";
    assert RequiredColumns[6] == "stock";
  }

  /** supports(): scans the required columns and stops at the first one the
      row lacks. */
  method Supports(row: Row) returns (ok: bool)
    ensures ok <==> HasRequiredColumns(row)
  {
    for i := 0 to |RequiredColumns|
      invariant forall k :: 0 <= k < i ==> RequiredColumns[k] in row
    {
      if RequiredColumns[i] !in row {
        HasRequiredColumnsListed(row);
        return false;
      }
    }
    HasRequiredColumnsListed(row);
    return true;
  }

  /** The columns among `columns` that the row lacks, in their order. */
  function MissingAmong(columns: seq<string>, row: Row): (missing: seq<string>)
    ensures |missing| <= |columns|
    decreases |columns|
  {
    if columns == [] then []
    else
      var last := columns[|columns| - 1];
      MissingAmong(columns[..|columns| - 1], row) + if last in row then [] else [last]
  }

  /** A column is reported exactly when it is listed and absent. */
  lemma {:induction false} MissingAmongMembers(columns: seq<string>, row: Row, c: string)
    ensures c in MissingAmong(columns, row) <==> c in columns && c !in row
    decreases |columns|
  {
    if columns != [] {
      var init := columns[..|columns| - 1];
      MissingAmongMembers(init, row, c);
      assert columns == init + [columns[|columns| - 1]];
    }
  }

  /** The required columns the row lacks, in required order. */
  function MissingColumns(row: Row): seq<string> {
    MissingAmong(RequiredColumns, row)
  }

  /** Nothing is missing exactly when the row carries every required
      column; otherwise exactly the absent ones are listed. */
  lemma MissingColumnsCharacterised(row: Row)
    ensures forall c :: c in MissingColumns(row) <==> c in RequiredColumns && c !in row
    ensures MissingColumns(row) == [] <==> HasRequiredColumns(row)
  {
    MissingAmongCharacterised(RequiredColumns, row);
    HasRequiredColumnsListed(row);
  }

  lemma MissingAmongCharacterised(columns: seq<string>, row: Row)
    ensures forall c :: c in MissingAmong(columns, row) <==> c in columns && c !in row
    ensures MissingAmong(columns, row) == [] <==> forall c :: c in columns ==> c in row
  {
    forall c ensures c in MissingAmong(columns, row) <==> c in columns && c !in row {
      MissingAmongMembers(columns, row, c);
    }
    var m := MissingAmong(columns, row);
    if m != [] {
      assert m[0] in m;
    }
  }

  /** The MappingException a row without all required columns raises. */
  datatype MappingError = MappingError(message: string)

  const MissingPrefix := "Missing required columns: "

  function MissingMessage(missing: seq<string>): string {
    MissingPrefix + Join(", ", missing)
  }

  /** assertRequiredColumns(): collects every absent required column and
      fails with their list when there is any. */
  method AssertRequiredColumns(row: Row) returns (outcome: Outcome<MappingError>)
    ensures outcome.Pass? <==> HasRequiredColumns(row)
    ensures outcome.Fail? ==> outcome.error == MappingError(MissingMessage(MissingColumns(row)))
  {
    var missing: seq<string> := [];
    for i := 0 to |RequiredColumns|
      invariant missing == MissingAmong(RequiredColumns[..i], row)
    {
      var column := RequiredColumns[i];
      assert RequiredColumns[..i + 1] == RequiredColumns[..i] + [column];
      assert RequiredColumns[..i + 1][..i] == RequiredColumns[..i];
      if column !in row {
        missing := missing + [column];
      }
    }
    assert RequiredColumns[..|RequiredColumns|] == RequiredColumns;
    MissingColumnsCharacterised(row);
    if missing != [] {
      return Fail(MappingError(MissingMessage(missing)));
    }
    return Pass;
  }

  /** normalizePrice(): the trimmed text, rendered with two decimals when it
      is numeric. */
  function NormalizePrice(price: string): string {
    var value := Trim(price);
    if IsNumeric(value) then NumberFormat2(value) else value
  }

  /** map(): the trimmed text fields, the normalised price and the integer
      cast of the raw stock text; a row lacking required columns fails. */
  function Map(row: Row): Result<Item, MappingError> {
    if !HasRequiredColumns(row) then Failure(MappingError(MissingMessage(MissingColumns(row))))
    else
      Success(Item(
        Trim(row["gtin"]),
        Trim(row["language"]),
        Trim(row["title"]),
        Trim(row["picture"]),
        Trim(row["description"]),
        NormalizePrice(row["price"]),
        IntCast(row["stock"])))
  }

  // ---------------------------------------------------------------------
  // Properties

  /** Mapping fails exactly when supports() is false, and the failure names
      exactly the absent required columns, in required order. */
  lemma MapFailsIffUnsupported(row: Row)
    ensures Map(row).Failure? <==> !HasRequiredColumns(row)
    ensures Map(row).Failure? ==>
      && Map(row).error.message == MissingPrefix + Join(", ", MissingColumns(row))
      && MissingColumns(row) != []
      && forall c :: c in MissingColumns(row) <==> c in RequiredColumns && c !in row
  {
    MissingColumnsCharacterised(row);
  }

  /** Only key presence matters: a row holding every required column maps
      successfully whatever its values, empty strings included. */
  lemma EmptyValuesStillMap(row: Row)
    requires HasRequiredColumns(row)
    ensures Map(row).Success?
  {
  }

  /** The recorded example of an all-empty row: it maps, with empty text
      fields, the empty price kept and stock 0. */
  lemma EmptyRowExample(row: Row)
    requires row == map c | c in RequiredColumns :: ""
    ensures Map(row) == Success(Item("", "", "", "", "", "", 0))
  {
    HasRequiredColumnsListed(row);
    assert forall c :: c in RequiredColumns ==> c in row && row[c] == "";
    EmptyCell(row["gtin"]);
    EmptyCell(row["language"]);
    EmptyCell(row["title"]);
    EmptyCell(row["picture"]);
    EmptyCell(row["description"]);
    EmptyCell(row["price"]);
    EmptyCell(row["stock"]);
  }

  /** An empty cell trims to empty, keeps its empty price and casts to 0. */
  lemma EmptyCell(s: string)
    requires s == ""
    ensures Trim(s) == "" && NormalizePrice(s) == "" && IntCast(s) == 0
  {
    assert DropLeadingSpace(s) == "" && DropTrailingSpace(s) == "";
    assert IndexOfDot(s) == 0;
    assert !IsNumeric(s);
  }

  /** Columns beyond the required seven do not affect the result. */
  lemma ExtraColumnsIgnored(row: Row, other: Row)
    requires forall c :: c in RequiredColumns ==> (c in row <==> c in other)
    requires forall c :: c in RequiredColumns && c in row ==> row[c] == other[c]
    ensures Map(row) == Map(other)
  {
    forall c ensures c in MissingColumns(row) <==> c in MissingColumns(other) {
      MissingAmongMembers(RequiredColumns, row, c);
      MissingAmongMembers(RequiredColumns, other, c);
    }
    MissingSameAbsence(RequiredColumns, row, other);
  }

  lemma {:induction false} MissingSameAbsence(columns: seq<string>, row: Row, other: Row)
    requires forall c :: c in columns ==> (c in row <==> c in other)
    ensures MissingAmong(columns, row) == MissingAmong(columns, other)
    decreases |columns|
  {
    if columns != [] {
      var init := columns[..|columns| - 1];
      assert forall c :: c in init ==> c in columns;
      MissingSameAbsence(init, row, other);
      assert columns[|columns| - 1] in columns;
    }
  }

  /** Each text field is the raw cell with the PHP-trimmable characters
      removed from both ends and nothing else changed. */
  lemma FieldsAreTrimmed(row: Row)
    requires HasRequiredColumns(row)
    ensures IsTrimmingOf(Map(row).value.gtin, row["gtin"])
    ensures IsTrimmingOf(Map(row).value.language, row["language"])
    ensures IsTrimmingOf(Map(row).value.title, row["title"])
    ensures IsTrimmingOf(Map(row).value.picture, row["picture"])
    ensures IsTrimmingOf(Map(row).value.description, row["description"])
  {
    var item := Map(row).value;
    assert item.gtin == Trim(row["gtin"]) && item.language == Trim(row["language"]);
    assert item.title == Trim(row["title"]) && item.picture == Trim(row["picture"]);
    assert item.description == Trim(row["description"]);
    TrimIsATrimming(row["gtin"]);
    TrimIsATrimming(row["language"]);
    TrimIsATrimming(row["title"]);
    TrimIsATrimming(row["picture"]);
    TrimIsATrimming(row["description"]);
  }

  /** A price whose trimmed text is not numeric is kept as that text. */
  lemma NonNumericPriceKept(price: string)
    requires !IsNumeric(Trim(price))
    ensures NormalizePrice(price) == Trim(price)
  {
  }

  /** A numeric price comes out in fixed two-decimal notation; when it had at
      most two fraction digits its value is unchanged. */
  lemma NumericPriceFixed(price: string)
    requires IsNumeric(Trim(price))
    ensures IsFixedTwo(NormalizePrice(price))
    ensures IsNumeric(NormalizePrice(price))
    ensures |NumericLiteral(Trim(price)).value.fraction| <= 2 ==>
      NumericValue(NormalizePrice(price)) == NumericValue(Trim(price))
  {
    NumberFormat2Idempotent(Trim(price));
    if |NumericLiteral(Trim(price)).value.fraction| <= 2 {
      NumberFormat2KeepsShortValues(Trim(price));
    }
  }

  /** Normalising a normalised price changes nothing. */
  lemma NormalizePriceIdempotent(price: string)
    ensures NormalizePrice(NormalizePrice(price)) == NormalizePrice(price)
  {
    var value := Trim(price);
    TrimIdempotent(price);
    if IsNumeric(value) {
      var r := NumberFormat2(value);
      NumberFormat2Idempotent(value);
      FormattedIsTrimmed(r);
    }
  }

  /** Fixed two-decimal text has nothing to trim. */
  lemma FormattedIsTrimmed(r: string)
    requires IsFixedTwo(r)
    ensures Trim(r) == r
  {
    assert !IsTrimmable(r[|r| - 1]);
    assert !IsTrimmable(r[0]) by {
      if r[0] != '-' {
        assert r[..|r| - 3][0] == r[0];
      }
    }
    TrimKeeps(r);
  }

  /** The recorded example: "738.7" becomes "738.70". */
  lemma PriceExample()
    ensures NormalizePrice("738.7") == "738.70"
  {
    PriceNormalised("738.7");
  }

  lemma PriceNormalised(s: string)
    requires s == "738.7"
    ensures NormalizePrice(s) == "738.70"
  {
    var w, f := s[..3], s[4..];
    CentsOf7387(Decimal(false, w, f));
    PlainPriceNormalised(w, f);
    SplitAtDot(s, 3);
    Cents73870(73870);
  }

  /** An unsigned plain decimal already trimmed is rendered from its value
      rounded to hundredths. */
  lemma PlainPriceNormalised(w: string, f: string)
    requires AllDigits(w) && |w| >= 1 && AllDigits(f) && |f| >= 1
    ensures WellFormed(Decimal(false, w, f))
    ensures NormalizePrice(w + "." + f) == FormatCents(false, Cents(Decimal(false, w, f)))
  {
    var s := w + "." + f;
    assert s[0] == w[0] && s[|s| - 1] == f[|f| - 1];
    TrimKeeps(s);
    PlainDecimal(w, f);
  }

  lemma CentsOf7387(d: Decimal)
    requires d.whole == "738" && d.fraction == "7"
    ensures WellFormed(d) && Cents(d) == 73870
  {
    Digits738(d.whole);
    var p := d.fraction + "000";
    assert p[0] == '7' && p[1] == '0' && p[2] == '0';
    assert RoundedCents(d.fraction) == 70;
  }

  lemma Cents73870(c: nat)
    requires c == 73870
    ensures FormatCents(false, c) == "738.70"
  {
    assert c / 100 == 738 && c % 100 / 10 == 7 && c % 10 == 0;
    assert UnsignedCents(c) == NatToString(738) + "." + ['7', '0'];
    assert NatToString(738) == "738" by {
      Digits738("738");
      NatToStringOfValue("738");
    }
    assert "738" + "." + ['7', '0'] == "738.70";
  }

  lemma Digits738(s: string)
    requires s == "738"
    ensures IsCanonicalDigits(s) && DigitsValue(s) == 738
  {
    var a, b := s[..1], s[..2];
    assert a[..0] == [] && b[..1] == a && s[..|s| - 1] == b;
    assert DigitsValue(a) == 7;
    assert DigitsValue(b) == 73;
  }

  /** The recorded examples for the stock column: "10" casts to 10, also
      after leading blanks, and non-numeric text to 0. */
  lemma StockDigits()
    ensures IntCast("10") == 10
  {
    Digits10();
    IntCastOfDigits("", "10");
    assert "" + "10" == "10";
  }

  /** "10" after any run of PHP whitespace (blanks, tabs, line breaks)
      still casts to 10; the recorded example pads it with two blanks. */
  lemma StockPadded(pad: string)
    requires forall k :: 0 <= k < |pad| ==> IsNumericSpace(pad[k])
    ensures IntCast(pad + "10") == 10
  {
    Digits10();
    IntCastOfDigits(pad, "10");
  }

  lemma StockText()
    ensures IntCast("abc") == 0
  {
    var s := "abc";
    assert DropLeadingSpace(s) == s;
    assert !IsDigit(s[0]);
  }

  lemma Digits10()
    ensures AllDigits("10") && DigitsValue("10") == 10
  {
    assert "10"[..1] == "1" && "1"[..0] == [];
  }

  /** The recorded example of a row with only a GTIN: it is unsupported and
      the failure lists the six other columns. */
  lemma MissingColumnsExample()
    ensures !HasRequiredColumns(map["gtin" := "123"])
    ensures Map(map["gtin" := "123"]) ==
      Failure(MappingError(MissingMessage(["language", "title", "picture", "description", "price", "stock"])))
  {
    OnlyGtinMisses(map["gtin" := "123"]);
  }

  lemma OnlyGtinMisses(row: Row)
    requires row == map["gtin" := "123"]
    ensures !HasRequiredColumns(row)
    ensures MissingColumns(row) == ["language", "title", "picture", "description", "price", "stock"]
  {
    assert "language" !in row;
    var t0: seq<string> := [];
    var t1 := t0 + ["gtin"];
    MissingSnoc(t0, "gtin", row);
    var t2 := t1 + ["language"];
    MissingSnoc(t1, "language", row);
    var t3 := t2 + ["title"];
    MissingSnoc(t2, "title", row);
    var t4 := t3 + ["picture"];
    MissingSnoc(t3, "picture", row);
    var t5 := t4 + ["description"];
    MissingSnoc(t4, "description", row);
    var t6 := t5 + ["price"];
    MissingSnoc(t5, "price", row);
    var t7 := t6 + ["stock"];
    MissingSnoc(t6, "stock", row);
    assert t7 == RequiredColumns;
  }

  lemma MissingSnoc(columns: seq<string>, c: string, row: Row)
    ensures MissingAmong(columns + [c], row) == MissingAmong(columns, row) + if c in row then [] else [c]
  {
    assert (columns + [c])[..|columns|] == columns;
  }
}
