/** The ValidationError enum: six rule categories, each with a snake_case
    backing value and a fixed human-readable message. */
module ValidationErrors {

  datatype ValidationError =
    | InvalidGtin
    | InvalidPrice
    | InvalidStock
    | InvalidLanguage
    | InvalidUrl
    | MissingRequiredField

  /** Every case, in declaration order (also the order the validator checks
      its rules in). */
  const AllErrors: seq<ValidationError> :=
    [InvalidGtin, InvalidPrice, InvalidStock, InvalidLanguage, InvalidUrl, MissingRequiredField]

  /** The position of a case in AllErrors. */
  function Rank(e: ValidationError): (k: nat)
    ensures k < |AllErrors| && AllErrors[k] == e
  {
    match e
    case InvalidGtin => 0
    case InvalidPrice => 1
    case InvalidStock => 2
    case InvalidLanguage => 3
    case InvalidUrl => 4
    case MissingRequiredField => 5
  }

  /** The string backing value of a case. */
  function Value(e: ValidationError): string {
    match e
    case InvalidGtin => "invalid_gtin"
    case InvalidPrice => "invalid_price"
    case InvalidStock => "invalid_stock"
    case InvalidLanguage => "invalid_language"
    case InvalidUrl => "invalid_url"
    case MissingRequiredField => "missing_required_field"
  }

  /** getMessage(): the text shown for a case. */
  function Message(e: ValidationError): string {
    match e
    case InvalidGtin => "Invalid GTIN format or checksum"
    case InvalidPrice => "Price must be a positive number"
    case InvalidStock => "Stock cannot be negative"
    case InvalidLanguage => "Invalid language code"
    case InvalidUrl => "Invalid URL format"
    case MissingRequiredField => "Required field is empty"
  }

  /** array_map of getMessage() over a list of cases: one message per case,
      in the same order. */
  function Messages(errors: seq<ValidationError>): (ms: seq<string>)
    ensures |ms| == |errors|
    ensures forall k :: 0 <= k < |errors| ==> ms[k] == Message(errors[k])
  {
    if errors == [] then [] else [Message(errors[0])] + Messages(errors[1..])
  }

  predicate IsSnakeCase(s: string) {
    |s| > 0 && s[0] != '_' && s[|s| - 1] != '_' &&
    forall k :: 0 <= k < |s| ==> ('a' <= s[k] <= 'z' || s[k] == '_')
  }

  /** AllErrors lists every case exactly once. */
  lemma AllErrorsComplete(e: ValidationError)
    ensures e in AllErrors
    ensures forall j, k :: 0 <= j < k < |AllErrors| ==> AllErrors[j] != AllErrors[k]
  {
    assert AllErrors[Rank(e)] == e;
  }

  /** Distinct cases have distinct messages and distinct backing values, and
      every backing value is a snake_case tag. */
  lemma MessagesAndValuesDistinct(e1: ValidationError, e2: ValidationError)
    ensures e1 != e2 ==> Message(e1) != Message(e2)
    ensures e1 != e2 ==> Value(e1) != Value(e2)
    ensures IsSnakeCase(Value(e1))
  {
    MessagesDistinct(e1, e2);
    ValuesDistinct(e1, e2);
    ValueIsSnakeCase(e1);
  }

  lemma MessagesDistinct(e1: ValidationError, e2: ValidationError)
    ensures e1 != e2 ==> Message(e1) != Message(e2)
  {
    if e1 != e2 {
      if |Message(e1)| == |Message(e2)| {
        assert {e1, e2} == {InvalidGtin, InvalidPrice};
        assert Message(e1)[0] != Message(e2)[0];
      }
    }
  }

  lemma ValuesDistinct(e1: ValidationError, e2: ValidationError)
    ensures e1 != e2 ==> Value(e1) != Value(e2)
  {
    if e1 != e2 {
      assert |Value(e1)| != |Value(e2)| || Value(e1)[8] != Value(e2)[8];
    }
  }

  lemma ValueIsSnakeCase(e: ValidationError)
    ensures IsSnakeCase(Value(e))
  {
  }
}
