/** ValidationResult: the validator's verdict, a validity flag and the list
    of failed rule categories. The record stores both as given; that the flag
    agrees with the list is the validator's promise, not the record's. */
module ValidationResults {
  import opened ValidationErrors

  datatype ValidationResult = ValidationResult(isValid: bool, errors: seq<ValidationError>)

  /** getErrorMessages(): the message of each stored category, in order. */
  function ErrorMessages(r: ValidationResult): (ms: seq<string>)
    ensures |ms| == |r.errors|
    ensures forall k :: 0 <= k < |ms| ==> ms[k] == Message(r.errors[k])
  {
    Messages(r.errors)
  }

  /** The recorded example: a price and a URL failure give their two
      messages in that order. */
  lemma PriceAndUrlMessages()
    ensures ErrorMessages(ValidationResult(false, [InvalidPrice, InvalidUrl]))
         == ["Price must be a positive number", "Invalid URL format"]
  {
  }
}
