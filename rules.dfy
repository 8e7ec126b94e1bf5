/**
 The five local password rules of validators.py (LengthValidator,
 DigitValidator, SpecialCharValidator, UpperValidator, LowerValidator).
 Each either passes or fails with its own fixed message; raising
 `ValidationError(msg)` becomes `Fail(msg)`.

 Character classification (`str.isdigit`, `str.isalnum`, `str.isupper`,
 `str.islower`) depends on the host's Unicode tables, so it is a
 parameter: a `Classifier` holds the four predicates. `Ascii` is one
 concrete classifier, used for the worked scenarios.
 */
module LocalRules {
  import opened PyStr

  /** A rule's verdict: `True` returned, or `ValidationError(msg)` raised. */
  datatype Outcome = Ok | Fail(msg: string)

  datatype Classifier = Classifier(
    isDigit: char -> bool,
    isAlnum: char -> bool,
    isUpper: char -> bool,
    isLower: char -> bool)

  /** What Python guarantees of any classifier: every digit is alphanumeric. */
  predicate Consistent(cls: Classifier)
  {
    forall c :: cls.isDigit(c) ==> cls.isAlnum(c)
  }

  predicate IsAsciiDigit(c: char) { '0' <= c <= '9' }
  predicate IsAsciiUpper(c: char) { 'A' <= c <= 'Z' }
  predicate IsAsciiAlnum(c: char) { IsAsciiDigit(c) || IsAsciiUpper(c) || IsAsciiLower(c) }

  /** Python's classification restricted to ASCII characters. */
  const Ascii: Classifier := Classifier(
    c => IsAsciiDigit(c),
    c => IsAsciiAlnum(c),
    c => IsAsciiUpper(c),
    c => IsAsciiLower(c))

  const MinLength: nat := 8

  const LengthMessage := "Password must contain at least 8 characters. "
  const DigitMessage := "Password must contain at least one number. "
  const SpecialCharMessage := "Password must contain at least 1 special character. "
  const UpperMessage := "Password must contain at least 1 Upper letter. "
  const LowerMessage := "Password must contain at least 1 lower letter. "

  /** LengthValidator.is_valid: `len(password) >= 8`. */
  function LengthRule(password: string): (r: Outcome)
    ensures r == Ok <==> |password| >= MinLength
    ensures r != Ok ==> r == Fail(LengthMessage)
  {
    if |password| >= MinLength then Ok else Fail(LengthMessage)
  }

  /** DigitValidator.is_valid: `any([letter.isdigit() for letter in password])`. */
  function DigitRule(password: string, cls: Classifier): (r: Outcome)
    ensures r == Ok <==> exists i :: 0 <= i < |password| && cls.isDigit(password[i])
    ensures r != Ok ==> r == Fail(DigitMessage)
  {
    if Any(Classify(password, cls.isDigit)) then Ok else Fail(DigitMessage)
  }

  /**
   SpecialCharValidator.is_valid: `not all([letter.isalnum() for letter in password])`.
   A special character is one the classifier does not call alphanumeric;
   the empty password has none, since `all([])` is true.
   */
  function SpecialCharRule(password: string, cls: Classifier): (r: Outcome)
    ensures r == Ok <==> exists i :: 0 <= i < |password| && !cls.isAlnum(password[i])
    ensures r != Ok ==> r == Fail(SpecialCharMessage)
    ensures password == [] ==> r == Fail(SpecialCharMessage)
  {
    if !All(Classify(password, cls.isAlnum)) then Ok else Fail(SpecialCharMessage)
  }

  /** UpperValidator.is_valid: `any([letter.isupper() for letter in password])`. */
  function UpperRule(password: string, cls: Classifier): (r: Outcome)
    ensures r == Ok <==> exists i :: 0 <= i < |password| && cls.isUpper(password[i])
    ensures r != Ok ==> r == Fail(UpperMessage)
  {
    if Any(Classify(password, cls.isUpper)) then Ok else Fail(UpperMessage)
  }

  /** LowerValidator.is_valid: `any([letter.islower() for letter in password])`. */
  function LowerRule(password: string, cls: Classifier): (r: Outcome)
    ensures r == Ok <==> exists i :: 0 <= i < |password| && cls.isLower(password[i])
    ensures r != Ok ==> r == Fail(LowerMessage)
  {
    if Any(Classify(password, cls.isLower)) then Ok else Fail(LowerMessage)
  }

  /**
   Under a consistent classifier a password made only of digits never has
   a special character, so it passes DigitRule and fails SpecialCharRule.
   */
  lemma DigitsOnlyLackSpecialChar(password: string, cls: Classifier)
    requires Consistent(cls)
    requires |password| > 0
    requires forall i :: 0 <= i < |password| ==> cls.isDigit(password[i])
    ensures DigitRule(password, cls) == Ok
    ensures SpecialCharRule(password, cls) == Fail(SpecialCharMessage)
  {
    assert cls.isDigit(password[0]);
  }
}
