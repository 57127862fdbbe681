/**
 * Input validators and sanitisers (`lib/validation.ts`). Each validator
 * returns the sanitized value or the message the user is shown.
 */
module Validation {
  import opened Common
  import opened Text
  import opened Numeric
  import opened Tables

  /** `{ isValid: true, sanitized }` or `{ isValid: false, error }`. */
  datatype Checked<T> = Valid(sanitized: T) | Invalid(error: string)

  /** The characters `sanitizeString` strips: angle brackets, then quotes. */
  const AngleBrackets: set<char> := {'<', '>'}
  const Quotes: set<char> := {'\'', '"'}
  const MaxSanitizedLength: nat := 1000

  /** Trim, strip `<>`, strip quotes, then keep at most 1000 characters. */
  function SanitizeString(input: string): (r: string)
    ensures |r| <= MaxSanitizedLength
    ensures forall i :: 0 <= i < |r| ==> r[i] !in AngleBrackets && r[i] !in Quotes
  {
    var stripped := Remove(Remove(Trim(input), AngleBrackets), Quotes);
    var r := Prefix(stripped, MaxSanitizedLength);
    forall i | 0 <= i < |r| ensures r[i] !in AngleBrackets && r[i] !in Quotes {
      assert r[i] == stripped[i];
      assert stripped[i] in Remove(Trim(input), AngleBrackets);
    }
    r
  }

  /**
   * Because trimming happens before stripping, sanitizing twice is the same
   * as trimming the sanitized string once more: not the identity in general.
   */
  lemma SanitizeTwice(input: string)
    ensures SanitizeString(SanitizeString(input)) == Trim(SanitizeString(input))
  {
    var s := SanitizeString(input);
    var t := Trim(s);
    forall i | 0 <= i < |t| ensures t[i] !in AngleBrackets && t[i] !in Quotes {
      assert t[i] == s[TrimOffset(s) + i];
    }
    RemoveAbsent(t, AngleBrackets);
    RemoveAbsent(t, Quotes);
    assert Prefix(t, MaxSanitizedLength) == t;
  }

  /** A witness that sanitizing is not idempotent: `"< >"` gives `" "`, which gives `""`. */
  lemma SanitizeNotIdempotent()
    ensures SanitizeString("< >") == " "
    ensures SanitizeString(" ") == ""
  {
    TrimOfTrimmed("< >");
    StripAngles();
    RemoveAbsent(" ", Quotes);
    BlankIffAllSpace(" ");
  }

  lemma StripAngles()
    ensures Remove("< >", AngleBrackets) == " "
  {
    assert "< >"[1..] == " >" && " >"[1..] == ">" && ">"[1..] == [];
    assert Remove(">", AngleBrackets) == [];
    assert Remove(" >", AngleBrackets) == " ";
  }

  /** The three free-text fields and their bounds. */
  datatype Field = NameField | TitleField | OptionField

  function MaxLength(f: Field): nat {
    match f
    case NameField => 50
    case TitleField => 100
    case OptionField => 200
  }

  function RequiredMessage(f: Field): string {
    match f
    case NameField => "Name is required"
    case TitleField => "Title is required"
    case OptionField => "Option is required"
  }

  function TooShortMessage(f: Field): string {
    match f
    case NameField => "Name must be at least 1 character long"
    case TitleField => "Title must be at least 1 character long"
    case OptionField => "Option must be at least 1 character long"
  }

  function TooLongMessage(f: Field): string {
    match f
    case NameField => "Name must be no more than 50 characters long"
    case TitleField => "Title must be no more than 100 characters long"
    case OptionField => "Option must be no more than 200 characters long"
  }

  function WhitespaceMessage(f: Field): string {
    match f
    case NameField => "Name cannot be only whitespace"
    case TitleField => "Title cannot be only whitespace"
    case OptionField => "Option cannot be only whitespace"
  }

  /**
   * The shared scheme of `validateName`, `validateTitle` and `validateOption`:
   * required, then sanitized, then at least one and at most the field's
   * maximum characters, then not only whitespace.
   */
  function ValidateField(input: string, field: Field): (r: Checked<string>)
    ensures input == [] ==> r == Invalid(RequiredMessage(field))
    ensures r.Valid? <==> input != [] && 1 <= |SanitizeString(input)| <= MaxLength(field) && !AllSpace(SanitizeString(input))
    ensures r.Valid? ==> r.sanitized == SanitizeString(input)
  {
    if input == [] then Invalid(RequiredMessage(field))
    else
      var sanitized := SanitizeString(input);
      BlankIffAllSpace(sanitized);
      if |sanitized| < 1 then Invalid(TooShortMessage(field))
      else if |sanitized| > MaxLength(field) then Invalid(TooLongMessage(field))
      else if Trim(sanitized) == [] then Invalid(WhitespaceMessage(field))
      else Valid(sanitized)
  }

  function ValidateName(name: string): (r: Checked<string>)
    ensures name == [] ==> r == Invalid("Name is required")
    ensures r.Valid? ==> r.sanitized == SanitizeString(name) && 1 <= |r.sanitized| <= 50
    ensures r.Valid? ==> exists i :: 0 <= i < |r.sanitized| && !IsSpace(r.sanitized[i])
  {
    ValidateField(name, NameField)
  }

  function ValidateTitle(title: string): (r: Checked<string>)
    ensures title == [] ==> r == Invalid("Title is required")
    ensures r.Valid? ==> r.sanitized == SanitizeString(title) && 1 <= |r.sanitized| <= 100
    ensures r.Valid? ==> exists i :: 0 <= i < |r.sanitized| && !IsSpace(r.sanitized[i])
  {
    ValidateField(title, TitleField)
  }

  function ValidateOption(option: string): (r: Checked<string>)
    ensures option == [] ==> r == Invalid("Option is required")
    ensures r.Valid? ==> r.sanitized == SanitizeString(option) && 1 <= |r.sanitized| <= 200
    ensures r.Valid? ==> exists i :: 0 <= i < |r.sanitized| && !IsSpace(r.sanitized[i])
  {
    ValidateField(option, OptionField)
  }

  /** A name made only of stripped characters and spaces is rejected as whitespace, not as empty. */
  lemma WhitespaceNameRejected()
    ensures ValidateName("< >") == Invalid("Name cannot be only whitespace")
  {
    SanitizeNotIdempotent();
  }

  /** `validateAmount` takes a string or a number; `None` is `NaN`. */
  datatype AmountInput = AmountText(text: string) | AmountNumber(number: Option<real>)

  /** `!amount`: the empty string, 0 and `NaN` are falsy. */
  predicate Falsy(a: AmountInput) {
    match a
    case AmountText(t) => t == []
    case AmountNumber(n) => n == None || n == Some(0.0)
  }

  function ParsedAmount(a: AmountInput): Option<real> {
    match a
    case AmountText(t) => ParseFloat(t)
    case AmountNumber(n) => n
  }

  /** `Math.round(x * 100) / 100`, with `Math.round(v) = floor(v + 0.5)`, on exact reals. */
  function RoundCents(x: real): (r: real)
    ensures (r * 100.0).Floor as real == r * 100.0
    ensures x - 0.005 < r <= x + 0.005
  {
    ((x * 100.0 + 0.5).Floor as real) / 100.0
  }

  const MaxAmount: real := 1000000.0

  function ValidateAmount(amount: AmountInput): (r: Checked<real>)
    ensures Falsy(amount) ==> r == Invalid("Amount is required")
    ensures r.Valid? <==> ParsedAmount(amount).Some? && 0.0 < ParsedAmount(amount).value <= MaxAmount
    ensures r.Valid? ==> r.sanitized == RoundCents(ParsedAmount(amount).value)
  {
    if Falsy(amount) then
      assert ParsedAmount(amount) != Some(0.0) ==> ParsedAmount(amount).None? by {
        if amount.AmountText? { assert TrimStart(amount.text) == []; }
      }
      Invalid("Amount is required")
    else match ParsedAmount(amount)
      case None => Invalid("Amount must be a valid number")
      case Some(x) =>
        if x <= 0.0 then Invalid("Amount must be greater than 0")
        else if x > MaxAmount then Invalid("Amount cannot exceed \U{20B9}1,000,000")
        else Valid(RoundCents(x))
  }

  /** A negative amount parses but is rejected as not positive. */
  lemma NegativeAmountRejected()
    ensures ValidateAmount(AmountText("-5")) == Invalid("Amount must be greater than 0")
  {
    ParseNegativeDigits("-5");
    assert "-5"[1..] == "5";
    assert "5"[..0] == "";
  }

  /** A plain run of decimal digits is judged by its value alone. */
  lemma {:induction false} DigitAmount(s: string)
    requires |s| > 0 && AllRadixDigits(s, 10)
    ensures ValidateAmount(AmountText(s)) ==
      if ValueOf(s, 10) == 0 then Invalid("Amount must be greater than 0")
      else if ValueOf(s, 10) > 1000000 then Invalid("Amount cannot exceed \U{20B9}1,000,000")
      else Valid(ValueOf(s, 10) as real)
  {
    ParseDigits(s);
    WholeCents(ValueOf(s, 10));
  }

  /** A whole number of rupees is already a whole number of cents. */
  lemma WholeCents(v: int)
    ensures RoundCents(v as real) == v as real
  {
    var x := (v as real) * 100.0 + 0.5;
    assert x == (v * 100) as real + 0.5;
    assert x.Floor == v * 100;
  }

  /** Zero is a number, but not a positive one. */
  lemma ZeroAmountRejected()
    ensures ValidateAmount(AmountText("0")) == Invalid("Amount must be greater than 0")
  {
    DigitAmount("0");
    assert "0"[..0] == "";
  }

  /** An amount above the cap is rejected with the cap in the message. */
  lemma LargeAmountRejected()
    ensures ValidateAmount(AmountText("2000000")) == Invalid("Amount cannot exceed \U{20B9}1,000,000")
  {
    TwoMillionValue();
    DigitAmount("2000000");
  }

  lemma TwoMillionValue()
    ensures ValueOf("2000000", 10) == 2000000
  {
    assert "2000000"[..6] == "200000";
    assert "200000"[..5] == "20000";
    assert "20000"[..4] == "2000";
    assert "2000"[..3] == "200";
    assert "200"[..2] == "20";
    assert "20"[..1] == "2";
    assert "2"[..0] == "";
  }

  /** Text with no leading number is not a valid number. */
  lemma NonNumericAmountRejected()
    ensures ValidateAmount(AmountText("abc")) == Invalid("Amount must be a valid number")
  {
    assert TrimOffset("abc") == 0;
    assert TrimStart("abc") == "abc";
    assert LeadingDigits("abc", 10) == 0;
    assert ScanDecimal("abc") == None;
  }

  /** The empty text is missing. */
  lemma EmptyAmountRejected()
    ensures ValidateAmount(AmountText("")) == Invalid("Amount is required")
  {
  }

  /** A whole amount in range is accepted as that number. */
  lemma WholeAmountAccepted()
    ensures ValidateAmount(AmountText("500")) == Valid(500.0)
  {
    FiveHundredValue();
    DigitAmount("500");
  }

  lemma FiveHundredValue()
    ensures ValueOf("500", 10) == 500
  {
    assert "500"[..2] == "50";
    assert "50"[..1] == "5";
    assert "5"[..0] == "";
  }

  /** Accepted amounts are rounded half up to whole cents; a positive amount can round to 0. */
  lemma AmountRounding()
    ensures ValidateAmount(AmountNumber(Some(500.005))) == Valid(500.01)
    ensures ValidateAmount(AmountNumber(Some(0.004))) == Valid(0.0)
  {
    assert (500.005 * 100.0 + 0.5).Floor == 50001;
    assert (0.004 * 100.0 + 0.5).Floor == 0;
  }

  /** The pattern `^[A-Z0-9]{6}$`. */
  predicate IsCodePattern(s: string) {
    |s| == 6 && forall i :: 0 <= i < |s| ==> IsUpperAlnum(s[i])
  }

  /** `validateCoupleCode`: trimmed and upper-cased, then exactly six of `[A-Z0-9]`. */
  function ValidateCoupleCode(code: string): (r: Checked<string>)
    ensures code == [] ==> r == Invalid("Couple code is required")
    ensures r.Valid? <==> code != [] && IsCodePattern(ToUpper(Trim(code)))
    ensures r.Valid? ==> r.sanitized == ToUpper(Trim(code))
  {
    if code == [] then Invalid("Couple code is required")
    else
      var sanitized := ToUpper(Trim(code));
      if |sanitized| != 6 then Invalid("Couple code must be exactly 6 characters long")
      else if !IsCodePattern(sanitized) then Invalid("Couple code must contain only letters and numbers")
      else Valid(sanitized)
  }

  /** Upper-casing leaves a code with the pattern as it is. */
  lemma PatternIsUpper(code: string)
    ensures IsCodePattern(code) ==> ToUpper(code) == code
  {
    if IsCodePattern(code) {
      assert ToUpper(code) == code;
    }
  }

  /** A code that already has the pattern is accepted unchanged. */
  lemma CodePatternAccepted(code: string)
    requires IsCodePattern(code)
    ensures ValidateCoupleCode(code) == Valid(code)
  {
    assert !IsSpace(code[0]) && !IsSpace(code[5]) by { assert IsUpperAlnum(code[0]) && IsUpperAlnum(code[5]); }
    TrimOfTrimmed(code);
    assert ToUpper(code) == code;
  }

  /** Surrounding spaces and lower-case letters are normalised away. */
  lemma CoupleCodeNormalised()
    ensures ValidateCoupleCode(" x7k2m9 ") == Valid("X7K2M9")
  {
    assert " x7k2m9 " == [' '] + "x7k2m9" + [' '];
    PaddedCodeAccepted("x7k2m9");
    UpperCode();
  }

  /** A code with one space on either side is read as the upper-cased code. */
  lemma PaddedCodeAccepted(code: string)
    requires IsCodePattern(ToUpper(code)) && !IsSpace(code[0]) && !IsSpace(code[5])
    ensures ValidateCoupleCode([' '] + code + [' ']) == Valid(ToUpper(code))
  {
    TrimPadded(code);
  }

  lemma UpperCode()
    ensures ToUpper("x7k2m9") == "X7K2M9"
  {
  }

  function ChoiceLetter(c: Choice): string {
    match c
    case A => "a"
    case B => "b"
  }

  /** The scheme of `validateCreatorChoice` and `validateWinnerOption`: lower-cased, trimmed, `"a"` or `"b"`. */
  function ValidateChoice(input: string, subject: string): (r: Checked<Choice>)
    ensures input == [] ==> r == Invalid(subject + " is required")
    ensures r.Valid? <==> input != [] && Trim(ToLower(input)) in {"a", "b"}
    ensures r.Valid? ==> ChoiceLetter(r.sanitized) == Trim(ToLower(input))
  {
    if input == [] then Invalid(subject + " is required")
    else
      var sanitized := Trim(ToLower(input));
      if sanitized == "a" then Valid(A)
      else if sanitized == "b" then Valid(B)
      else Invalid(subject + " must be either \"a\" or \"b\"")
  }

  function ValidateCreatorChoice(choice: string): (r: Checked<Choice>)
    ensures r.Valid? <==> choice != [] && Trim(ToLower(choice)) in {"a", "b"}
    ensures r.Valid? ==> ChoiceLetter(r.sanitized) == Trim(ToLower(choice))
  {
    ValidateChoice(choice, "Creator choice")
  }

  function ValidateWinnerOption(option: string): (r: Checked<Choice>)
    ensures r.Valid? <==> option != [] && Trim(ToLower(option)) in {"a", "b"}
    ensures r.Valid? ==> ChoiceLetter(r.sanitized) == Trim(ToLower(option))
  {
    ValidateChoice(option, "Winner option")
  }

  /** Whatever lower-cases and trims to a choice's letter validates to that choice. */
  lemma ChoiceOfLetter(input: string, subject: string, c: Choice)
    requires Trim(ToLower(input)) == ChoiceLetter(c)
    ensures ValidateChoice(input, subject) == Valid(c)
  {
  }

  /** Every choice's own letter validates back to that choice, for the creator and for the winner. */
  lemma ChoiceRoundTrip(c: Choice)
    ensures ValidateCreatorChoice(ChoiceLetter(c)) == Valid(c)
    ensures ValidateWinnerOption(ChoiceLetter(c)) == Valid(c)
  {
    var l := ChoiceLetter(c);
    assert ToLower(l) == l;
    TrimOfTrimmed(l);
    ChoiceOfLetter(l, "Creator choice", c);
    ChoiceOfLetter(l, "Winner option", c);
  }

  /** The upper-case letter with spaces around it is accepted too. */
  lemma PaddedChoiceAccepted(c: Choice)
    ensures ValidateCreatorChoice(" " + ToUpper(ChoiceLetter(c)) + " ") == Valid(c)
  {
    var l := ChoiceLetter(c);
    var input := " " + ToUpper(l) + " ";
    var t := ToLower(input);
    assert t == [' '] + l + [' '];
    TrimPadded(l);
    ChoiceOfLetter(input, "Creator choice", c);
  }

  function StatusName(s: Status): string {
    match s
    case Pending => "pending"
    case Active => "active"
    case Concluded => "concluded"
  }

  function ValidateBetStatus(status: string): (r: Checked<Status>)
    ensures status == [] ==> r == Invalid("Status is required")
    ensures r.Valid? <==> status != [] && Trim(ToLower(status)) in {"pending", "active", "concluded"}
    ensures r.Valid? ==> StatusName(r.sanitized) == Trim(ToLower(status))
  {
    if status == [] then Invalid("Status is required")
    else
      var sanitized := Trim(ToLower(status));
      if sanitized == "pending" then Valid(Pending)
      else if sanitized == "active" then Valid(Active)
      else if sanitized == "concluded" then Valid(Concluded)
      else Invalid("Status must be \"pending\", \"active\", or \"concluded\"")
  }

  /** Every status's own name validates back to that status. */
  lemma StatusRoundTrip(s: Status)
    ensures ValidateBetStatus(StatusName(s)) == Valid(s)
  {
    var n := StatusName(s);
    assert ToLower(n) == n;
    assert !IsSpace(n[0]) && !IsSpace(n[|n| - 1]);
    TrimOfTrimmed(n);
  }
}
