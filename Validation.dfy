/**
 * Field validation shared by the page form and the order form
 * (`validateField` and `validateModalField` are the same code). A field is
 * checked against three rules in a fixed order and the first rule it breaks
 * is reported:
 *   1. a required field whose value is empty after trimming;
 *   2. an `email` field with a non-empty value outside `^[^\s@]+@[^\s@]+\.[^\s@]+$`;
 *   3. a `tel` field with a non-empty value that nowhere contains
 *      `\+7 \(\d{3}\) \d{3}-\d{2}-\d{2}` (the pattern is not anchored).
 * Both patterns are written out below as predicates on strings.
 */
module Validation {
  import opened Wrappers
  import opened Text
  import opened PhoneMask

  /** The error a field group shows; each kind has its own fixed message text. */
  datatype FieldError = Required | InvalidEmail | InvalidPhone

  /** The `type` attribute values that select the two pattern rules. */
  const EmailType: string := "email"
  const TelType: string := "tel"

  // ---------------------------------------------------------------------
  // The e-mail pattern  ^[^\s@]+@[^\s@]+\.[^\s@]+$
  // ---------------------------------------------------------------------

  /** `[^\s@]`. */
  predicate Plain(c: char) {
    !IsSpace(c) && c != '@'
  }

  /** `[^\s@]+`: a non-empty run of plain characters. */
  predicate PlainRun(s: string) {
    s != [] && forall i :: 0 <= i < |s| ==> Plain(s[i])
  }

  /** The regular expression read literally: local part, `@`, domain, `.`, top-level part. */
  predicate EmailPattern(s: string) {
    exists at, dot | 0 < at < dot < |s| - 1 ::
      s[at] == '@' && s[dot] == '.' &&
      PlainRun(s[..at]) && PlainRun(s[at + 1..dot]) && PlainRun(s[dot + 1..])
  }

  /**
   * The same language described by its shape: no whitespace, exactly one
   * `@` and not in front, and a `.` with at least one character on each
   * side between it and the `@` and the end.
   */
  ghost predicate EmailShape(s: string) {
    (forall i :: 0 <= i < |s| ==> !IsSpace(s[i])) &&
    exists at ::
      0 < at < |s| && s[at] == '@' &&
      (forall i :: 0 <= i < |s| && i != at ==> s[i] != '@') &&
      exists dot :: at + 1 < dot < |s| - 1 && s[dot] == '.'
  }

  /** The pattern and the shape accept exactly the same strings. */
  lemma EmailPatternIsShape(s: string)
    ensures EmailPattern(s) <==> EmailShape(s)
  {
    if EmailPattern(s) {
      PatternHasShape(s);
    }
    if EmailShape(s) {
      ShapeMatchesPattern(s);
    }
  }

  lemma PatternHasShape(s: string)
    requires EmailPattern(s)
    ensures EmailShape(s)
  {
    var at, dot :| 0 < at < dot < |s| - 1 && s[at] == '@' && s[dot] == '.' &&
      PlainRun(s[..at]) && PlainRun(s[at + 1..dot]) && PlainRun(s[dot + 1..]);
    var local, domain, top := s[..at], s[at + 1..dot], s[dot + 1..];
    forall i | 0 <= i < |s| && i != at ensures Plain(s[i]) {
      if i < at {
        assert s[i] == local[i];
      } else if i < dot {
        assert s[i] == domain[i - at - 1];
      } else if i > dot {
        assert s[i] == top[i - dot - 1];
      }
    }
  }

  lemma ShapeMatchesPattern(s: string)
    requires EmailShape(s)
    ensures EmailPattern(s)
  {
    var at :| 0 < at < |s| && s[at] == '@' &&
      (forall i :: 0 <= i < |s| && i != at ==> s[i] != '@') &&
      exists dot :: at + 1 < dot < |s| - 1 && s[dot] == '.';
    var dot :| at + 1 < dot < |s| - 1 && s[dot] == '.';
    var local, domain, top := s[..at], s[at + 1..dot], s[dot + 1..];
    assert PlainRun(local) by {
      forall i | 0 <= i < |local| ensures Plain(local[i]) { assert local[i] == s[i]; }
    }
    assert PlainRun(domain) by {
      forall i | 0 <= i < |domain| ensures Plain(domain[i]) { assert domain[i] == s[at + 1 + i]; }
    }
    assert PlainRun(top) by {
      forall i | 0 <= i < |top| ensures Plain(top[i]) { assert top[i] == s[dot + 1 + i]; }
    }
  }

  // ---------------------------------------------------------------------
  // The phone pattern  \+7 \(\d{3}\) \d{3}-\d{2}-\d{2}
  // ---------------------------------------------------------------------

  /** The phone pattern position by position; `d` stands for `\d`. */
  const TelTemplate: string := "+7 (ddd) ddd-dd-dd"

  predicate Fits(c: char, t: char) {
    if t == 'd' then IsDigit(c) else c == t
  }

  /** The pattern matches the eighteen characters of `s` that start at `k`. */
  predicate TelAt(s: string, k: nat) {
    k + |TelTemplate| <= |s| &&
    forall m :: 0 <= m < |TelTemplate| ==> Fits(s[k + m], TelTemplate[m])
  }

  /** `regex.test(s)` for the unanchored phone pattern: some position matches. */
  predicate ContainsTel(s: string) {
    exists k | 0 <= k <= |s| - |TelTemplate| :: TelAt(s, k)
  }

  /** A string too short for the template cannot contain it. */
  lemma ShortHasNoTel(s: string)
    requires |s| < |TelTemplate|
    ensures !ContainsTel(s)
  {
  }

  /** The complete mask layout of four digit groups matches the template at its start. */
  lemma CompleteFitsTemplate(a: string, b: string, c: string, d: string)
    requires |a| == 3 && |b| == 3 && |c| == 2 && |d| == 2
    requires AllDigits(a) && AllDigits(b) && AllDigits(c) && AllDigits(d)
    ensures TelAt(Complete(a, b, c, d), 0)
  {
    var s := Complete(a, b, c, d);
    assert |s| == 18;
    forall m | 0 <= m < 18 ensures Fits(s[m], TelTemplate[m]) {
      if m < 4 {
        assert s[m] == "+7 ("[m];
      } else if m < 7 {
        assert s[m] == a[m - 4];
      } else if m < 9 {
        assert s[m] == ") "[m - 7];
      } else if m < 12 {
        assert s[m] == b[m - 9];
      } else if m == 12 {
        assert s[m] == '-';
      } else if m < 15 {
        assert s[m] == c[m - 13];
      } else if m == 15 {
        assert s[m] == '-';
      } else {
        assert s[m] == d[m - 16];
      }
    }
  }

  // ---------------------------------------------------------------------
  // The validator
  // ---------------------------------------------------------------------

  /**
   * The verdict `validateField` reaches for a field: `None` when it passes,
   * otherwise the first rule it breaks.
   */
  function Validate(required: bool, fieldType: string, value: string): (r: Option<FieldError>)
    ensures r == Some(Required) ==> required
    ensures r == Some(InvalidEmail) ==> fieldType == EmailType && value != []
    ensures r == Some(InvalidPhone) ==> fieldType == TelType && value != []
  {
    if required && Trim(value) == [] then Some(Required)
    else if fieldType == EmailType && value != [] && !EmailPattern(value) then Some(InvalidEmail)
    else if fieldType == TelType && value != [] && !ContainsTel(value) then Some(InvalidPhone)
    else None
  }

  /** The rules in the order they are tried. */
  const RuleOrder: seq<FieldError> := [Required, InvalidEmail, InvalidPhone]

  /** Each rule on its own, stated by the shape of the value rather than by `trim` and the regex. */
  ghost predicate Breaks(e: FieldError, required: bool, fieldType: string, value: string) {
    match e
    case Required => required && forall i :: 0 <= i < |value| ==> IsSpace(value[i])
    case InvalidEmail => fieldType == EmailType && value != [] && !EmailShape(value)
    case InvalidPhone => fieldType == TelType && value != [] && !ContainsTel(value)
  }

  /**
   * The validator reports the first rule, in `RuleOrder`, that the field
   * breaks, and passes exactly when it breaks none.
   */
  lemma {:induction false} ValidateReportsFirstBroken(required: bool, fieldType: string, value: string)
    ensures Validate(required, fieldType, value) == None <==>
      forall e :: !Breaks(e, required, fieldType, value)
    ensures forall n :: 0 <= n < |RuleOrder| ==>
      (Validate(required, fieldType, value) == Some(RuleOrder[n]) <==>
        Breaks(RuleOrder[n], required, fieldType, value) &&
        forall p :: 0 <= p < n ==> !Breaks(RuleOrder[p], required, fieldType, value))
  {
    TrimEmptyIffBlank(value);
    EmailPatternIsShape(value);
    var r := Validate(required, fieldType, value);
    assert r == None <==> forall e :: !Breaks(e, required, fieldType, value) by {
      if r == None {
        forall e ensures !Breaks(e, required, fieldType, value) {
          match e
          case Required =>
          case InvalidEmail =>
          case InvalidPhone =>
        }
      } else {
        assert Breaks(r.value, required, fieldType, value);
      }
    }
    forall n | 0 <= n < |RuleOrder|
      ensures r == Some(RuleOrder[n]) <==>
        Breaks(RuleOrder[n], required, fieldType, value) &&
        forall p :: 0 <= p < n ==> !Breaks(RuleOrder[p], required, fieldType, value)
    {
      assert RuleOrder[0] == Required && RuleOrder[1] == InvalidEmail && RuleOrder[2] == InvalidPhone;
    }
  }

  /** An empty optional field passes whatever its type: both pattern rules skip empty values. */
  lemma EmptyOptionalPasses(fieldType: string)
    ensures Validate(false, fieldType, "") == None
  {
  }

  /** A required field holding only whitespace is reported as missing, whatever its type. */
  lemma BlankRequiredFails(fieldType: string, value: string)
    requires forall i :: 0 <= i < |value| ==> IsSpace(value[i])
    ensures Validate(true, fieldType, value) == Some(Required)
  {
    TrimEmptyIffBlank(value);
  }

  /**
   * A phone field holding what the mask produced passes exactly when at
   * least ten national digits were typed; a shorter number is reported as
   * an invalid phone (the mask's `+7 ` prefix is never blank).
   */
  lemma MaskedPhoneVerdict(required: bool, raw: string)
    ensures var v := StripCountry(DigitsOf(raw));
      Validate(required, TelType, Mask(raw)) ==
        if |v| >= 10 then None else Some(InvalidPhone)
  {
    var s := Mask(raw);
    var v := StripCountry(DigitsOf(raw));
    assert !IsSpace(s[0]) by { assert s[0] == "+7 "[0]; }
    TrimEmptyIffBlank(s);
    if |v| >= 10 {
      CompleteMaskHasTel(raw);
    } else {
      MaskPartialIsShort(raw);
      ShortHasNoTel(s);
    }
  }

  /** A mask holding ten national digits matches the phone pattern at its first character. */
  lemma CompleteMaskHasTel(raw: string)
    requires |StripCountry(DigitsOf(raw))| >= 10
    ensures TelAt(Mask(raw), 0)
  {
    var v := StripCountry(DigitsOf(raw));
    MaskComplete(raw);
    var a, b, c, d := v[0..3], v[3..6], v[6..8], v[8..10];
    assert AllDigits(a) && AllDigits(b) && AllDigits(c) && AllDigits(d) by {
      assert forall i :: 0 <= i < 3 ==> a[i] == v[i] && b[i] == v[3 + i];
      assert forall i :: 0 <= i < 2 ==> c[i] == v[6 + i] && d[i] == v[8 + i];
    }
    CompleteFitsTemplate(a, b, c, d);
  }

}
