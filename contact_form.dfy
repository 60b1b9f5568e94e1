/**
 * The contact form shared by the add and edit screens: its four text fields,
 * the per-field error map, the e-mail format check
 * `^[^\s@]+@[^\s@]+\.[^\s@]+$`, whole-form validation and the input-change rule.
 */
module ContactForm {
  import opened ContactTypes

  // ---------------------------------------------------------------- whitespace and trim

  /**
   * ECMAScript WhiteSpace and LineTerminator code points: the set that both
   * `String.prototype.trim` and the regular-expression class `\s` use.
   */
  predicate IsSpace(c: char) {
    || '\U{9}' <= c <= '\U{D}'           // tab, line feed, vertical tab, form feed, carriage return
    || c == ' ' || c == '\U{A0}' || c == '\U{1680}'
    || '\U{2000}' <= c <= '\U{200A}'
    || c == '\U{2028}' || c == '\U{2029}'  // line and paragraph separators
    || c == '\U{202F}' || c == '\U{205F}' || c == '\U{3000}'
    || c == '\U{FEFF}'                     // byte order mark
  }

  predicate AllSpace(s: string) {
    forall k :: 0 <= k < |s| ==> IsSpace(s[k])
  }

  /** `s.trimStart()`: drops the leading white space. */
  function TrimStart(s: string): (r: string)
    ensures |r| <= |s|
  {
    if s != [] && IsSpace(s[0]) then TrimStart(s[1..]) else s
  }

  /** What `trimStart` drops is white space, and what it keeps is a suffix that starts with none. */
  lemma {:induction false} TrimStartShape(s: string)
    ensures var r := TrimStart(s);
            && r == s[|s| - |r|..]
            && AllSpace(s[..|s| - |r|])
            && (r == [] || !IsSpace(r[0]))
  {
    if s != [] && IsSpace(s[0]) {
      TrimStartShape(s[1..]);
      var r := TrimStart(s[1..]);
      assert s[1..][..|s| - 1 - |r|] == s[1..|s| - |r|];
    }
  }

  /** `s.trimEnd()`: drops the trailing white space. */
  function TrimEnd(s: string): (r: string)
    ensures |r| <= |s|
  {
    if s != [] && IsSpace(s[|s| - 1]) then TrimEnd(s[..|s| - 1]) else s
  }

  /** What `trimEnd` drops is white space, and what it keeps is a prefix that ends with none. */
  lemma {:induction false} TrimEndShape(s: string)
    ensures var r := TrimEnd(s);
            && r == s[..|r|]
            && AllSpace(s[|r|..])
            && (r == [] || !IsSpace(r[|r| - 1]))
  {
    if s != [] && IsSpace(s[|s| - 1]) {
      TrimEndShape(s[..|s| - 1]);
      var r := TrimEnd(s[..|s| - 1]);
      assert s[..|s| - 1][|r|..] == s[|r|..|s| - 1];
    }
  }

  /** `s.trim()`. */
  function Trim(s: string): (r: string)
    ensures |r| <= |s|
  {
    TrimEnd(TrimStart(s))
  }

  /** `!s.trim()`: the trimmed string is empty exactly when every character is white space. */
  lemma TrimEmptyIffAllSpace(s: string)
    ensures Trim(s) == "" <==> AllSpace(s)
  {
    var t := TrimStart(s);
    TrimStartShape(s);
    TrimEndShape(t);
    assert t[0..] == t;
    assert s[..|s|] == s;
    if t != [] {
      assert t[0] == s[|s| - |t|];
    }
  }

  // ---------------------------------------------------------------- the e-mail pattern

  /** A character of the class `[^\s@]`. */
  predicate EmailChar(c: char) {
    !IsSpace(c) && c != '@'
  }

  predicate AllEmailChars(s: string) {
    forall k :: 0 <= k < |s| ==> EmailChar(s[k])
  }

  /**
   * The pattern read as a split: `s[..at]` is the first `[^\s@]+`, `s[at]` is
   * the `@`, `s[at + 1..dot]` the second `[^\s@]+`, `s[dot]` the `\.` and
   * `s[dot + 1..]` the last `[^\s@]+`.
   */
  ghost predicate EmailSplitAt(s: string, at: int, dot: int) {
    && 0 < at && at + 1 < dot && dot + 1 < |s|
    && s[at] == '@' && s[dot] == '.'
    && AllEmailChars(s[..at]) && AllEmailChars(s[at + 1..dot]) && AllEmailChars(s[dot + 1..])
  }

  /** The regular expression matches `s` (the anchors make it match the whole string). */
  ghost predicate MatchesEmailPattern(s: string) {
    exists at, dot :: EmailSplitAt(s, at, dot)
  }

  /** `s.indexOf(c)`, with `None` for -1. */
  function IndexOf(s: string, c: char): (r: Option<nat>)
    ensures r.None? <==> c !in s
    ensures r.Some? ==> r.value < |s| && s[r.value] == c && c !in s[..r.value]
  {
    if s == [] then None
    else if s[0] == c then Some(0)
    else match IndexOf(s[1..], c)
      case None => None
      case Some(i) =>
        assert s[..i + 1] == [s[0]] + s[1..][..i];
        Some(i + 1)
  }

  /** The domain part has a `.` with at least one character on each side. */
  predicate HasInnerDot(d: string) {
    exists k :: 0 < k < |d| - 1 && d[k] == '.'
  }

  /** `validateEmail`: the check written as a single scan around the first `@`. */
  predicate ValidEmail(s: string) {
    match IndexOf(s, '@')
    case None => false
    case Some(at) => at > 0 && AllEmailChars(s[..at]) && AllEmailChars(s[at + 1..]) && HasInnerDot(s[at + 1..])
  }

  lemma ScanFindsSplit(s: string)
    requires ValidEmail(s)
    ensures MatchesEmailPattern(s)
  {
    var at := IndexOf(s, '@').value;
    var d := s[at + 1..];
    var k :| 0 < k < |d| - 1 && d[k] == '.';
    var dot := at + 1 + k;
    assert s[at + 1..dot] == d[..k];
    assert s[dot + 1..] == d[k + 1..];
    assert EmailSplitAt(s, at, dot);
  }

  /** The domain of a split, `s[at + 1..]`, is all pattern characters around an inner dot. */
  lemma SplitDomain(s: string, at: int, dot: int)
    requires EmailSplitAt(s, at, dot)
    ensures AllEmailChars(s[at + 1..]) && HasInnerDot(s[at + 1..])
  {
    var d := s[at + 1..];
    var j := dot - (at + 1);
    assert d[j] == '.';
    forall k | 0 <= k < |d|
      ensures EmailChar(d[k])
    {
      if k < j {
        assert d[k] == s[at + 1..dot][k];
      } else if k > j {
        assert d[k] == s[dot + 1..][k - j - 1];
      }
    }
  }

  lemma SplitIsFound(s: string, at: int, dot: int)
    requires EmailSplitAt(s, at, dot)
    ensures ValidEmail(s)
  {
    assert IndexOf(s, '@') == Some(at);
    SplitDomain(s, at, dot);
  }

  /** The scan accepts exactly the strings the regular expression matches. */
  lemma ValidEmailIffPattern(s: string)
    ensures ValidEmail(s) <==> MatchesEmailPattern(s)
  {
    if ValidEmail(s) {
      ScanFindsSplit(s);
    }
    if MatchesEmailPattern(s) {
      var at, dot :| EmailSplitAt(s, at, dot);
      SplitIsFound(s, at, dot);
    }
  }

  /** The two examples: a well-formed address and a string without `@`. */
  lemma EmailExamples()
    ensures ValidEmail("a@b.co")
    ensures !ValidEmail("not-an-email")
  {
    var s := "a@b.co";
    assert IndexOf(s, '@') == Some(1);
    assert s[2..][1] == '.';
    assert '@' !in "not-an-email";
  }

  /** An accepted address is never blank, so "required" and "format" errors do not overlap. */
  lemma ValidEmailNotBlank(s: string)
    requires ValidEmail(s)
    ensures Trim(s) != ""
  {
    TrimEmptyIffAllSpace(s);
    assert !IsSpace(s[0]) by {
      assert s[..IndexOf(s, '@').value][0] == s[0];
    }
  }

  /** Any white space inside a non-blank address makes it fail the format check. */
  lemma SpaceFailsFormat(s: string, k: int)
    requires 0 <= k < |s| && IsSpace(s[k])
    ensures !ValidEmail(s)
  {
  }

  // ---------------------------------------------------------------- the form

  datatype Field = Name | Email | Phone | Group

  /** `ContactFormData`. */
  datatype FormData = FormData(name: string, email: string, phone: string, group: string)

  /** The messages the form shows ("Tên là bắt buộc", "Email là bắt buộc", "Email không đúng định dạng"). */
  datatype FieldError = NameRequired | EmailRequired | EmailMalformed

  function EmptyForm(): FormData {
    FormData("", "", "", "")
  }

  function FieldValue(f: FormData, field: Field): string {
    match field
    case Name => f.name
    case Email => f.email
    case Phone => f.phone
    case Group => f.group
  }

  /** `{ ...prev, [field]: value }`. */
  function WithField(f: FormData, field: Field, value: string): (g: FormData)
    ensures FieldValue(g, field) == value
    ensures forall other :: other != field ==> FieldValue(g, other) == FieldValue(f, other)
  {
    match field
    case Name => f.(name := value)
    case Email => f.(email := value)
    case Phone => f.(phone := value)
    case Group => f.(group := value)
  }

  /** The error map `validateForm` builds for `f`. */
  function FormErrors(f: FormData): (e: map<Field, FieldError>)
    ensures Phone !in e && Group !in e
  {
    var nameErrors := if Trim(f.name) == "" then map[Name := NameRequired] else map[];
    if Trim(f.email) == "" then nameErrors[Email := EmailRequired]
    else if !ValidEmail(f.email) then nameErrors[Email := EmailMalformed]
    else nameErrors
  }

  /** The name is flagged exactly when it is blank. */
  lemma NameErrorIffBlank(f: FormData)
    ensures Name in FormErrors(f) <==> AllSpace(f.name)
    ensures Name in FormErrors(f) ==> FormErrors(f)[Name] == NameRequired
  {
    TrimEmptyIffAllSpace(f.name);
  }

  /** The e-mail is "required" when blank, otherwise "format" when it does not match, otherwise fine. */
  lemma EmailErrorCases(f: FormData)
    ensures AllSpace(f.email) ==> Email in FormErrors(f) && FormErrors(f)[Email] == EmailRequired
    ensures !AllSpace(f.email) && !MatchesEmailPattern(f.email) ==>
              Email in FormErrors(f) && FormErrors(f)[Email] == EmailMalformed
    ensures MatchesEmailPattern(f.email) ==> Email !in FormErrors(f)
  {
    TrimEmptyIffAllSpace(f.email);
    ValidEmailIffPattern(f.email);
    if ValidEmail(f.email) {
      ValidEmailNotBlank(f.email);
    }
  }

  /** White space in a non-blank address gives the format error, not the "required" one. */
  lemma SpaceInEmailIsFormatError(f: FormData, k: int)
    requires 0 <= k < |f.email| && IsSpace(f.email[k]) && !AllSpace(f.email)
    ensures Email in FormErrors(f) && FormErrors(f)[Email] == EmailMalformed
  {
    TrimEmptyIffAllSpace(f.email);
    SpaceFailsFormat(f.email, k);
  }

  /** The form is valid exactly when the name is not blank and the e-mail matches the pattern. */
  lemma FormValidIff(f: FormData)
    ensures FormErrors(f) == map[] <==> !AllSpace(f.name) && MatchesEmailPattern(f.email)
  {
    NameErrorIffBlank(f);
    EmailErrorCases(f);
    if FormErrors(f) == map[] {
      assert Name !in FormErrors(f) && Email !in FormErrors(f);
    }
  }

  /** The form state of the add and edit screens: `formData` and `errors`. */
  class ContactFormState {
    var data: FormData
    var errors: map<Field, FieldError>

    constructor ()
      ensures data == EmptyForm() && errors == map[]
    {
      data := EmptyForm();
      errors := map[];
    }

    /** `validateForm`: fills a fresh error map field by field, stores it, and reports whether it is empty. */
    method ValidateForm() returns (ok: bool)
      modifies this`errors
      ensures errors == FormErrors(data)
      ensures ok <==> !AllSpace(data.name) && MatchesEmailPattern(data.email)
    {
      var newErrors: map<Field, FieldError> := map[];
      if Trim(data.name) == "" {
        newErrors := newErrors[Name := NameRequired];
      }
      if Trim(data.email) == "" {
        newErrors := newErrors[Email := EmailRequired];
      } else if !ValidEmail(data.email) {
        newErrors := newErrors[Email := EmailMalformed];
      }
      errors := newErrors;
      ok := |newErrors.Keys| == 0;
      FormValidIff(data);
    }

    /** `handleInputChange(field, value)`: sets one field and clears only that field's error. */
    method HandleInputChange(field: Field, value: string)
      modifies this
      ensures data == WithField(old(data), field, value)
      ensures errors == old(errors) - {field}
    {
      data := WithField(data, field, value);
      if field in errors {
        errors := errors - {field};
      }
    }
  }
}
