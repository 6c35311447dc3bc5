/** The input validators of assets/js/utils/validators.js. Each regular
    expression is given twice: as a ghost predicate that reads the pattern
    literally, and as the checking function, with a lemma that the two agree. */
module Validators {
  import opened JsBuiltins

  // ---------------------------------------------------------------------------
  // isValidEmail: /^[^\s@]+@[^\s@]+\.[^\s@]+$/
  // ---------------------------------------------------------------------------

  /** The class `[^\s@]`. */
  predicate IsAddressChar(c: char) {
    !IsWhitespace(c) && c != '@'
  }

  predicate AllAddressChars(s: string) {
    forall i :: 0 <= i < |s| ==> IsAddressChar(s[i])
  }

  /** The email pattern read literally: a non-empty run of `[^\s@]`, an `@`,
      a non-empty run, a `.`, and a final non-empty run. */
  ghost predicate EmailPattern(s: string) {
    exists at, dot ::
      && 0 < at && at + 1 < dot && dot + 1 < |s|
      && s[at] == '@' && s[dot] == '.'
      && AllAddressChars(s[..at]) && AllAddressChars(s[at + 1..dot]) && AllAddressChars(s[dot + 1..])
  }

  /** The part after the `@`: no whitespace or `@`, and a `.` with text on both sides. */
  predicate IsEmailDomain(d: string) {
    AllAddressChars(d) && exists k :: 0 < k < |d| - 1 && d[k] == '.'
  }

  function IsValidEmail(email: string): bool {
    var at := IndexOf(email, "@");
    0 < at && AllAddressChars(email[..at]) && IsEmailDomain(email[at + 1..])
  }

  lemma IsValidEmailMatchesPattern(email: string)
    ensures IsValidEmail(email) <==> EmailPattern(email)
  {
    if IsValidEmail(email) {
      ValidEmailIsPattern(email);
    }
    if EmailPattern(email) {
      var a, dot :| && 0 < a && a + 1 < dot && dot + 1 < |email|
                    && email[a] == '@' && email[dot] == '.'
                    && AllAddressChars(email[..a]) && AllAddressChars(email[a + 1..dot])
                    && AllAddressChars(email[dot + 1..]);
      PatternIsValidEmail(email, a, dot);
    }
  }

  lemma ValidEmailIsPattern(email: string)
    requires IsValidEmail(email)
    ensures EmailPattern(email)
  {
    var at := IndexOf(email, "@");
    assert OccursAt(email, "@", at);
    assert email[at] == email[at..at + 1][0] == '@';
    var d := email[at + 1..];
    var k :| 0 < k < |d| - 1 && d[k] == '.';
    var dot := at + 1 + k;
    assert email[at + 1..dot] == d[..k];
    assert email[dot + 1..] == d[k + 1..];
    assert email[dot] == d[k];
    assert AllAddressChars(d[..k]);
    assert AllAddressChars(d[k + 1..]);
  }

  /** An `@` with no `@` before it is what indexOf finds. */
  lemma FirstAt(s: string, a: int)
    requires 0 <= a < |s| && s[a] == '@'
    requires forall i :: 0 <= i < a ==> s[i] != '@'
    ensures IndexOf(s, "@") == a
  {
    assert OccursAt(s, "@", a) by {
      assert s[a..a + 1] == [s[a]];
    }
    forall j | 0 <= j < a ensures !OccursAt(s, "@", j) {
      assert s[j..j + 1] == [s[j]];
    }
  }

  lemma PatternIsValidEmail(email: string, a: int, dot: int)
    requires 0 < a && a + 1 < dot && dot + 1 < |email|
    requires email[a] == '@' && email[dot] == '.'
    requires AllAddressChars(email[..a]) && AllAddressChars(email[a + 1..dot]) && AllAddressChars(email[dot + 1..])
    ensures IsValidEmail(email)
  {
    forall i | 0 <= i < a ensures email[i] != '@' {
      assert email[i] == email[..a][i];
    }
    FirstAt(email, a);
    var d := email[a + 1..];
    var k := dot - a - 1;
    assert d[k] == '.';
    forall i | 0 <= i < |d| ensures IsAddressChar(d[i]) {
      if i < k {
        assert d[i] == email[a + 1..dot][i];
      } else if i > k {
        assert d[i] == email[dot + 1..][i - k - 1];
      }
    }
    assert IsEmailDomain(d);
  }

  /** A valid address holds no whitespace and exactly one `@`, with text before it. */
  lemma ValidEmailShape(email: string)
    requires IsValidEmail(email)
    ensures forall i :: 0 <= i < |email| ==> !IsWhitespace(email[i])
    ensures Count('@', email) == 1
    ensures 0 < IndexOf(email, "@")
  {
    var at := IndexOf(email, "@");
    SplitAtIndex(email, at);
    var local, d := email[..at], email[at + 1..];
    assert AllAddressChars(local) && AllAddressChars(d);
    NoWhitespaceAround(local, d);
    OneAt(local, d);
  }

  /** Two runs of `[^\s@]` around an `@` hold no whitespace. */
  lemma NoWhitespaceAround(local: string, d: string)
    requires AllAddressChars(local) && AllAddressChars(d)
    ensures forall i :: 0 <= i < |local + ['@'] + d| ==> !IsWhitespace((local + ['@'] + d)[i])
  {
    var s := local + ['@'] + d;
    forall i | 0 <= i < |s| ensures !IsWhitespace(s[i]) {
      if i < |local| {
        assert s[i] == local[i];
      } else if i > |local| {
        assert s[i] == d[i - |local| - 1];
      }
    }
  }

  lemma SplitAtIndex(email: string, at: int)
    requires 0 <= at < |email| && OccursAt(email, "@", at)
    ensures email == email[..at] + ['@'] + email[at + 1..]
  {
    assert email[at] == email[at..at + 1][0] == '@';
  }

  lemma OneAt(local: string, d: string)
    requires AllAddressChars(local) && AllAddressChars(d)
    ensures Count('@', local + ['@'] + d) == 1
  {
    CountAllOther('@', local);
    CountAllOther('@', d);
    CountAppend('@', local + ['@'], d);
    CountAppend('@', local, ['@']);
  }

  lemma {:induction false} CountAllOther(c: char, s: string)
    requires forall i :: 0 <= i < |s| ==> s[i] != c
    ensures Count(c, s) == 0
  {
    if s != [] {
      CountAllOther(c, s[1..]);
    }
  }

  lemma {:induction false} CountAppend(c: char, s: string, t: string)
    ensures Count(c, s + t) == Count(c, s) + Count(c, t)
  {
    if s == [] {
      assert s + t == t;
    } else {
      assert (s + t)[1..] == s[1..] + t;
      CountAppend(c, s[1..], t);
    }
  }

  /** Three examples: a minimal address, one whose domain has no dot, and the empty string. */
  lemma EmailExamples()
    ensures IsValidEmail("a@b.c")
    ensures !IsValidEmail("a@b")
    ensures !IsValidEmail("")
  {
    assert OccursAt("a@b.c", "@", 1);
    assert "a@b.c"[0..1] != "@" by { assert "a@b.c"[0..1][0] == 'a'; }
    assert "a@b.c"[2..][1] == '.';
  }

  // ---------------------------------------------------------------------------
  // isValidPhone: /^[\+]?[0-9\s\-\(\)]+$/
  // ---------------------------------------------------------------------------

  /** The class `[0-9\s\-\(\)]`. */
  predicate IsPhoneChar(c: char) {
    ('0' <= c <= '9') || IsWhitespace(c) || c == '-' || c == '(' || c == ')'
  }

  predicate AllPhoneChars(s: string) {
    forall i :: 0 <= i < |s| ==> IsPhoneChar(s[i])
  }

  /** The phone pattern read literally: an optional `+`, then a non-empty run of the class. */
  ghost predicate PhonePattern(s: string) {
    || (|s| > 0 && AllPhoneChars(s))
    || (|s| > 1 && s[0] == '+' && AllPhoneChars(s[1..]))
  }

  function IsValidPhone(phone: string): bool {
    var digits := if |phone| > 0 && phone[0] == '+' then phone[1..] else phone;
    |digits| > 0 && AllPhoneChars(digits)
  }

  /** The validator agrees with the pattern; a `+` may only lead, and a lone `+` is rejected. */
  lemma IsValidPhoneMatchesPattern(phone: string)
    ensures IsValidPhone(phone) <==> PhonePattern(phone)
    ensures IsValidPhone(phone) ==> forall i :: 0 < i < |phone| ==> phone[i] != '+'
    ensures !IsValidPhone("+")
  {
    if |phone| > 0 && phone[0] == '+' {
      assert !IsPhoneChar(phone[0]);
    }
    if IsValidPhone(phone) && |phone| > 0 && phone[0] == '+' {
      forall i | 0 < i < |phone| ensures phone[i] != '+' {
        assert phone[i] == phone[1..][i - 1];
      }
    }
  }

  // ---------------------------------------------------------------------------
  // isNotEmpty, hasMinLength, hasMaxLength
  // ---------------------------------------------------------------------------

  /** `value` is `None` for null or undefined, otherwise the text `value.toString()` gives. */
  function IsNotEmpty(value: Option<string>): (ok: bool)
    ensures ok <==> value.Some? && exists i :: 0 <= i < |value.value| && !IsWhitespace(value.value[i])
  {
    if value.None? then false
    else
      TrimSpec(value.value);
      Trim(value.value) != ""
  }

  function HasMinLength(value: string, min: int): bool {
    |value| >= min
  }

  function HasMaxLength(value: string, max: int): bool {
    |value| <= max
  }

  /** A minimum that holds keeps holding for every smaller minimum, and a maximum
      for every larger one. */
  lemma LengthBoundsMonotone(value: string, min: int, min': int, max: int, max': int)
    requires min' <= min && max <= max'
    ensures HasMinLength(value, min) ==> HasMinLength(value, min')
    ensures HasMaxLength(value, max) ==> HasMaxLength(value, max')
  {
  }
}
