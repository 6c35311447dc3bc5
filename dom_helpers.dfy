/** The pure predicates of assets/js/utils/dom-helpers.js: its own copy of the
    email check and the three layout breakpoints on the viewport width. */
module DomHelpers {
  import opened JsBuiltins
  import Validators

  predicate NoWhitespace(s: string) {
    forall i :: 0 <= i < |s| ==> !IsWhitespace(s[i])
  }

  /** The pieces of an address split at `@`: exactly two, no whitespace in
      either, a non-empty first piece, and a `.` strictly inside the second. */
  predicate IsEmailParts(parts: seq<string>) {
    && |parts| == 2 && parts[0] != [] && NoWhitespace(parts[0]) && NoWhitespace(parts[1])
    && |parts[1]| >= 3 && '.' in parts[1][1..|parts[1]| - 1]
  }

  /** The same regular expression as the validators module, read here as a
      split at `@`; it accepts exactly the strings of the same pattern. */
  function IsValidEmail(email: string): (ok: bool)
    ensures ok <==> Validators.EmailPattern(email)
  {
    EmailChecksAgree(email);
    Validators.IsValidEmailMatchesPattern(email);
    IsEmailParts(Split(email, '@'))
  }

  /** This reading and the validators' first-`@` reading accept the same strings. */
  lemma EmailChecksAgree(email: string)
    ensures IsEmailParts(Split(email, '@')) <==> Validators.IsValidEmail(email)
  {
    if IsEmailParts(Split(email, '@')) {
      PartsAreValid(email);
    }
    if Validators.IsValidEmail(email) {
      ValidHasParts(email);
    }
  }

  lemma PartsAreValid(email: string)
    requires IsEmailParts(Split(email, '@'))
    ensures Validators.IsValidEmail(email)
  {
    var parts := Split(email, '@');
    var l, d := parts[0], parts[1];
    assert parts == [l, d];
    JoinTwo(l, d);
    AddressChars(l);
    AddressChars(d);
    var inner := d[1..|d| - 1];
    var j :| 0 <= j < |inner| && inner[j] == '.';
    assert d[j + 1] == '.';
    ValidFromPieces(l, d);
  }

  lemma ValidHasParts(email: string)
    requires Validators.IsValidEmail(email)
    ensures IsEmailParts(Split(email, '@'))
  {
    var at := IndexOf(email, "@");
    Validators.SplitAtIndex(email, at);
    var l, d := email[..at], email[at + 1..];
    SplitTwo(l, d);
    PiecesAreParts(l, d);
  }

  lemma PiecesAreParts(l: string, d: string)
    requires l != [] && Validators.AllAddressChars(l) && Validators.IsEmailDomain(d)
    ensures IsEmailParts([l, d])
  {
    var k :| 0 < k < |d| - 1 && d[k] == '.';
    assert d[1..|d| - 1][k - 1] == '.';
  }

  lemma JoinTwo(l: string, d: string)
    ensures Join([l, d], '@') == l + ['@'] + d
  {
    assert [l, d][1..] == [d];
  }

  lemma AddressChars(s: string)
    requires NoWhitespace(s) && '@' !in s
    ensures Validators.AllAddressChars(s)
  {
  }

  /** An address put together from its two pieces passes the validators' check. */
  lemma ValidFromPieces(l: string, d: string)
    requires l != [] && Validators.AllAddressChars(l) && Validators.IsEmailDomain(d)
    ensures Validators.IsValidEmail(l + ['@'] + d)
  {
    var email := l + ['@'] + d;
    forall i | 0 <= i < |l| ensures email[i] != '@' {
      assert email[i] == l[i];
    }
    Validators.FirstAt(email, |l|);
    assert email[..|l|] == l && email[|l| + 1..] == d;
  }

  /** Splitting at the one `@` gives back the two pieces. */
  lemma SplitTwo(l: string, d: string)
    requires Validators.AllAddressChars(l) && Validators.AllAddressChars(d)
    ensures Split(l + ['@'] + d, '@') == [l, d]
  {
    JoinTwo(l, d);
    assert forall c :: c in l ==> Validators.IsAddressChar(c);
    assert forall c :: c in d ==> Validators.IsAddressChar(c);
    SplitJoin([l, d], '@');
  }

  /** `width` is `window.innerWidth`. */
  predicate IsMobile(width: int) {
    width <= 991
  }

  predicate IsTablet(width: int) {
    width > 767 && width <= 991
  }

  predicate IsDesktop(width: int) {
    width > 991
  }

  /** Every width is either mobile or desktop, never both; tablets are mobile,
      and widths up to 767 are mobile but not tablet. */
  lemma BreakpointsPartition(width: int)
    ensures IsMobile(width) != IsDesktop(width)
    ensures IsTablet(width) ==> IsMobile(width) && !IsDesktop(width)
    ensures width <= 767 ==> IsMobile(width) && !IsTablet(width)
  {
  }
}
