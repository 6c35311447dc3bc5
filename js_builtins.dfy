/** The few JavaScript built-ins the page's scripts rely on, stated over `string`
    (a `seq<char>`): the `\s` character class and `trim`, `indexOf`, `replace`
    with a string pattern, `split` on a one-character separator and
    `Array.prototype.findIndex`. */
module JsBuiltins {

  datatype Option<+T> = None | Some(value: T) {
    function GetOr(default: T): T {
      match this
      case Some(v) => v
      case None => default
    }
  }

  /** How an event handler ended: normally, or with a TypeError raised by reading
      a property of `undefined`. */
  datatype Completion = Normal | TypeError

  // ---------------------------------------------------------------------------
  // Whitespace and trim
  // ---------------------------------------------------------------------------

  /** ECMAScript WhiteSpace and LineTerminator code points: the members of the
      regular-expression class `\s`, and what `String.prototype.trim` strips. */
  predicate IsWhitespace(c: char) {
    || c in {'\t', '\n', '\U{000B}', '\U{000C}', '\r', ' ', '\U{00A0}', '\U{1680}'}
    || ('\U{2000}' <= c <= '\U{200A}')
    || c in {'\U{2028}', '\U{2029}', '\U{202F}', '\U{205F}', '\U{3000}', '\U{FEFF}'}
  }

  predicate AllWhitespace(s: string) {
    forall i :: 0 <= i < |s| ==> IsWhitespace(s[i])
  }

  /** `s` with its leading whitespace removed. */
  function TrimStart(s: string): string {
    if |s| > 0 && IsWhitespace(s[0]) then TrimStart(s[1..]) else s
  }

  /** What `TrimStart` removes is a whitespace prefix, and it stops at the
      first non-blank. */
  lemma {:induction false} TrimStartSpec(s: string)
    ensures |TrimStart(s)| <= |s| && TrimStart(s) == s[|s| - |TrimStart(s)|..]
    ensures AllWhitespace(s[..|s| - |TrimStart(s)|])
    ensures TrimStart(s) != [] ==> !IsWhitespace(TrimStart(s)[0])
  {
    if |s| > 0 && IsWhitespace(s[0]) {
      TrimStartSpec(s[1..]);
      var r := TrimStart(s);
      assert s[1..][..|s| - 1 - |r|] == s[1..|s| - |r|];
      assert s[..|s| - |r|] == [s[0]] + s[1..|s| - |r|];
    }
  }

  /** `s` with its trailing whitespace removed. */
  function TrimEnd(s: string): string {
    if |s| > 0 && IsWhitespace(s[|s| - 1]) then TrimEnd(s[..|s| - 1]) else s
  }

  /** What `TrimEnd` removes is a whitespace suffix, and it stops at the last
      non-blank. */
  lemma {:induction false} TrimEndSpec(s: string)
    ensures |TrimEnd(s)| <= |s| && TrimEnd(s) == s[..|TrimEnd(s)|]
    ensures AllWhitespace(s[|TrimEnd(s)|..])
    ensures TrimEnd(s) != [] ==> !IsWhitespace(TrimEnd(s)[|TrimEnd(s)| - 1])
  {
    if |s| > 0 && IsWhitespace(s[|s| - 1]) {
      var t := s[..|s| - 1];
      TrimEndSpec(t);
      var r := TrimEnd(s);
      assert t[..|r|] == s[..|r|];
      assert s[|r|..] == t[|r|..] + [s[|s| - 1]];
    }
  }

  /** `r` is `s` less a whitespace prefix and a whitespace suffix, and can lose no more. */
  ghost predicate IsTrimOf(s: string, r: string) {
    && |r| <= |s|
    && (exists i :: 0 <= i <= |s| - |r| && r == s[i..i + |r|]
                    && AllWhitespace(s[..i]) && AllWhitespace(s[i + |r|..]))
    && (r != [] ==> !IsWhitespace(r[0]) && !IsWhitespace(r[|r| - 1]))
  }

  /** `String.prototype.trim`. */
  function Trim(s: string): string {
    TrimEnd(TrimStart(s))
  }

  /** `trim` removes exactly the leading and trailing whitespace, and leaves
      nothing only of an all-blank text. */
  lemma TrimSpec(s: string)
    ensures IsTrimOf(s, Trim(s))
    ensures Trim(s) == [] <==> AllWhitespace(s)
  {
    var front := TrimStart(s);
    var r := TrimEnd(front);
    TrimStartSpec(s);
    TrimEndSpec(front);
    var i := |s| - |front|;
    assert s[i..i + |r|] == r;
    assert s[..i] == s[..|s| - |front|];
    assert s[i + |r|..] == front[|r|..];
    if r == [] {
      assert s == s[..i] + front[|r|..];
      assert AllWhitespace(s) by {
        forall k | 0 <= k < |s| ensures IsWhitespace(s[k]) {
          assert s[..i][k] == s[k];
        }
      }
    } else {
      assert r[0] in s && !IsWhitespace(r[0]);
    }
  }

  /** Leading whitespace before a text that starts with a non-blank is all
      `TrimStart` removes. */
  lemma {:induction false} TrimStartOfPadded(pad: string, text: string)
    requires AllWhitespace(pad)
    requires text != [] && !IsWhitespace(text[0])
    ensures TrimStart(pad + text) == text
  {
    if pad == [] {
      assert pad + text == text;
    } else {
      assert (pad + text)[1..] == pad[1..] + text;
      TrimStartOfPadded(pad[1..], text);
    }
  }

  /** Trailing whitespace after a text that ends with a non-blank is all
      `TrimEnd` removes. */
  lemma {:induction false} TrimEndOfPadded(text: string, pad: string)
    requires AllWhitespace(pad)
    requires text != [] && !IsWhitespace(text[|text| - 1])
    ensures TrimEnd(text + pad) == text
  {
    if pad == [] {
      assert text + pad == text;
    } else {
      var s := text + pad;
      assert s[..|s| - 1] == text + pad[..|pad| - 1];
      assert s[|s| - 1] == pad[|pad| - 1];
      TrimEndOfPadded(text, pad[..|pad| - 1]);
    }
  }

  /** `trim` gives back a text with non-blank ends from any whitespace padding. */
  lemma TrimOfPadded(before: string, text: string, after: string)
    requires AllWhitespace(before) && AllWhitespace(after)
    requires text != [] && !IsWhitespace(text[0]) && !IsWhitespace(text[|text| - 1])
    ensures Trim(before + text + after) == text
  {
    assert before + text + after == before + (text + after);
    TrimStartOfPadded(before, text + after);
    TrimEndOfPadded(text, after);
  }

  // ---------------------------------------------------------------------------
  // Counting, searching and first-occurrence replacement
  // ---------------------------------------------------------------------------

  function Count(c: char, s: string): (n: nat)
    ensures n <= |s|
    ensures n == 0 <==> c !in s
  {
    if s == [] then 0 else (if s[0] == c then 1 else 0) + Count(c, s[1..])
  }

  /** `pat` occurs in `s` starting at index `k`. */
  predicate OccursAt(s: string, pat: string, k: int) {
    0 <= k && k + |pat| <= |s| && s[k..k + |pat|] == pat
  }

  /** `String.prototype.indexOf`: the first index at which `pat` occurs, or -1. */
  function IndexOf(s: string, pat: string): (k: int)
    ensures k == -1 || 0 <= k <= |s| - |pat|
    ensures k >= 0 ==> OccursAt(s, pat, k)
    ensures forall j :: 0 <= j && (k < 0 || j < k) ==> !OccursAt(s, pat, j)
    decreases |s|
  {
    if |s| < |pat| then -1
    else if s[..|pat|] == pat then 0
    else
      var k := IndexOf(s[1..], pat);
      if k < 0 then
        assert forall j :: 1 <= j ==> (OccursAt(s, pat, j) <==> OccursAt(s[1..], pat, j - 1));
        -1
      else
        assert forall j :: 1 <= j ==> (OccursAt(s, pat, j) <==> OccursAt(s[1..], pat, j - 1));
        k + 1
  }

  /** GetSubstitution of ECMAScript for a string pattern (no capture groups):
      `$$` is a dollar sign, `$&` the matched text, `` $` `` the text before the
      match and `$'` the text after it; every other character, including any
      other `$`, stands for itself. */
  function Substitution(repl: string, matched: string, before: string, after: string): string
  {
    if repl == [] then []
    else if |repl| >= 2 && repl[0] == '$' && repl[1] in {'$', '&', '`', '\''} then
      var piece := match repl[1]
        case '$' => "$"
        case '&' => matched
        case '`' => before
        case _ => after;
      piece + Substitution(repl[2..], matched, before, after)
    else [repl[0]] + Substitution(repl[1..], matched, before, after)
  }

  /** A replacement string without `$` is inserted as it is. */
  lemma {:induction false} SubstitutionOfPlainText(repl: string, matched: string, before: string, after: string)
    requires '$' !in repl
    ensures Substitution(repl, matched, before, after) == repl
  {
    if repl != [] {
      SubstitutionOfPlainText(repl[1..], matched, before, after);
    }
  }

  /** `k` is the first index at which `pat` occurs in `s`. */
  ghost predicate IsFirstOccurrence(s: string, pat: string, k: int) {
    OccursAt(s, pat, k) && forall j :: 0 <= j < k ==> !OccursAt(s, pat, j)
  }

  /** `s.replace(pat, repl)` with a string pattern: only the first occurrence is replaced. */
  function ReplaceFirst(s: string, pat: string, repl: string): (r: string)
    ensures (forall j :: 0 <= j ==> !OccursAt(s, pat, j)) ==> r == s
    ensures forall k {:trigger IsFirstOccurrence(s, pat, k)} :: IsFirstOccurrence(s, pat, k) ==>
              r == s[..k] + Substitution(repl, pat, s[..k], s[k + |pat|..]) + s[k + |pat|..]
  {
    var k := IndexOf(s, pat);
    assert forall k' :: IsFirstOccurrence(s, pat, k') ==> k' == k;
    if k < 0 then s
    else s[..k] + Substitution(repl, pat, s[..k], s[k + |pat|..]) + s[k + |pat|..]
  }

  /** Replacing the first occurrence leaves everything after it, later occurrences
      included, as it was. */
  lemma ReplaceFirstKeepsRest(s: string, pat: string, repl: string, k: int)
    requires IsFirstOccurrence(s, pat, k)
    requires '$' !in repl
    ensures ReplaceFirst(s, pat, repl) == s[..k] + repl + s[k + |pat|..]
  {
    SubstitutionOfPlainText(repl, pat, s[..k], s[k + |pat|..]);
  }

  // ---------------------------------------------------------------------------
  // split and join on one character
  // ---------------------------------------------------------------------------

  /** `parts.join(sep)` for a non-empty list of parts. */
  function Join(parts: seq<string>, sep: char): string
    requires |parts| >= 1
  {
    if |parts| == 1 then parts[0] else parts[0] + [sep] + Join(parts[1..], sep)
  }

  /** `s.split(sep)` for a one-character separator: the maximal runs between
      separators, empty ones included; the empty string splits into `[""]`. */
  function Split(s: string, sep: char): (parts: seq<string>)
    ensures |parts| == Count(sep, s) + 1
    ensures forall i :: 0 <= i < |parts| ==> sep !in parts[i]
    ensures Join(parts, sep) == s
  {
    if s == [] then [""]
    else
      var rest := Split(s[1..], sep);
      if s[0] == sep then
        assert s == [sep] + s[1..];
        [""] + rest
      else
        var parts := [[s[0]] + rest[0]] + rest[1..];
        assert parts[1..] == rest[1..];
        assert s == [s[0]] + s[1..];
        parts
  }

  /** Splitting undoes joining parts that hold no separator. */
  lemma {:induction false} SplitJoin(parts: seq<string>, sep: char)
    requires |parts| >= 1
    requires forall i :: 0 <= i < |parts| ==> sep !in parts[i]
    ensures Split(Join(parts, sep), sep) == parts
    decreases |parts|, |parts[0]|
  {
    var s := Join(parts, sep);
    if parts[0] == [] {
      if |parts| > 1 {
        assert s == [sep] + Join(parts[1..], sep);
        assert s[1..] == Join(parts[1..], sep);
        SplitJoin(parts[1..], sep);
      }
    } else {
      var tail := [parts[0][1..]] + parts[1..];
      assert forall i :: 0 <= i < |tail| ==> sep !in tail[i] by {
        forall i | 0 <= i < |tail| ensures sep !in tail[i] {
          if i == 0 {
            assert forall c :: c in parts[0][1..] ==> c in parts[0];
          } else {
            assert tail[i] == parts[i];
          }
        }
      }
      JoinHead(parts, sep);
      SplitJoin(tail, sep);
      assert s[0] != sep;
      assert s[1..] == Join(tail, sep);
      var rest := Split(s[1..], sep);
      assert rest == tail;
      assert s[0] == parts[0][0];
      assert [s[0]] + rest[0] == parts[0];
      assert [[s[0]] + rest[0]] + rest[1..] == [parts[0]] + parts[1..] == parts;
    }
  }

  /** Taking the first character of a non-empty first part out of a join. */
  lemma JoinHead(parts: seq<string>, sep: char)
    requires |parts| >= 1 && parts[0] != []
    ensures Join(parts, sep) == [parts[0][0]] + Join([parts[0][1..]] + parts[1..], sep)
  {
    var tail := [parts[0][1..]] + parts[1..];
    assert parts[0] == [parts[0][0]] + parts[0][1..];
    if |parts| > 1 {
      assert tail[1..] == parts[1..];
    }
  }

  // ---------------------------------------------------------------------------
  // Array.prototype.findIndex
  // ---------------------------------------------------------------------------

  /** The first index whose element satisfies `p`, or -1 when none does. */
  function FindIndex<T>(s: seq<T>, p: T -> bool): (k: int)
    ensures -1 <= k < |s|
    ensures k >= 0 ==> p(s[k])
    ensures forall j :: 0 <= j < |s| && (k < 0 || j < k) ==> !p(s[j])
  {
    if s == [] then -1
    else if p(s[0]) then 0
    else
      var k := FindIndex(s[1..], p);
      if k < 0 then -1 else k + 1
  }
}
