/**
 * `toEmail` from firebase/functions/index.js: coerce the request's `email` field to a
 * string, trim it, lower-case it, and accept it only if it has the shape
 * `local@domain.tld` that the regular expression `^[^\s@]+@[^\s@]+\.[^\s@]+$` describes.
 */
module Email {
  import opened Wrappers

  // ---------------------------------------------------------------------------
  // Characters
  // ---------------------------------------------------------------------------

  /** The code points that `String.prototype.trim` strips and that the regular
      expression class `\s` matches: ECMAScript's WhiteSpace and LineTerminator. */
  predicate IsSpace(c: char) {
    c == '\t' || c == '\n' || c == '\U{B}' || c == '\U{C}' || c == '\r' || c == ' '
    || c == '\U{A0}' || c == '\U{1680}' || ('\U{2000}' <= c <= '\U{200A}')
    || c == '\U{2028}' || c == '\U{2029}' || c == '\U{202F}' || c == '\U{205F}'
    || c == '\U{3000}' || c == '\U{FEFF}'
  }

  predicate IsUpper(c: char) {
    'A' <= c <= 'Z'
  }

  /** Lower-cases one character (ASCII letters only). Lower-casing never creates or
      removes whitespace, `@` or `.`, so it cannot change whether an address is valid. */
  function LowerChar(c: char): (d: char)
    ensures !IsUpper(d)
    ensures IsSpace(d) == IsSpace(c)
    ensures d == '@' <==> c == '@'
    ensures d == '.' <==> c == '.'
    ensures !IsUpper(c) ==> d == c
    ensures IsUpper(c) ==> d as int == c as int + ('a' as int - 'A' as int)
  {
    if IsUpper(c) then (c as int + ('a' as int - 'A' as int)) as char else c
  }

  // ---------------------------------------------------------------------------
  // String operations: trim and toLowerCase
  // ---------------------------------------------------------------------------

  ghost predicate AllSpace(s: string) {
    forall k :: 0 <= k < |s| ==> IsSpace(s[k])
  }

  /** The index of the first character at or after `i` that is not whitespace
      (`|s|` if there is none). */
  function SkipSpace(s: string, i: nat): (j: nat)
    requires i <= |s|
    ensures i <= j <= |s|
    ensures forall k :: i <= k < j ==> IsSpace(s[k])
    ensures j == |s| || !IsSpace(s[j])
    decreases |s| - i
  {
    if i < |s| && IsSpace(s[i]) then SkipSpace(s, i + 1) else i
  }

  /** The index just past the last character before `hi` and not before `lo` that
      is not whitespace (`lo` if there is none). */
  function SkipSpaceBack(s: string, lo: nat, hi: nat): (j: nat)
    requires lo <= hi <= |s|
    ensures lo <= j <= hi
    ensures forall k :: j <= k < hi ==> IsSpace(s[k])
    ensures j == lo || !IsSpace(s[j - 1])
    decreases hi
  {
    if lo < hi && IsSpace(s[hi - 1]) then SkipSpaceBack(s, lo, hi - 1) else hi
  }

  /** `s[lo..hi]` is what remains of `s` once its leading and trailing whitespace
      is cut off. */
  ghost predicate TrimsTo(s: string, lo: int, hi: int) {
    0 <= lo <= hi <= |s|
    && (forall k :: 0 <= k < lo ==> IsSpace(s[k]))
    && (forall k :: hi <= k < |s| ==> IsSpace(s[k]))
    && (lo == hi || (!IsSpace(s[lo]) && !IsSpace(s[hi - 1])))
  }

  /** `String.prototype.trim`; `TrimBounds` states what it returns. */
  function Trim(s: string): string {
    var lo := SkipSpace(s, 0);
    s[lo..SkipSpaceBack(s, lo, |s|)]
  }

  /** What `Trim` computes: the slice of `s` left once its leading and trailing
      whitespace is cut off. */
  lemma TrimBounds(s: string) returns (lo: nat, hi: nat)
    ensures TrimsTo(s, lo, hi) && Trim(s) == s[lo..hi]
  {
    lo := SkipSpace(s, 0);
    hi := SkipSpaceBack(s, lo, |s|);
  }

  /** There is only one way to trim a string. */
  lemma TrimsToUnique(s: string, lo: int, hi: int, lo': int, hi': int)
    requires TrimsTo(s, lo, hi) && TrimsTo(s, lo', hi')
    ensures s[lo..hi] == s[lo'..hi']
  {
    if lo < hi && lo' < hi' {
      assert lo == lo' && hi == hi';
    }
  }

  /** Trimming leaves nothing exactly when the string is all whitespace. */
  lemma TrimEmptyIffAllSpace(s: string)
    ensures Trim(s) == [] <==> AllSpace(s)
  {
    var lo, hi := TrimBounds(s);
    if lo < hi {
      assert !IsSpace(s[lo]);
    } else {
      forall k | 0 <= k < |s| ensures IsSpace(s[k]) {
        if k >= lo { assert k >= hi; }
      }
    }
  }

  /** `String.prototype.toLowerCase`, restricted to ASCII letters. */
  function Lower(s: string): (r: string)
  {
    seq(|s|, k requires 0 <= k < |s| => LowerChar(s[k]))
  }

  // ---------------------------------------------------------------------------
  // The regular expression ^[^\s@]+@[^\s@]+\.[^\s@]+$
  // ---------------------------------------------------------------------------

  /** The class `[^\s@]`. */
  predicate IsWordChar(c: char) {
    !IsSpace(c) && c != '@'
  }

  /** `[^\s@]+`. */
  predicate IsWord(w: string) {
    |w| > 0 && forall k :: 0 <= k < |w| ==> IsWordChar(w[k])
  }

  /** `e` matches the pattern with its `@` at index `i` and the `.` that the
      pattern consumes at index `j`. */
  predicate SplitsAt(e: string, i: int, j: int) {
    0 <= i < j < |e|
    && IsWord(e[..i]) && e[i] == '@' && IsWord(e[i + 1..j]) && e[j] == '.' && IsWord(e[j + 1..])
  }

  /** `/^[^\s@]+@[^\s@]+\.[^\s@]+$/.test(e)`: some way of splitting `e` matches. */
  predicate MatchesPattern(e: string) {
    exists i, j | 0 <= i < j < |e| :: SplitsAt(e, i, j)
  }

  // The shape stated character by character, independently of the pattern.

  ghost predicate NoSpace(e: string) {
    forall k :: 0 <= k < |e| ==> !IsSpace(e[k])
  }

  /** `e[i]` is the only `@` of `e`, and something precedes it. */
  ghost predicate SoleAt(e: string, i: int) {
    0 < i < |e| && e[i] == '@' && forall k :: 0 <= k < |e| && k != i ==> e[k] != '@'
  }

  /** `e[j]` is a `.` after the `@` at `i`, with text on both sides of it. */
  ghost predicate DotInDomain(e: string, i: int, j: int) {
    0 <= i && i + 1 < j < |e| - 1 && e[j] == '.'
  }

  /** No whitespace, exactly one `@` with a non-empty part before it, and a `.`
      after the `@` with non-empty text on both of its sides. */
  ghost predicate WellShaped(e: string) {
    NoSpace(e) && exists i, j :: SoleAt(e, i) && DotInDomain(e, i, j)
  }

  /** The pattern accepts exactly the well-shaped strings. */
  lemma PatternIffWellShaped(e: string)
    ensures MatchesPattern(e) <==> WellShaped(e)
  {
    if MatchesPattern(e) {
      var i, j :| 0 <= i < j < |e| && SplitsAt(e, i, j);
      forall k | 0 <= k < |e|
        ensures !IsSpace(e[k]) && (k != i ==> e[k] != '@')
      {
        if k < i {
          assert e[k] == e[..i][k];
        } else if i < k < j {
          assert e[k] == e[i + 1..j][k - i - 1];
        } else if j < k {
          assert e[k] == e[j + 1..][k - j - 1];
        }
      }
      assert SoleAt(e, i) && DotInDomain(e, i, j);
    }
    if WellShaped(e) {
      var i, j :| SoleAt(e, i) && DotInDomain(e, i, j);
      assert IsWord(e[..i]);
      assert IsWord(e[i + 1..j]);
      assert IsWord(e[j + 1..]);
      assert SplitsAt(e, i, j);
    }
  }

  // ---------------------------------------------------------------------------
  // toEmail
  // ---------------------------------------------------------------------------

  /** `String(input || '')`: a missing or falsy field becomes the empty string. */
  function Coerce(input: Option<string>): string {
    match input
    case None => ""
    case Some(s) => s
  }

  /** `String(input || '').trim().toLowerCase()`. */
  function Normalize(input: Option<string>): string {
    Lower(Trim(Coerce(input)))
  }

  /** `toEmail`: the normalised address when it is well shaped, otherwise null. */
  function ToEmail(input: Option<string>): (r: Option<string>)
    ensures r.Some? <==> WellShaped(Normalize(input))
    ensures r.Some? ==> r.value == Normalize(input)
  {
    var e := Normalize(input);
    PatternIffWellShaped(e);
    if e == [] then None
    else if MatchesPattern(e) then Some(e)
    else None
  }

  // ---------------------------------------------------------------------------
  // Properties of normalisation
  // ---------------------------------------------------------------------------

  /** Lower-casing is idempotent. */
  lemma LowerIdempotent(s: string)
    ensures Lower(Lower(s)) == Lower(s)
  {
  }

  /** A string that neither starts nor ends with whitespace is its own trim. */
  lemma TrimFixesTrimmed(s: string)
    requires s == [] || (!IsSpace(s[0]) && !IsSpace(s[|s| - 1]))
    ensures Trim(s) == s
  {
    var lo, hi := TrimBounds(s);
    assert s == [] || (lo == 0 && hi == |s|);
  }

  /** Trimming and lower-casing commute, so the order the source applies them in
      does not matter. */
  lemma TrimLowerCommute(s: string)
    ensures Lower(Trim(s)) == Trim(Lower(s))
  {
    var lo, hi := TrimBounds(s);
    var l := Lower(s);
    assert TrimsTo(l, lo, hi);
    var lo', hi' := TrimBounds(l);
    TrimsToUnique(l, lo, hi, lo', hi');
    assert Lower(s[lo..hi]) == l[lo..hi];
  }

  /** A missing or falsy field, or one that is empty after trimming, is rejected. */
  lemma ToEmailRejectsBlank(input: Option<string>)
    requires input.None? || AllSpace(input.value)
    ensures ToEmail(input) == None
  {
    TrimEmptyIffAllSpace(Coerce(input));
  }

  /** The position of each character of `Normalize(Some(s))` in `s`. */
  lemma NormalizedFrom(s: string) returns (lo: nat)
    ensures lo + |Normalize(Some(s))| <= |s|
    ensures forall k :: 0 <= k < |Normalize(Some(s))| ==>
              Normalize(Some(s))[k] == LowerChar(s[lo + k])
    ensures forall k :: 0 <= k < |s| && (k < lo || lo + |Normalize(Some(s))| <= k) ==>
              IsSpace(s[k])
  {
    var hi;
    lo, hi := TrimBounds(s);
  }

  /** A field without an `@` is rejected. */
  lemma ToEmailRejectsWithoutAt(s: string)
    requires forall k :: 0 <= k < |s| ==> s[k] != '@'
    ensures ToEmail(Some(s)) == None
  {
    var e := Normalize(Some(s));
    var lo := NormalizedFrom(s);
    assert forall k :: 0 <= k < |e| ==> e[k] == LowerChar(s[lo + k]) && e[k] != '@';
  }

  /** A field with no `.` anywhere after an `@` is rejected. */
  lemma ToEmailRejectsWithoutDotAfterAt(s: string)
    requires forall i, j :: 0 <= i < j < |s| && s[i] == '@' ==> s[j] != '.'
    ensures ToEmail(Some(s)) == None
  {
    var e := Normalize(Some(s));
    var lo := NormalizedFrom(s);
    forall i, j | 0 <= i < j < |e| && e[i] == '@'
      ensures e[j] != '.'
    {
      assert e[i] == LowerChar(s[lo + i]) && e[j] == LowerChar(s[lo + j]);
    }
  }

  /** `toEmail` is idempotent: an accepted address is accepted again unchanged. */
  lemma ToEmailIdempotent(input: Option<string>, e: string)
    requires ToEmail(input) == Some(e)
    ensures ToEmail(Some(e)) == Some(e)
  {
    var i, j :| SoleAt(e, i) && DotInDomain(e, i, j);
    TrimFixesTrimmed(e);
    LowerIdempotent(Trim(Coerce(input)));
    assert Normalize(Some(e)) == e;
  }

  lemma TrimExample()
    ensures Trim("  Foo@Bar.COM ") == "Foo@Bar.COM"
  {
    var s := "  Foo@Bar.COM ";
    assert TrimsTo(s, 2, 13);
    var lo, hi := TrimBounds(s);
    TrimsToUnique(s, lo, hi, 2, 13);
  }

  lemma LowerExample()
    ensures Lower("Foo@Bar.COM") == "foo@bar.com"
  {
  }

  lemma ShapeExample()
    ensures WellShaped("foo@bar.com")
  {
    var e := "foo@bar.com";
    assert SoleAt(e, 3) && DotInDomain(e, 3, 7);
  }

  /** Surrounding whitespace is dropped and letters are lower-cased. */
  lemma ToEmailMixedCaseExample()
    ensures ToEmail(Some("  Foo@Bar.COM ")) == Some("foo@bar.com")
  {
    TrimExample();
    LowerExample();
    ShapeExample();
  }

  /** A string without `@` is not an address. */
  lemma ToEmailNoAtExample()
    ensures ToEmail(Some("not-an-email")) == None
  {
    ToEmailRejectsWithoutAt("not-an-email");
  }
}
