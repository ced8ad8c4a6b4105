/**
 The character-level vocabulary of the classifier: Python's whitespace, word and digit
 classes, the lower-casing applied to every comment before matching, and `str.split()`
 with no arguments (used by the "fewer than three tokens" test).
 */
module Text {

  /** Python's `str.isspace()` set. `\s` in a `str` pattern and `str.split()` use the same set. */
  predicate IsSpace(c: char) {
    || '\t' <= c <= '\r'                         // TAB, LF, VT, FF, CR
    || '\U{1C}' <= c <= '\U{1F}'                 // FS, GS, RS, US
    || c == ' '
    || c == '\U{85}' || c == '\U{A0}'            // NEL, NO-BREAK SPACE
    || c == '\U{1680}'
    || '\U{2000}' <= c <= '\U{200A}'
    || c == '\U{2028}' || c == '\U{2029}' || c == '\U{202F}' || c == '\U{205F}'
    || c == '\U{3000}'
  }

  /** `\d` restricted to the characters below U+0100, where it is exactly ASCII `0`-`9`. */
  predicate IsDigit(c: char) {
    '0' <= c <= '9'
  }

  /**
   `\w` (letters, digits, numerics and `_`) as Python defines it for the characters below
   U+0100; characters from U+0100 on are treated as non-word characters.
   */
  predicate IsWordChar(c: char) {
    || 'a' <= c <= 'z' || 'A' <= c <= 'Z' || IsDigit(c) || c == '_'
    || c == '\U{AA}' || c == '\U{B2}' || c == '\U{B3}' || c == '\U{B5}'
    || c == '\U{B9}' || c == '\U{BA}' || '\U{BC}' <= c <= '\U{BE}'
    || '\U{C0}' <= c <= '\U{D6}' || '\U{D8}' <= c <= '\U{F6}' || '\U{F8}' <= c <= '\U{FF}'
  }

  /** The upper-case letters below U+0100 that `str.lower()` changes: A-Z, À-Ö and Ø-Þ. */
  predicate IsUpper(c: char) {
    'A' <= c <= 'Z' || '\U{C0}' <= c <= '\U{D6}' || '\U{D8}' <= c <= '\U{DE}'
  }

  /** `str.lower()` on one character: each of these upper-case letters lies 0x20 below its lower case. */
  function LowerChar(c: char): (d: char)
    ensures !IsUpper(d)
    ensures !IsUpper(c) ==> d == c
    ensures IsUpper(c) ==> d as int == c as int + 0x20
    ensures IsSpace(d) == IsSpace(c) && IsDigit(d) == IsDigit(c) && IsWordChar(d) == IsWordChar(c)
  {
    if IsUpper(c) then (c as int + 0x20) as char else c
  }

  /** No character of `s` is one that lower-casing would change. */
  predicate IsLowered(s: string) {
    forall k :: 0 <= k < |s| ==> !IsUpper(s[k])
  }

  /** `str.lower()`: lower-cases character by character. */
  function Lower(s: string): (r: string)
    ensures |r| == |s| && IsLowered(r)
  {
    seq(|s|, k requires 0 <= k < |s| => LowerChar(s[k]))
  }

  /** Lower-casing leaves lower-cased text alone. */
  lemma LowerFixesLowered(s: string)
    requires IsLowered(s)
    ensures Lower(s) == s
  {
  }

  /** Lower-casing twice is lower-casing once. */
  lemma LowerIdempotent(s: string)
    ensures Lower(Lower(s)) == Lower(s)
  {
    LowerFixesLowered(Lower(s));
  }

  /** Lower-casing a slice is slicing the lower-cased text. */
  lemma LowerSlice(s: string, i: nat, j: nat)
    requires i <= j <= |s|
    ensures Lower(s)[i..j] == Lower(s[i..j])
  {
  }

  /** Every character of `s` is whitespace (the empty string included). */
  predicate IsBlank(s: string) {
    forall k :: 0 <= k < |s| ==> IsSpace(s[k])
  }

  predicate IsSolid(c: char) {
    !IsSpace(c)
  }

  /** A token of `str.split()`: a non-empty run of non-whitespace characters. */
  predicate IsToken(w: string) {
    |w| > 0 && forall k :: 0 <= k < |w| ==> IsSolid(w[k])
  }

  /** The length of the longest prefix of `s` whose characters all satisfy `member`. */
  function Span(s: string, member: char -> bool): (n: nat)
    ensures n <= |s|
    ensures forall k :: 0 <= k < n ==> member(s[k])
    ensures n < |s| ==> !member(s[n])
  {
    if s == [] || !member(s[0]) then 0 else 1 + Span(s[1..], member)
  }

  /** Every character of `t[i..j]` satisfies `member`. */
  predicate AllIn(t: string, i: nat, j: nat, member: char -> bool)
    requires i <= j <= |t|
  {
    forall k :: i <= k < j ==> member(t[k])
  }

  /** Where the run of `member` characters starting at `i` ends: the run is all `member`, the character after it is not. */
  function RunEnd(t: string, i: nat, member: char -> bool): (j: nat)
    requires i <= |t|
    ensures i <= j <= |t| && AllIn(t, i, j, member) && (j < |t| ==> !member(t[j]))
  {
    var n := Span(t[i..], member);
    assert forall k :: i <= k < i + n ==> t[k] == t[i..][k - i];
    i + n
  }

  /** A run of `member` characters that stops before a non-member (or the end) is the one `RunEnd` finds. */
  lemma RunEndExact(t: string, i: nat, j: nat, member: char -> bool)
    requires i <= j <= |t| && AllIn(t, i, j, member) && (j < |t| ==> !member(t[j]))
    ensures RunEnd(t, i, member) == j
  {
  }

  /**
   `str.split()` with no arguments: the maximal runs of non-whitespace characters, in order;
   leading, trailing and repeated whitespace produce no empty tokens.
   */
  function Split(s: string): (tokens: seq<string>)
    ensures forall k :: 0 <= k < |tokens| ==> IsToken(tokens[k])
    decreases |s|
  {
    var m := Span(s, IsSpace);
    var t := s[m..];
    if t == [] then []
    else
      var n := Span(t, IsSolid);
      assert t[0] == s[m] && IsToken(t[..n]);
      var rest := Split(t[n..]);
      var tokens := [t[..n]] + rest;
      assert forall k :: 0 < k < |tokens| ==> tokens[k] == rest[k - 1];
      tokens
  }

  /** The whitespace between (and around) the tokens of `Split(s)`: one more gap than tokens, all blank. */
  function Gaps(s: string): (gaps: seq<string>)
    ensures |gaps| == |Split(s)| + 1
    ensures forall k :: 0 <= k < |gaps| ==> IsBlank(gaps[k])
    decreases |s|
  {
    var m := Span(s, IsSpace);
    var t := s[m..];
    if t == [] then [s]
    else
      var n := Span(t, IsSolid);
      [s[..m]] + Gaps(t[n..])
  }

  /** `gaps[0] + tokens[0] + gaps[1] + ... + tokens[n-1] + gaps[n]`. */
  function Interleave(gaps: seq<string>, tokens: seq<string>): string
    requires |gaps| == |tokens| + 1
    decreases |tokens|
  {
    if tokens == [] then gaps[0] else gaps[0] + tokens[0] + Interleave(gaps[1..], tokens[1..])
  }

  /**
   `Split` loses nothing but whitespace: the string is its tokens laid out between the blank
   gaps of `Gaps`, and every gap between two tokens holds at least one whitespace character,
   so each token is a maximal non-whitespace run.
   */
  lemma {:induction false} SplitLayout(s: string)
    ensures s == Interleave(Gaps(s), Split(s))
    ensures forall k :: 0 < k < |Split(s)| ==> |Gaps(s)[k]| > 0
    decreases |s|
  {
    var m := Span(s, IsSpace);
    var t := s[m..];
    if t != [] {
      var n := Span(t, IsSolid);
      var u := t[n..];
      SplitLayout(u);
      SplitUnfold(s, m, t, n, u);
      var gaps, tokens := Gaps(s), Split(s);
      assert gaps[1..] == Gaps(u) && tokens[1..] == Split(u);
      assert Interleave(gaps, tokens) == s[..m] + t[..n] + Interleave(Gaps(u), Split(u));
      if Split(u) != [] {
        InteriorGap(u);
      }
    }
  }

  /** One step of `Split` and `Gaps` on a string that still holds a token. */
  lemma SplitUnfold(s: string, m: nat, t: string, n: nat, u: string)
    requires m == Span(s, IsSpace) && m <= |s| && t == s[m..] && t != []
    requires n == Span(t, IsSolid) && u == t[n..]
    ensures Split(s) == [t[..n]] + Split(u)
    ensures Gaps(s) == [s[..m]] + Gaps(u)
    ensures s == s[..m] + t[..n] + u
  {
    SplitStep(s, m, t, n, u);
    GapsStep(s, m, t, n, u);
    Reassemble(s, m, t, n, u);
  }

  /** A string is its prefix, the next piece and the rest. */
  lemma Reassemble(s: string, m: nat, t: string, n: nat, u: string)
    requires m <= |s| && t == s[m..] && n <= |t| && u == t[n..]
    ensures s == s[..m] + t[..n] + u
  {
    assert s == s[..m] + t;
    assert t == t[..n] + u;
  }

  /** `Split` takes the token after the leading whitespace and continues after it. */
  lemma SplitStep(s: string, m: nat, t: string, n: nat, u: string)
    requires m == Span(s, IsSpace) && m <= |s| && t == s[m..] && t != []
    requires n == Span(t, IsSolid) && u == t[n..]
    ensures Split(s) == [t[..n]] + Split(u)
  {
  }

  /** `Gaps` takes the leading whitespace and continues after the token that follows it. */
  lemma GapsStep(s: string, m: nat, t: string, n: nat, u: string)
    requires m == Span(s, IsSpace) && m <= |s| && t == s[m..] && t != []
    requires n == Span(t, IsSolid) && u == t[n..]
    ensures Gaps(s) == [s[..m]] + Gaps(u)
  {
  }

  /** A string that follows a token and still holds one starts with a non-empty gap. */
  lemma InteriorGap(u: string)
    requires Split(u) != []
    requires u != [] ==> IsSpace(u[0])
    ensures |Gaps(u)[0]| > 0
  {
  }

  /** `str.split()` yields no token exactly when the text is empty or all whitespace. */
  lemma SplitEmptyIffBlank(s: string)
    ensures Split(s) == [] <==> IsBlank(s)
  {
    var m := Span(s, IsSpace);
    if m < |s| {
      assert !IsSpace(s[m]);
    }
  }

  /** A single run of non-whitespace characters splits into itself. */
  lemma SplitToken(s: string)
    requires IsToken(s)
    ensures Split(s) == [s]
  {
    assert Span(s, IsSpace) == 0;
    assert Span(s, IsSolid) == |s|;
    assert s[0..] == s && s[..|s|] == s;
    assert Split(s[|s|..]) == [];
  }
}
