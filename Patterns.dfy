/**
 The exact fragment of Python regular expressions that the topic classifier uses, given a
 meaning over character sequences, and the anchored forms of the "off topic" rule as
 concrete predicates. Every unanchored pattern of the classifier is an alternation of
 chains `a1.*a2.* ... .*an`, where each atom `ai` is

 - a literal keyword `w`,
 - a whole word `\bw\b`, or
 - keywords joined by optional whitespace, `p0\s*p1\s*...`, optionally wrapped in `\b...\b`,

 searched anywhere in the (lower-cased) text, as `re.search` does. The `.*` between two
 atoms matches any run of characters other than a newline.
 */
module Patterns {
  import opened Text

  datatype Option<T> = None | Some(value: T)

  /** Literal text of an atom: non-empty and starting with a non-whitespace character. */
  type Keyword = w: string | |w| > 0 && !IsSpace(w[0]) witness "a"

  /** The keywords of a `p0\s*p1\s*...` atom: at least one. */
  type Phrase = p: seq<Keyword> | |p| > 0 witness ["a"]

  datatype Atom =
    | Lit(text: Keyword)                         // w
    | Word(text: Keyword)                        // \bw\b
    | Spaced(parts: Phrase, bounded: bool)       // p0\s*p1\s*... , inside \b...\b when bounded

  /** Atoms joined by `.*`: `a1.*a2.* ... .*an`, at least one atom. */
  type Chain = c: seq<Atom> | |c| > 0 witness [Lit("a")]

  /** An alternation `c1|c2|...` of chains. */
  type Pattern = seq<Chain>

  /** The keyword `w` occurs in `t` starting at position `i`. */
  predicate OccursAt(t: string, w: string, i: nat) {
    i + |w| <= |t| && t[i..i + |w|] == w
  }

  /** Lower-casing keeps every occurrence of a lower-case keyword. */
  lemma LoweredOccurrence(s: string, w: string, i: nat)
    requires OccursAt(s, w, i) && IsLowered(w)
    ensures OccursAt(Lower(s), w, i)
  {
    LowerSlice(s, i, i + |w|);
    LowerFixesLowered(w);
  }

  /** `\b` at position `p`: exactly one of the characters around `p` is a word character. */
  predicate Boundary(t: string, p: nat)
    requires p <= |t|
  {
    (p > 0 && IsWordChar(t[p - 1])) != (p < |t| && IsWordChar(t[p]))
  }

  /** `.*` can span `t[i..j]`: no newline in it. */
  predicate NoNewline(t: string, i: nat, j: nat)
    requires i <= j <= |t|
  {
    forall k :: i <= k < j ==> t[k] != '\n'
  }

  /** Where `p0\s*p1\s*...` ends when it is matched from position `i`, if it matches there. */
  function PhraseEnd(t: string, parts: seq<Keyword>, i: nat): (r: Option<nat>)
    requires |parts| > 0 && i <= |t|
    ensures r.Some? ==> i + |parts[0]| <= r.value <= |t| && OccursAt(t, parts[0], i)
    decreases |parts|
  {
    if !OccursAt(t, parts[0], i) then None
    else
      var e := i + |parts[0]|;
      if |parts| == 1 then Some(e)
      else
        // `\s*` takes all the whitespace: the next keyword cannot start with whitespace
        PhraseEnd(t, parts[1..], RunEnd(t, e, IsSpace))
  }

  /**
   The declarative reading of `p0\s*p1\s*...`: `t[i..e]` is the keywords in order, with a
   blank (possibly empty) gap between each two.
   */
  predicate PhraseAt(t: string, parts: seq<Keyword>, i: nat, e: nat)
    requires |parts| > 0
    decreases |parts|
  {
    && OccursAt(t, parts[0], i)
    && var g := i + |parts[0]|;
       if |parts| == 1 then e == g
       else exists h :: g <= h <= |t| && AllIn(t, g, h, IsSpace) && PhraseAt(t, parts[1..], h, e)
  }

  /** The whitespace after a keyword is taken whole: `PhraseEnd` finds exactly the matches `PhraseAt` allows. */
  lemma PhraseEndExact(t: string, parts: seq<Keyword>, i: nat, e: nat)
    requires |parts| > 0 && i <= |t|
    ensures PhraseAt(t, parts, i, e) <==> PhraseEnd(t, parts, i) == Some(e)
  {
    if PhraseEnd(t, parts, i) == Some(e) {
      PhraseEndSound(t, parts, i, e);
    }
    if PhraseAt(t, parts, i, e) {
      PhraseEndComplete(t, parts, i, e);
    }
  }

  /** Each end the greedy scan reports is a match. */
  lemma {:induction false} PhraseEndSound(t: string, parts: seq<Keyword>, i: nat, e: nat)
    requires |parts| > 0 && i <= |t|
    requires PhraseEnd(t, parts, i) == Some(e)
    ensures PhraseAt(t, parts, i, e)
    decreases |parts|
  {
    if |parts| > 1 {
      var g := i + |parts[0]|;
      var h := RunEnd(t, g, IsSpace);
      PhraseEndSound(t, parts[1..], h, e);
    }
  }

  /** Each match is the one the greedy scan reports. */
  lemma {:induction false} PhraseEndComplete(t: string, parts: seq<Keyword>, i: nat, e: nat)
    requires |parts| > 0 && i <= |t|
    requires PhraseAt(t, parts, i, e)
    ensures PhraseEnd(t, parts, i) == Some(e)
    decreases |parts|
  {
    if |parts| > 1 {
      var g := i + |parts[0]|;
      var h := RunEnd(t, g, IsSpace);
      PhraseAtGreedy(t, parts, i, e, g, h);
      PhraseEndComplete(t, parts[1..], h, e);
      PhraseEndStep(t, parts, i, g, h);
    }
  }

  /** A match of `p0\s*p1...` also matches with the longest gap `t[g..h]` after `p0`. */
  lemma PhraseAtGreedy(t: string, parts: seq<Keyword>, i: nat, e: nat, g: nat, h: nat)
    requires |parts| > 1 && i <= |t| && PhraseAt(t, parts, i, e)
    requires g == i + |parts[0]| <= |t| && h == RunEnd(t, g, IsSpace)
    ensures PhraseAt(t, parts[1..], h, e)
  {
    var h' :| g <= h' <= |t| && AllIn(t, g, h', IsSpace) && PhraseAt(t, parts[1..], h', e);
    GreedyGap(t, parts[1..], g, h, h', e);
  }

  /** After the first keyword, `PhraseEnd` skips the whitespace gap `t[g..h]` and matches the rest. */
  lemma PhraseEndStep(t: string, parts: seq<Keyword>, i: nat, g: nat, h: nat)
    requires |parts| > 1 && i <= |t| && OccursAt(t, parts[0], i)
    requires g == i + |parts[0]| && g <= |t| && h == RunEnd(t, g, IsSpace)
    ensures PhraseEnd(t, parts, i) == PhraseEnd(t, parts[1..], h)
  {
  }

  /** Only the longest whitespace gap can be followed by the next keyword. */
  lemma GreedyGap(t: string, parts: seq<Keyword>, g: nat, h: nat, h': nat, e: nat)
    requires |parts| > 0 && g <= h' <= |t|
    requires h == RunEnd(t, g, IsSpace)
    requires AllIn(t, g, h', IsSpace) && PhraseAt(t, parts, h', e)
    ensures h' == h
  {
    assert OccursAt(t, parts[0], h') && t[h'] == t[h'..h' + |parts[0]|][0];
    RunEndExact(t, g, h', IsSpace);
  }

  /** Where atom `a` ends when it is matched from position `i`, if it matches there. */
  function AtomEnd(t: string, a: Atom, i: nat): (r: Option<nat>)
    requires i <= |t|
    ensures r.Some? ==> i < r.value <= |t|
  {
    match a
    case Lit(w) =>
      if OccursAt(t, w, i) then Some(i + |w|) else None
    case Word(w) =>
      if Boundary(t, i) && OccursAt(t, w, i) && Boundary(t, i + |w|) then Some(i + |w|) else None
    case Spaced(parts, bounded) =>
      if bounded && !Boundary(t, i) then None
      else match PhraseEnd(t, parts, i)
        case None => None
        case Some(e) => if bounded && !Boundary(t, e) then None else Some(e)
  }

  /** The chain `c` matches in `t` starting at position `i`. */
  predicate ChainAt(t: string, c: seq<Atom>, i: nat)
    requires |c| > 0 && i <= |t|
    decreases |c|
  {
    match AtomEnd(t, c[0], i)
    case None => false
    case Some(e) =>
      |c| == 1 || exists j :: e <= j <= |t| && NoNewline(t, e, j) && ChainAt(t, c[1..], j)
  }

  /** `re.search` of one chain: it matches somewhere in `t`. */
  predicate Search(t: string, c: Chain) {
    exists i :: 0 <= i <= |t| && ChainAt(t, c, i)
  }

  /** `re.search` of an alternation: some alternative matches somewhere in `t`. */
  predicate Matches(t: string, p: Pattern) {
    exists k :: 0 <= k < |p| && Search(t, p[k])
  }

  /** `a.*b` matches when `a` matches at `i` and `b` matches later on the same line. */
  lemma ChainOfTwo(t: string, a: Atom, b: Atom, i: nat, j: nat)
    requires i <= |t| && AtomEnd(t, a, i).Some?
    requires AtomEnd(t, a, i).value <= j <= |t| && NoNewline(t, AtomEnd(t, a, i).value, j)
    requires AtomEnd(t, b, j).Some?
    ensures Search(t, [a, b])
  {
    var c := [a, b];
    assert c[1..] == [b];
    assert ChainAt(t, c[1..], j);
    assert ChainAt(t, c, i);
  }

  /** The first keyword of an atom: the text every match of the atom starts with. */
  function Lead(a: Atom): Keyword {
    match a
    case Lit(w) => w
    case Word(w) => w
    case Spaced(parts, _) => parts[0]
  }

  /** An atom only matches where its first keyword occurs. */
  lemma AtomNeedsLead(t: string, a: Atom, i: nat)
    requires i <= |t|
    ensures AtomEnd(t, a, i).Some? ==> OccursAt(t, Lead(a), i) && t[i] == Lead(a)[0]
  {
    if AtomEnd(t, a, i).Some? {
      var w := Lead(a);
      assert t[i] == t[i..i + |w|][0];
    }
  }

  /** A chain that matches at `i` has the rest of its chain matching at or after the end of its first atom. */
  lemma ChainNeedsRest(t: string, c: seq<Atom>, i: nat) returns (j: nat)
    requires |c| > 1 && i <= |t| && ChainAt(t, c, i)
    ensures i < j <= |t| && ChainAt(t, c[1..], j)
  {
    var e := AtomEnd(t, c[0], i).value;
    j :| e <= j <= |t| && NoNewline(t, e, j) && ChainAt(t, c[1..], j);
  }

  /** A blank text holds no keyword, so no chain matches it. */
  lemma BlankMatchesNothing(t: string, p: Pattern)
    requires IsBlank(t)
    ensures !Matches(t, p)
  {
    forall k, i | 0 <= k < |p| && 0 <= i <= |t|
      ensures !ChainAt(t, p[k], i)
    {
      AtomNeedsLead(t, p[k][0], i);
    }
  }

  // The anchored forms of the off-topic rule. `^` anchors at the start of the text; `$`
  // matches at the end of the text or just before a newline that ends it.

  /** `P$` for a pattern `P` anchored at both ends: `P` matches the whole text, or the text minus a final newline. */
  predicate Whole(t: string, whole: string -> bool) {
    whole(t) || (|t| > 0 && t[|t| - 1] == '\n' && whole(t[..|t| - 1]))
  }

  /** `jaja+` as the whole text: `jaj` and then one or more `a`. */
  predicate IsJajaa(u: string) {
    |u| >= 4 && u[..3] == "jaj" && forall k :: 3 <= k < |u| ==> u[k] == 'a'
  }

  predicate IsA(c: char) {
    c == 'a'
  }

  /**
   `(ja+){n}` as the whole text, read greedily: `n` groups, each a `j` and every `a` that
   follows it. `JaGroupsExact` shows the greedy reading loses no match.
   */
  predicate JaGroups(u: string, n: nat)
    decreases n
  {
    if n == 0 then u == []
    else
      && |u| >= 2 && u[0] == 'j'
      && var k := RunEnd(u, 1, IsA);
         k >= 2 && JaGroups(u[k..], n - 1)
  }

  /** `(ja+){n}` as the whole text, read as regular-expression matching does: any split into `n` groups `j a...a`. */
  predicate JaGroupsAt(u: string, n: nat)
    decreases n
  {
    if n == 0 then u == []
    else exists k :: 2 <= k <= |u| && u[0] == 'j' && AllIn(u, 1, k, IsA) && JaGroupsAt(u[k..], n - 1)
  }

  /** The greedy reading of `(ja+){n}` accepts exactly the texts some split accepts. */
  lemma JaGroupsExact(u: string, n: nat)
    ensures JaGroups(u, n) <==> JaGroupsAt(u, n)
  {
    if JaGroups(u, n) {
      JaGroupsSound(u, n);
    }
    if JaGroupsAt(u, n) {
      JaGroupsComplete(u, n);
    }
  }

  /** The greedy groups are a split. */
  lemma {:induction false} JaGroupsSound(u: string, n: nat)
    requires JaGroups(u, n)
    ensures JaGroupsAt(u, n)
    decreases n
  {
    if n > 0 {
      var k := RunEnd(u, 1, IsA);
      JaGroupsSound(u[k..], n - 1);
      assert 2 <= k <= |u| && u[0] == 'j' && AllIn(u, 1, k, IsA) && JaGroupsAt(u[k..], n - 1);
    }
  }

  /** Every split takes, in each group, all the `a`s: it is the greedy one. */
  lemma {:induction false} JaGroupsComplete(u: string, n: nat)
    requires JaGroupsAt(u, n)
    ensures JaGroups(u, n)
    decreases n
  {
    if n > 0 {
      var k :| 2 <= k <= |u| && u[0] == 'j' && AllIn(u, 1, k, IsA) && JaGroupsAt(u[k..], n - 1);
      JaGroupsStart(u[k..], n - 1);
      if k < |u| {
        assert u[k] == u[k..][0];
      }
      RunEndExact(u, 1, k, IsA);
      JaGroupsComplete(u[k..], n - 1);
    }
  }

  /** What is left after a group is empty when no group remains, and starts with `j` otherwise. */
  lemma JaGroupsStart(v: string, n: nat)
    requires JaGroupsAt(v, n)
    ensures n == 0 ==> v == []
    ensures n > 0 ==> |v| > 0 && v[0] == 'j'
  {
  }

  /** `^10\s*q+`, read greedily: the text starts with `10`, all the whitespace after it, and a `q`. */
  predicate TenQs(t: string) {
    && OccursAt(t, "10", 0)
    && var g := RunEnd(t, 2, IsSpace);
       g < |t| && t[g] == 'q'
  }

  /** `^10\s*q+` as regular-expression matching reads it: `10`, some whitespace `t[2..g]`, then `q`. */
  predicate TenQsAt(t: string, g: nat) {
    OccursAt(t, "10", 0) && 2 <= g < |t| && AllIn(t, 2, g, IsSpace) && t[g] == 'q'
  }

  /** The greedy reading of `^10\s*q+` matches exactly when some whitespace gap does. */
  lemma TenQsExact(t: string)
    ensures TenQs(t) <==> exists g :: TenQsAt(t, g)
  {
    if TenQs(t) {
      assert TenQsAt(t, RunEnd(t, 2, IsSpace));
    }
    if exists g :: TenQsAt(t, g) {
      var g :| TenQsAt(t, g);
      RunEndExact(t, 2, g, IsSpace);
    }
  }

  predicate IsQA(c: char) {
    c == 'q' || c == 'a'
  }

  /**
   `^\d+\s*[qa]+\s*\d+`, read greedily: the text starts with its digits, all the whitespace
   after them, all the `q`s and `a`s after that (at least one), all the whitespace after
   those, and a digit.
   */
  predicate DigitsQaDigits(t: string) {
    var a := RunEnd(t, 0, IsDigit);
    var b := RunEnd(t, a, IsSpace);
    var c := RunEnd(t, b, IsQA);
    var d := RunEnd(t, c, IsSpace);
    a >= 1 && c > b && d < |t| && IsDigit(t[d])
  }

  /** `^\d+\s*[qa]+\s*\d+` as regular-expression matching reads it, with the split points `a` to `e`. */
  predicate DigitsQaDigitsAt(t: string, a: nat, b: nat, c: nat, d: nat, e: nat) {
    && 0 < a <= b < c <= d < e <= |t|
    && AllIn(t, 0, a, IsDigit) && AllIn(t, a, b, IsSpace) && AllIn(t, b, c, IsQA)
    && AllIn(t, c, d, IsSpace) && AllIn(t, d, e, IsDigit)
  }

  /**
   The greedy reading of `^\d+\s*[qa]+\s*\d+` matches exactly when some split does:
   digits, whitespace and `q`/`a` are disjoint classes, so no run can give anything back.
   */
  lemma DigitsQaDigitsExact(t: string)
    ensures DigitsQaDigits(t) <==> exists a, b, c, d, e :: DigitsQaDigitsAt(t, a, b, c, d, e)
  {
    if DigitsQaDigits(t) {
      var a, b, c, d := DigitsQaDigitsSplit(t);
    }
    if exists a, b, c, d, e :: DigitsQaDigitsAt(t, a, b, c, d, e) {
      var a, b, c, d, e :| DigitsQaDigitsAt(t, a, b, c, d, e);
      GreedyRuns(t, a, b, c, d, e);
    }
  }

  /** The greedy runs are a split. */
  lemma DigitsQaDigitsSplit(t: string) returns (a: nat, b: nat, c: nat, d: nat)
    requires DigitsQaDigits(t)
    ensures DigitsQaDigitsAt(t, a, b, c, d, d + 1)
  {
    a := RunEnd(t, 0, IsDigit);
    b := RunEnd(t, a, IsSpace);
    c := RunEnd(t, b, IsQA);
    d := RunEnd(t, c, IsSpace);
  }

  /** Of any split, each run ends where the greedy run does. */
  lemma GreedyRuns(t: string, a: nat, b: nat, c: nat, d: nat, e: nat)
    requires DigitsQaDigitsAt(t, a, b, c, d, e)
    ensures RunEnd(t, 0, IsDigit) == a && RunEnd(t, a, IsSpace) == b
    ensures RunEnd(t, b, IsQA) == c && RunEnd(t, c, IsSpace) == d
  {
    assert IsSpace(t[a]) || IsQA(t[a]) by {
      if a == b { assert IsQA(t[b]); } else { assert IsSpace(t[a]); }
    }
    RunEndExact(t, 0, a, IsDigit);
    assert IsQA(t[b]);
    RunEndExact(t, a, b, IsSpace);
    assert IsSpace(t[c]) || IsDigit(t[c]) by {
      if c == d { assert IsDigit(t[d]); } else { assert IsSpace(t[c]); }
    }
    RunEndExact(t, b, c, IsQA);
    assert IsDigit(t[d]);
    RunEndExact(t, c, d, IsSpace);
  }

  /** The class `[qoa\s\d]`. */
  predicate IsNoiseChar(c: char) {
    c == 'q' || c == 'o' || c == 'a' || IsSpace(c) || IsDigit(c)
  }

  /** `que\s*bien` as the whole text. */
  predicate IsQueBien(u: string) {
    |u| >= 7 && u[..3] == "que" && u[|u| - 4..] == "bien" && IsBlank(u[3..|u| - 4])
  }

  /** `^jaja+$|^ja+ja+ja+$|^0q|^10\s*q+|^\d+\s*[qa]+\s*\d+|^[qoa\s\d]+$|^que\s*bien$|^saludos$` */
  predicate Filler(t: string) {
    || Whole(t, IsJajaa)
    || Whole(t, u => JaGroups(u, 3))
    || OccursAt(t, "0q", 0)
    || TenQs(t)
    || DigitsQaDigits(t)
    || (|t| > 0 && forall k :: 0 <= k < |t| ==> IsNoiseChar(t[k]))   // `^[qoa\s\d]+$`, `$` included
    || Whole(t, IsQueBien)
    || Whole(t, u => u == "saludos")
  }

  // The filler forms at work on the texts they are meant for.

  /** `saludos` is filler. */
  lemma SaludosIsFiller()
    ensures Filler("saludos")
  {
  }

  /** `que  bien`, with any whitespace between the words, is filler. */
  lemma QueBienIsFiller()
    ensures Filler("que  bien")
  {
    var u := "que  bien";
    assert u == "que" + "  " + "bien";
    assert u[..3] == "que" && u[5..] == "bien" && u[3..5] == "  ";
    assert IsQueBien(u);
  }

  /** `jaja` is filler, by `^jaja+$`. */
  lemma JajaIsFiller()
    ensures Filler("jaja")
  {
    var u := "jaja";
    assert u[..3] == "jaj";
    assert IsJajaa(u);
  }

  /** `jajaja` is filler, by `^ja+ja+ja+$`. */
  lemma JajajaIsFiller()
    ensures Filler("jajaja")
  {
    var u := "jajaja";
    assert JaGroupsAt(u[6..], 0);
    assert JaGroupsAt(u[4..], 1) by {
      assert u[4..][2..] == u[6..] && AllIn(u[4..], 1, 2, IsA);
    }
    assert JaGroupsAt(u[2..], 2) by {
      assert u[2..][2..] == u[4..] && AllIn(u[2..], 1, 2, IsA);
    }
    assert JaGroupsAt(u, 3) by {
      assert AllIn(u, 1, 2, IsA);
    }
    JaGroupsExact(u, 3);
  }

  /** A text that opens with `0q` is filler whatever follows, by `^0q`. */
  lemma ZeroQIsFiller()
    ensures Filler("0q hola amigos")
  {
    var t := "0q hola amigos";
    assert t == "0q" + " hola amigos";
    assert t[0..2] == "0q";
  }

  /** `jajajaja` is not filler: it is four `ja` groups, not `jaj` and `a`s, and not three groups. */
  lemma FourLaughsNotFiller()
    ensures !Filler("jajajaja")
  {
    NotLaughFiller("jajajaja");
    NotOtherFiller("jajajaja");
  }

  /** Neither laughter form matches four `ja` groups. */
  lemma NotLaughFiller(t: string)
    requires t == "jajajaja"
    ensures !Whole(t, IsJajaa) && !Whole(t, u => JaGroups(u, 3))
  {
    assert t[4] == 'j' && t[7] == 'a';
    FourGroups(t);
  }

  /** None of the other filler forms matches four `ja` groups. */
  lemma NotOtherFiller(t: string)
    requires t == "jajajaja"
    ensures !OccursAt(t, "0q", 0) && !TenQs(t) && !DigitsQaDigits(t)
    ensures !(|t| > 0 && forall k :: 0 <= k < |t| ==> IsNoiseChar(t[k]))
    ensures !Whole(t, IsQueBien) && !Whole(t, u => u == "saludos")
  {
    assert t[0] == 'j' && t[1] == 'a' && t[7] == 'a';
    RunEndExact(t, 0, 0, IsDigit);
    assert t[..3] != "que";
  }

  /** Four `ja` groups are not three. */
  lemma FourGroups(t: string)
    requires t == "jajajaja"
    ensures !JaGroups(t, 3)
  {
    var v1, v2, v3 := t[2..], t[4..], t[6..];
    assert v1 == "jajaja" && v2 == "jaja" && v3 == "ja";
    assert v1[2..] == v2 && v2[2..] == v3;
    RunEndExact(t, 1, 2, IsA);
    RunEndExact(v1, 1, 2, IsA);
    RunEndExact(v2, 1, 2, IsA);
  }
}
