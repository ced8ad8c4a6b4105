/**
 What the topic classifier promises: first match wins, every answer is one of ten topics
 and names a rule that really matched, the short-text and default fallbacks, independence
 from letter case, and the worked examples of its documentation.
 */
module ClassifierProperties {
  import opened Text
  import opened Patterns
  import opened TopicClassifier

  /** The ten topics are pairwise different strings. */
  lemma LabelsDistinct()
    ensures forall j, k :: 0 <= j < k < |Rules| ==> Rules[j].topic != Rules[k].topic
    ensures forall k :: 0 <= k < |Rules| ==> Rules[k].topic != OthersLabel
    ensures |Labels| == 10
  {
  }

  /** First match wins: the first rule whose test holds decides, and later rules are never consulted. */
  lemma FirstMatchWins(comment: string, k: nat)
    requires k < |Rules|
    requires Holds(Rules[k].test, Lower(comment))
    requires forall j :: 0 <= j < k ==> !Holds(Rules[j].test, Lower(comment))
    ensures Classify(comment) == Rules[k].topic
  {
  }

  /**
   An answer names the rule that produced it: when the topic is rule `k`'s, rule `k`'s
   test holds of the lower-cased comment and no earlier rule's does.
   */
  lemma TopicIsSound(comment: string, k: nat)
    requires k < |Rules|
    requires Classify(comment) == Rules[k].topic
    ensures Holds(Rules[k].test, Lower(comment))
    ensures forall j :: 0 <= j < k ==> !Holds(Rules[j].test, Lower(comment))
  {
    LabelsDistinct();
    var r := FirstMatch(Rules, Accepts(Lower(comment)), 0);
    assert r == Some(k);
  }

  /** The words that make `arequipe.*\bw\b` a positive opinion. */
  predicate PositiveWord(w: string) {
    w in ["rico", "delicioso", "bueno", "encanta", "sabroso", "dedo"]
  }

  /**
   Category 1 dominates: `arequipe` followed later on the same line by one of the whole
   words `rico`, `delicioso`, `bueno`, `encanta`, `sabroso` or `dedo` is a positive opinion
   of the product, whatever else the comment says.
   */
  lemma PositiveArequipeDominates(comment: string, i: nat, j: nat, w: string)
    requires PositiveWord(w)
    requires var t := Lower(comment);
      && i + 8 <= j <= |t| && OccursAt(t, "arequipe", i) && NoNewline(t, i + 8, j)
      && OccursAt(t, w, j) && Boundary(t, j) && Boundary(t, j + |w|)
    ensures Classify(comment) == PositiveArequipeLabel
  {
    var t := Lower(comment);
    var k := PositiveWordChain(w);
    var c := PositiveArequipePattern[k];
    assert AtomEnd(t, Lit("arequipe"), i) == Some(i + 8);
    assert AtomEnd(t, Word(w), j) == Some(j + |w|);
    ChainOfTwo(t, Lit("arequipe"), Word(w), i, j);
    assert Search(t, c);
    RuleTests(t);
    FirstMatchWins(comment, 0);
  }

  /** Where `arequipe.*\bw\b` stands among the alternatives of category 1. */
  lemma PositiveWordChain(w: string) returns (k: nat)
    requires PositiveWord(w)
    ensures k < |PositiveArequipePattern| && PositiveArequipePattern[k] == [Lit("arequipe"), Word(w)]
  {
    k := if w == "rico" then 0 else if w == "delicioso" then 1 else if w == "bueno" then 2
      else if w == "encanta" then 3 else if w == "sabroso" then 4 else 5;
  }

  /** Short-text fallback: when no category rule matches, fewer than three tokens means off topic. */
  lemma ShortTextIsOffTopic(comment: string)
    requires forall k :: 0 <= k < 8 ==> !Holds(Rules[k].test, Lower(comment))
    requires |Split(Lower(comment))| < 3
    ensures Classify(comment) == OffTopicLabel
  {
    RuleTests(Lower(comment));
    FirstMatchWins(comment, 8);
  }

  /** An empty or all-whitespace comment matches no category and splits into no token: it is off topic. */
  lemma BlankIsOffTopic(comment: string)
    requires IsBlank(comment)
    ensures Classify(comment) == OffTopicLabel
  {
    var t := Lower(comment);
    assert IsBlank(t);
    SplitEmptyIffBlank(t);
    RuleTests(t);
    forall k | 0 <= k < 8
      ensures !Holds(Rules[k].test, t)
    {
      BlankMatchesNothing(t, Rules[k].test.pattern);
    }
    ShortTextIsOffTopic(comment);
  }

  /** The empty comment is off topic. */
  lemma EmptyIsOffTopic()
    ensures Classify("") == OffTopicLabel
  {
    BlankIsOffTopic("");
  }

  /** The default: `Otros` exactly when no rule, the ninth included, accepts the comment. */
  lemma OthersIffNoRule(comment: string)
    ensures Classify(comment) == OthersLabel <==>
              forall k :: 0 <= k < |Rules| ==> !Holds(Rules[k].test, Lower(comment))
  {
    LabelsDistinct();
  }

  /**
   The default spelled out: `Otros` exactly when none of the eight category patterns and
   none of the filler patterns match, and the comment has at least three tokens.
   */
  lemma OthersIff(comment: string)
    ensures var t := Lower(comment);
      Classify(comment) == OthersLabel <==>
        && !Matches(t, PositiveArequipePattern) && !Matches(t, NegativeArequipePattern)
        && !Matches(t, PositiveLatamPattern) && !Matches(t, NegativeLatamPattern)
        && !Matches(t, FlightDetailsPattern) && !Matches(t, AirlineComparisonPattern)
        && !Matches(t, ServiceComplaintsPattern) && !Matches(t, VideoReactionsPattern)
        && !Filler(t) && |Split(t)| >= 3
  {
    ScanIsCascade(comment);
  }

  /** Case does not matter: a comment and its lower-cased copy get the same topic. */
  lemma CaseInsensitive(comment: string)
    ensures Classify(Lower(comment)) == Classify(comment)
  {
    LowerIdempotent(comment);
  }

  /** Two comments that differ only in letter case get the same topic. */
  lemma SameLowerSameTopic(a: string, b: string)
    requires Lower(a) == Lower(b)
    ensures Classify(a) == Classify(b)
  {
  }

  /**
   A sentence `pre arequipe mid w post`, with `mid` on one line and ending in a non-word
   character and `post` starting with one (or empty), is a positive opinion of the product.
   */
  lemma PositiveSentence(pre: string, mid: string, w: string, post: string)
    requires PositiveWord(w)
    requires '\n' !in mid
    requires |mid| > 0 && !IsWordChar(mid[|mid| - 1])
    requires post == [] || !IsWordChar(post[0])
    ensures Classify(pre + "arequipe" + mid + w + post) == PositiveArequipeLabel
  {
    var s := pre + "arequipe" + mid + w + post;
    SentencePositions(pre, mid, w, post);
    PositiveArequipeDominates(s, |pre|, |pre| + 8 + |mid|, w);
  }

  /** Where the keywords of such a sentence stand in its lower-cased text. */
  lemma SentencePositions(pre: string, mid: string, w: string, post: string)
    requires PositiveWord(w)
    requires '\n' !in mid
    requires |mid| > 0 && !IsWordChar(mid[|mid| - 1])
    requires post == [] || !IsWordChar(post[0])
    ensures var s := pre + "arequipe" + mid + w + post;
      var t := Lower(s);
      var i := |pre|;
      var j := i + 8 + |mid|;
      && j + |w| <= |t| && OccursAt(t, "arequipe", i) && NoNewline(t, i + 8, j)
      && OccursAt(t, w, j) && Boundary(t, j) && Boundary(t, j + |w|)
  {
    var s := pre + "arequipe" + mid + w + post;
    var t := Lower(s);
    var i := |pre|;
    var j := i + 8 + |mid|;
    PositiveWordShape(w);
    assert s[i..i + 8] == "arequipe";
    assert s[j..j + |w|] == w;
    LoweredOccurrence(s, "arequipe", i);
    LoweredOccurrence(s, w, j);
    forall k | i + 8 <= k < j
      ensures t[k] != '\n'
    {
      assert s[k] == mid[k - i - 8];
    }
    assert s[j - 1] == mid[|mid| - 1];
    assert t[j] == w[0];
    assert t[j + |w| - 1] == w[|w| - 1];
    if post != [] {
      assert s[j + |w|] == post[0];
    }
  }

  /** Each positive word is lower-case and starts and ends with a word character. */
  lemma PositiveWordShape(w: string)
    requires PositiveWord(w)
    ensures |w| > 0 && IsLowered(w) && IsWordChar(w[0]) && IsWordChar(w[|w| - 1])
  {
  }

  /** The documented example: `El arequipe estaba delicioso en mi vuelo` is a positive opinion of the product. */
  lemma DocstringExample()
    ensures Classify("El arequipe estaba delicioso en mi vuelo") == PositiveArequipeLabel
  {
    assert "El arequipe estaba delicioso en mi vuelo" == "El " + "arequipe" + " estaba " + "delicioso" + " en mi vuelo";
    PositiveSentence("El ", " estaba ", "delicioso", " en mi vuelo");
  }

  /** `El arequipe estaba muy rico en mi vuelo` is a positive opinion of the product. */
  lemma VeryTastyExample()
    ensures Classify("El arequipe estaba muy rico en mi vuelo") == PositiveArequipeLabel
  {
    assert "El arequipe estaba muy rico en mi vuelo" == "El " + "arequipe" + " estaba muy " + "rico" + " en mi vuelo";
    PositiveSentence("El ", " estaba muy ", "rico", " en mi vuelo");
  }

  /** `AREQUIPE RICO` and `arequipe rico` get the same topic, a positive opinion of the product. */
  lemma UpperCaseExample()
    ensures Classify("AREQUIPE RICO") == Classify("arequipe rico") == PositiveArequipeLabel
  {
    UpperCaseLowered();
    CaseInsensitive("AREQUIPE RICO");
    assert "arequipe rico" == "" + "arequipe" + " " + "rico" + "";
    PositiveSentence("", " ", "rico", "");
  }

  /** `AREQUIPE RICO` lower-cases to `arequipe rico`. */
  lemma UpperCaseLowered()
    ensures Lower("AREQUIPE RICO") == "arequipe rico"
  {
    var t := Lower("AREQUIPE RICO");
    assert t[0] == 'a' && t[1] == 'r' && t[2] == 'e' && t[3] == 'q' && t[4] == 'u' && t[5] == 'i' && t[6] == 'p';
    assert t[7] == 'e' && t[8] == ' ' && t[9] == 'r' && t[10] == 'i' && t[11] == 'c' && t[12] == 'o';
  }

  /** `j` and `a`, the letters of a laugh. */
  predicate IsJaChar(c: char) {
    c == 'j' || c == 'a'
  }

  /** One of the first two characters of `w` is neither `j` nor `a`: `w` cannot occur in a laugh. */
  predicate OpensForeign(w: string) {
    (|w| > 0 && !IsJaChar(w[0])) || (|w| > 1 && !IsJaChar(w[1]))
  }

  /** The first or the second atom of the chain starts with a keyword that cannot occur in a laugh. */
  predicate Blocked(c: Chain) {
    OpensForeign(Lead(c[0])) || (|c| > 1 && OpensForeign(Lead(c[1])))
  }

  /** A text of `j`s and `a`s holds no keyword that opens with another letter. */
  lemma JaOpens(t: string, a: Atom, i: nat)
    requires forall k :: 0 <= k < |t| ==> IsJaChar(t[k])
    requires i <= |t| && AtomEnd(t, a, i).Some?
    ensures !OpensForeign(Lead(a))
  {
    var w := Lead(a);
    AtomNeedsLead(t, a, i);
    if |w| > 1 {
      assert t[i + 1] == t[i..i + |w|][1];
    }
  }

  /** A blocked chain is found nowhere in a text of `j`s and `a`s. */
  lemma JaBlocks(t: string, c: Chain)
    requires forall k :: 0 <= k < |t| ==> IsJaChar(t[k])
    requires Blocked(c)
    ensures !Search(t, c)
  {
    forall i | 0 <= i <= |t| && ChainAt(t, c, i)
      ensures false
    {
      JaOpens(t, c[0], i);
      var j := ChainNeedsRest(t, c, i);
      JaOpens(t, c[1..][0], j);
    }
  }

  // Every alternative of categories 1 to 8 is blocked (`jajaja.*arequipe` by its second keyword).
  lemma PositiveArequipeBlocked()
    ensures forall m :: 0 <= m < |PositiveArequipePattern| ==> Blocked(PositiveArequipePattern[m])
  {
  }

  lemma NegativeArequipeBlocked()
    ensures forall m :: 0 <= m < |NegativeArequipePattern| ==> Blocked(NegativeArequipePattern[m])
  {
  }

  lemma PositiveLatamBlocked()
    ensures forall m :: 0 <= m < |PositiveLatamPattern| ==> Blocked(PositiveLatamPattern[m])
  {
  }

  lemma NegativeLatamBlocked()
    ensures forall m :: 0 <= m < |NegativeLatamPattern| ==> Blocked(NegativeLatamPattern[m])
  {
  }

  lemma FlightDetailsBlocked()
    ensures forall m :: 0 <= m < |FlightDetailsPattern| ==> Blocked(FlightDetailsPattern[m])
  {
  }

  lemma AirlineComparisonBlocked()
    ensures forall m :: 0 <= m < |AirlineComparisonPattern| ==> Blocked(AirlineComparisonPattern[m])
  {
  }

  lemma ServiceComplaintsBlocked()
    ensures forall m :: 0 <= m < |ServiceComplaintsPattern| ==> Blocked(ServiceComplaintsPattern[m])
  {
  }

  lemma VideoReactionsBlocked()
    ensures forall m :: 0 <= m < |VideoReactionsPattern| ==> Blocked(VideoReactionsPattern[m])
  {
  }

  /**
   A laugh, any non-empty text of `j`s and `a`s, is off topic: no category keyword occurs
   in it, and it is one token. (`jajajaja` has four `ja` groups, so neither `^jaja+$` nor
   `^ja+ja+ja+$` matches it; the token count decides.)
   */
  lemma LaughIsOffTopic(comment: string)
    requires comment != [] && forall k :: 0 <= k < |comment| ==> IsJaChar(comment[k])
    ensures Classify(comment) == OffTopicLabel
  {
    LowerFixesLowered(comment);
    SplitToken(comment);
    var t := Lower(comment);
    PositiveArequipeBlocked(); NegativeArequipeBlocked(); PositiveLatamBlocked(); NegativeLatamBlocked();
    FlightDetailsBlocked(); AirlineComparisonBlocked(); ServiceComplaintsBlocked(); VideoReactionsBlocked();
    forall k, m | 0 <= k < 8 && 0 <= m < |Rules[k].test.pattern|
      ensures !Search(t, Rules[k].test.pattern[m])
    {
      JaBlocks(t, Rules[k].test.pattern[m]);
    }
    RuleTests(t);
    FirstMatchWins(comment, 8);
  }

  /** `jajajaja` is off topic. */
  lemma LaughExample()
    ensures Classify("jajajaja") == OffTopicLabel
  {
    var s := "jajajaja";
    forall k | 0 <= k < |s|
      ensures IsJaChar(s[k])
    {
      assert k == 0 || k == 1 || k == 2 || k == 3 || k == 4 || k == 5 || k == 6 || k == 7;
    }
    LaughIsOffTopic(s);
  }
}
