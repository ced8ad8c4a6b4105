# Topic classifier of the Arequipe x LATAM campaign, modelled in Dafny

The repository classifies social-media comments on a campaign in which Alpina's
*Arequipitos* were handed out on LATAM flights. `create_topic_classifier()` returns
`classify_topic`. That function lower-cases the comment and tries nine rules in a fixed
order, and the first rule that accepts the comment gives its topic:

1. positive opinion of the arequipe
2. negative opinion of the arequipe
3. positive opinion of LATAM
4. negative opinion of LATAM
5. positive details of the flight
6. comparison with other airlines
7. complaints about the air service
8. reactions to the video
9. off topic: a filler text such as `jajaja` or `saludos`, or fewer than three whitespace-separated tokens

A comment that no rule accepts is filed under `Otros`.

The model is pure, like the source. It is made of functions, predicates and lemmas in four modules:

- `Text` (Text.dfy):
  - Python's whitespace class, which `\s` and `str.split()` share;
  - the word class behind `\b` and the digit class `\d`;
  - `str.lower()`;
  - `str.split()` with no arguments, related to its input by `SplitLayout`: the text is its tokens laid between blank gaps.
- `Patterns` (Patterns.dfy): the fragment of Python regular expressions the classifier uses. This is not a regex engine. Each unanchored rule is an alternation of chains `a1.*a2.*...`. Each atom is one of:
  - a literal keyword (`Lit`, a substring test);
  - a whole word `\bw\b` (`Word`);
  - keywords joined by `\s*`, optionally inside `\b...\b` (`Spaced`).

  `.*` between atoms may not cross a newline (`NoNewline`). The rule-9 filler patterns are written out as the predicate `Filler`, with `$` also matching before a final newline.
- `TopicClassifier` (TopicClassifier.dfy):
  - the ten topic labels;
  - the eight category patterns, alternative by alternative;
  - the rules as an ordered sequence of (test, topic) pairs;
  - `Classify` as a first-match scan over that sequence (`FirstMatch`);
  - the literal if-cascade `ClassifyCascade`, proved equal to `Classify`.
- `ClassifierProperties` (Properties.dfy): the promises of the classifier.

A few details matter for being exact:

- The label set has ten members: eight category labels, the off-topic label and `Otros`.
- `.*` between two atoms is read as a regular-expression search reads it, with backtracking.
  `ChainAt` lets the next atom start at any later position on the same line, so there is no greedy choice to justify.
- `\s*` inside a spaced atom and the runs of rule 9's anchored patterns are read greedily, through `RunEnd`.
  Greedy reading loses no match here, because each run is followed by a character its class excludes:
  - every keyword starts with a non-whitespace character (the `Keyword` type);
  - in `ja+ja+ja+`, each run of `a`s is followed by `j` or by the end;
  - digits, whitespace and `q`/`a` are disjoint classes.

  Each greedy reading is proved equal, in both directions, to a declarative reading with the split points chosen freely:
  - `PhraseEndExact` for `\s*`;
  - `JaGroupsExact` for `^ja+ja+ja+$`;
  - `TenQsExact` for `^10\s*q+`;
  - `DigitsQaDigitsExact` for `^\d+\s*[qa]+\s*\d+`.
- `jajajaja` has four `ja` groups, so it is not filler (`FourLaughsNotFiller`). It is off topic only through the token count (`LaughExample`).

## Model

| member | source | states |
|---|---|---|
| Text.IsSpace | config/topic_classifier.py:108-111 | `\s` and the separators of `str.split()`: Python's `isspace` set, every code point of it |
| Text.IsWordChar | config/topic_classifier.py:39-41 | the word characters `\b` looks at: letters, digits, numerics and `_` below U+0100 |
| Text.IsDigit | config/topic_classifier.py:108 | `\d` below U+0100: `0` to `9` |
| Text.IsUpper | config/topic_classifier.py:35 | the letters below U+0100 that `str.lower()` changes: A-Z, À-Ö, Ø-Þ |
| Text.LowerChar | config/topic_classifier.py:35 | one character of `str.lower()`: the result is never upper-case; non-upper-case characters are kept; upper-case letters move up by 0x20; whitespace, digits and word characters stay in their classes |
| Text.Lower | config/topic_classifier.py:35 | `str.lower()` keeps the length and leaves no upper-case character |
| Text.LowerIdempotent | config/topic_classifier.py:35 | lower-casing twice is lower-casing once |
| Text.LowerFixesLowered | config/topic_classifier.py:35 | text with no upper-case character is unchanged by lower-casing |
| Text.LowerSlice | config/topic_classifier.py:35 | lower-casing commutes with taking a slice |
| Text.Span | config/topic_classifier.py:111 | the longest prefix whose characters all belong to a class: every character before it belongs, the one after does not |
| Text.RunEnd | config/topic_classifier.py:108-109 | where a greedy run of one character class starting at `i` ends: the run is all in the class and the next character is not |
| Text.RunEndExact | config/topic_classifier.py:108-109 | a run that is all in the class and stops before a character outside it is the one `RunEnd` finds |
| Text.Split | config/topic_classifier.py:111 | `str.split()` yields only non-empty runs of non-whitespace characters |
| Text.Gaps | config/topic_classifier.py:111 | the whitespace around the tokens: one more gap than tokens, each gap all whitespace |
| Text.SplitLayout | config/topic_classifier.py:111 | the text is exactly its tokens interleaved with the blank gaps, and every gap between two tokens is non-empty, so tokens are maximal runs |
| Text.SplitEmptyIffBlank | config/topic_classifier.py:111 | `split()` yields no token if and only if the text is empty or all whitespace |
| Text.SplitToken | config/topic_classifier.py:111 | a text with no whitespace splits into itself alone |
| Patterns.LoweredOccurrence | config/topic_classifier.py:35 | an occurrence of a lower-case keyword survives lower-casing |
| Patterns.OccursAt | config/topic_classifier.py:38-104 | a plain keyword of a pattern occurs at position `i` |
| Patterns.Boundary | config/topic_classifier.py:39-41 | `\b` at a position: exactly one of the characters around it is a word character, with the ends of the text counting as non-word |
| Patterns.NoNewline | config/topic_classifier.py:39-41 | the stretch `.*` may cover: no `\n` in it |
| Patterns.PhraseAt | config/topic_classifier.py:57-102 | `p0\s*p1...` read declaratively: the keywords in order, with any whitespace gap between each two |
| Patterns.PhraseEnd | config/topic_classifier.py:57-102 | where `p0\s*p1...` ends (`número\s*1` and `me\s*l\s*amo` at 57-58, `juan\s*valdez` at 76, `el\s*man`, `charlie\s*kirk` and `en\s*serio` at 100-102): when it matches, the first keyword occurs at the start and the end lies within the text |
| Patterns.PhraseEndExact | config/topic_classifier.py:57-102 | the greedy scan of `p0\s*p1...` ends at `e` if and only if the text from `i` to `e` is the keywords separated by blank gaps |
| Patterns.PhraseEndSound | config/topic_classifier.py:57-102 | each end the greedy scan reports is a real match |
| Patterns.PhraseEndComplete | config/topic_classifier.py:57-102 | every real match is the one the greedy scan reports |
| Patterns.PhraseAtGreedy | config/topic_classifier.py:76 | a match of `a\s*b` survives taking the whole whitespace run after `a` |
| Patterns.GreedyGap | config/topic_classifier.py:76 | the next keyword can only start where the whitespace run ends |
| Patterns.AtomEnd | config/topic_classifier.py:39-41 | a literal, whole-word or spaced atom that matches at `i` ends strictly after `i` and within the text |
| Patterns.ChainAt | config/topic_classifier.py:38-104 | `a1.*a2.*...` matches at `i`: the first atom matches there and the rest matches at any later position on the same line |
| Patterns.Search | config/topic_classifier.py:38-104 | `re.search` of one alternative: it matches at some position of the text |
| Patterns.Matches | config/topic_classifier.py:38-104 | `re.search` of an alternation: some alternative matches somewhere |
| Patterns.ChainOfTwo | config/topic_classifier.py:39-41 | `a.*b` is found when `a` matches and `b` matches later on the same line |
| Patterns.AtomNeedsLead | config/topic_classifier.py:38-104 | an atom matches only where its first keyword occurs |
| Patterns.ChainNeedsRest | config/topic_classifier.py:38-104 | a chain matching at `i` has the rest of the chain matching after its first atom |
| Patterns.BlankMatchesNothing | config/topic_classifier.py:38-104 | no category pattern matches an empty or all-whitespace text |
| Patterns.Whole | config/topic_classifier.py:108-109 | `^P$`: `P` matches the whole text, or the whole text minus a final newline |
| Patterns.IsJajaa | config/topic_classifier.py:108 | `jaja+`: `jaj` followed by one or more `a`s and nothing else |
| Patterns.JaGroups | config/topic_classifier.py:108 | `ja+ja+ja+` read greedily, each `a+` taking its whole run |
| Patterns.JaGroupsAt | config/topic_classifier.py:108 | `ja+ja+ja+` read declaratively: some split of the text into groups `j` and one or more `a`s |
| Patterns.JaGroupsExact | config/topic_classifier.py:108 | the greedy and declarative readings of `(ja+){n}` accept the same texts |
| Patterns.JaGroupsSound | config/topic_classifier.py:108 | the greedy groups are a split |
| Patterns.JaGroupsComplete | config/topic_classifier.py:108 | every split is the greedy one |
| Patterns.JaGroupsStart | config/topic_classifier.py:108 | after the last group nothing is left, and otherwise the next group starts with `j` |
| Patterns.TenQs | config/topic_classifier.py:108 | `^10\s*q+` read greedily: `10`, all the whitespace after it, then `q` |
| Patterns.TenQsAt | config/topic_classifier.py:108 | `^10\s*q+` read declaratively, with any whitespace gap |
| Patterns.TenQsExact | config/topic_classifier.py:108 | the greedy reading of `^10\s*q+` matches exactly when the declarative one does |
| Patterns.DigitsQaDigits | config/topic_classifier.py:108 | `^\d+\s*[qa]+\s*\d+` read greedily, run by run |
| Patterns.DigitsQaDigitsAt | config/topic_classifier.py:108 | `^\d+\s*[qa]+\s*\d+` read declaratively, with split points `a` to `e` |
| Patterns.DigitsQaDigitsExact | config/topic_classifier.py:108 | the greedy reading matches exactly when some split does |
| Patterns.DigitsQaDigitsSplit | config/topic_classifier.py:108 | the greedy runs are a split |
| Patterns.GreedyRuns | config/topic_classifier.py:108 | in any split, each run ends where the greedy run ends |
| Patterns.IsNoiseChar | config/topic_classifier.py:109 | the class `[qoa\s\d]` |
| Patterns.IsQueBien | config/topic_classifier.py:109 | `que\s*bien` as the whole text |
| Patterns.Filler | config/topic_classifier.py:107-110 | the eight anchored filler alternatives of rule 9, `^` at the start of the text and `$` at its end or before a final newline |
| Patterns.SaludosIsFiller | config/topic_classifier.py:109 | `saludos` is filler |
| Patterns.QueBienIsFiller | config/topic_classifier.py:109 | `que  bien` is filler |
| Patterns.JajaIsFiller | config/topic_classifier.py:108 | `jaja` is filler, by `^jaja+$` |
| Patterns.JajajaIsFiller | config/topic_classifier.py:108 | `jajaja` is filler, by `^ja+ja+ja+$` |
| Patterns.ZeroQIsFiller | config/topic_classifier.py:108 | `0q hola amigos` is filler, by `^0q` |
| Patterns.FourLaughsNotFiller | config/topic_classifier.py:107-110 | `jajajaja` matches none of the filler alternatives |
| Patterns.NotLaughFiller | config/topic_classifier.py:108 | neither laughter alternative matches `jajajaja` |
| Patterns.NotOtherFiller | config/topic_classifier.py:108-109 | none of the other six filler alternatives matches `jajajaja` |
| Patterns.FourGroups | config/topic_classifier.py:108 | four `ja` groups are not three |
| TopicClassifier.Labels | config/topic_classifier.py:44-115 | the ten labels the classifier can answer |
| TopicClassifier.PositiveArequipePattern | config/topic_classifier.py:38-43 | the nine alternatives of category 1 |
| TopicClassifier.NegativeArequipePattern | config/topic_classifier.py:47-52 | the six alternatives of category 2 |
| TopicClassifier.PositiveLatamPattern | config/topic_classifier.py:55-62 | the eleven alternatives of category 3 |
| TopicClassifier.NegativeLatamPattern | config/topic_classifier.py:65-71 | the nine alternatives of category 4, with `pésim[oa]` as two |
| TopicClassifier.FlightDetailsPattern | config/topic_classifier.py:74-80 | the thirteen alternatives of category 5, with `detalle[s]?.*bonito[s]?` as four |
| TopicClassifier.AirlineComparisonPattern | config/topic_classifier.py:83-88 | the six alternatives of category 6 |
| TopicClassifier.ServiceComplaintsPattern | config/topic_classifier.py:91-96 | the six alternatives of category 7 |
| TopicClassifier.VideoReactionsPattern | config/topic_classifier.py:99-104 | the eight alternatives of category 8 |
| TopicClassifier.Holds | config/topic_classifier.py:107-111 | a rule's test: a pattern search, or for rule 9 the filler patterns or fewer than three tokens |
| TopicClassifier.Rules | config/topic_classifier.py:37-112 | the nine rules in the source's order, each with its label |
| TopicClassifier.Accepts | config/topic_classifier.py:37-112 | the test each rule runs on the lower-cased comment |
| TopicClassifier.FirstMatch | config/topic_classifier.py:37-112 | for any rule test, the index found is the first rule whose test holds; no rule's test holds exactly when none is found |
| TopicClassifier.Classify | config/topic_classifier.py:35-115 | every answer is one of the ten labels |
| TopicClassifier.ClassifyCascade | config/topic_classifier.py:35-115 | `classify_topic` as written: one `if` per rule, in order, then `Otros` |
| TopicClassifier.RuleTests | config/topic_classifier.py:37-112 | rule k of the sequence tests exactly the k-th `if` of the source |
| TopicClassifier.ScanIsCascade | config/topic_classifier.py:37-115 | the rule scan equals the literal if-cascade on every comment |
| ClassifierProperties.LabelsDistinct | config/topic_classifier.py:44-115 | the nine rule labels are pairwise different and differ from `Otros`: ten labels in all |
| ClassifierProperties.FirstMatchWins | config/topic_classifier.py:37-112 | if rule k holds and no earlier rule does, the answer is rule k's label |
| ClassifierProperties.TopicIsSound | config/topic_classifier.py:38-112 | if the answer is rule k's label, rule k holds of the lower-cased comment and no earlier rule does |
| ClassifierProperties.PositiveArequipeDominates | config/topic_classifier.py:38-44 | `arequipe` followed later on the same line by the whole word `rico`, `delicioso`, `bueno`, `encanta`, `sabroso` or `dedo` gives the positive arequipe label, whatever else the comment holds |
| ClassifierProperties.PositiveSentence | config/topic_classifier.py:38-44 | a sentence `... arequipe ... w ...` with such a `w` as a whole word on the same line gives the positive arequipe label |
| ClassifierProperties.SentencePositions | config/topic_classifier.py:38-44 | where `arequipe` and `w` sit in such a sentence once lower-cased: on one line, `w` a whole word |
| ClassifierProperties.ShortTextIsOffTopic | config/topic_classifier.py:106-112 | when rules 1-8 fail and the text has fewer than three tokens, the answer is off topic |
| ClassifierProperties.BlankIsOffTopic | config/topic_classifier.py:106-112 | an empty or all-whitespace comment is off topic |
| ClassifierProperties.EmptyIsOffTopic | config/topic_classifier.py:111-112 | the empty comment is off topic |
| ClassifierProperties.OthersIffNoRule | config/topic_classifier.py:107-115 | the answer is `Otros` if and only if no rule holds |
| ClassifierProperties.OthersIff | config/topic_classifier.py:107-115 | the answer is `Otros` if and only if none of the eight patterns and no filler pattern match and the text has at least three tokens |
| ClassifierProperties.CaseInsensitive | config/topic_classifier.py:35 | a comment and its lower-cased copy get the same topic |
| ClassifierProperties.SameLowerSameTopic | config/topic_classifier.py:35 | two comments equal up to letter case get the same topic |
| ClassifierProperties.DocstringExample | config/topic_classifier.py:20-22 | `El arequipe estaba delicioso en mi vuelo` gives `Opinión Positiva - Arequipe/Alpina` |
| ClassifierProperties.VeryTastyExample | config/topic_classifier.py:38-44 | `El arequipe estaba muy rico en mi vuelo` gives `Opinión Positiva - Arequipe/Alpina` |
| ClassifierProperties.UpperCaseExample | config/topic_classifier.py:35-44 | `AREQUIPE RICO` and `arequipe rico` get the same topic, the positive arequipe label |
| ClassifierProperties.JaBlocks | config/topic_classifier.py:38-104 | a chain whose first or second keyword opens with a letter other than `j`/`a` is found nowhere in a text of `j`s and `a`s |
| ClassifierProperties.LaughIsOffTopic | config/topic_classifier.py:37-112 | every non-empty text of `j`s and `a`s matches no category and is one token, so it is off topic |
| ClassifierProperties.LaughExample | config/topic_classifier.py:107-112 | `jajajaja` is off topic |

## Left out

- Python's `re` engine as such: only the constructs these patterns use are given a meaning (literal, `\b`, `.*`, `\s*`, `^`, `$`, the character classes of rule 9).
- Characters from U+0100 on: `\w` and `\d` treat them as non-word and non-digit, and `lower()` leaves them unchanged. Python's Unicode tables are larger, and `lower()` can even lengthen a string (U+0130). Below U+0100, which covers every accented letter the patterns use, the three classes and `lower()` are exact. Whitespace is modelled exactly, all of Python's `isspace` set.
- The `str(comment)` coercion (line 35): the input is a string; the stringification of other Python objects is outside the model.
- The factory wrapper `create_topic_classifier` (lines 11-23, 117): it only returns `classify_topic` and has no behaviour of its own. `Classify` is deterministic by construction, since it is a function.
- `CAMPAIGN_METADATA` and `get_campaign_metadata` (lines 123-142): static data with no part in the classification. Two defects are worth noting:
  - it describes a Kéfir campaign whose seven categories are not the classifier's labels;
  - `.copy()` is shallow, so every caller of `get_campaign_metadata` shares the one `categories` list and can mutate it.
- Concrete negative sentences are not proved, for example `Latam es una porquería, perdieron mi maleta` giving the negative LATAM label, and `el cielo está nublado hoy en la tarde` giving `Otros`. Each would need every keyword of the earlier rules to be shown absent from that sentence. The general conditions are proved instead (`FirstMatchWins`, `TopicIsSound`, `OthersIff`).
