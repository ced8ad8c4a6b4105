/**
 The comment topic classifier of the Arequipe x LATAM campaign. A comment is lower-cased
 and checked against nine rules in a fixed order; the first rule whose test holds gives the
 topic, and a comment that no rule accepts is filed under `Otros`. Rules 1 to 8 are
 regular-expression searches; rule 9 accepts filler text (a set of anchored patterns) and
 any comment with fewer than three whitespace-separated tokens.
 */
module TopicClassifier {
  import opened Text
  import opened Patterns

  const PositiveArequipeLabel: string := "Opinión Positiva - Arequipe/Alpina"
  const NegativeArequipeLabel: string := "Opinión Negativa - Arequipe/Alpina"
  const PositiveLatamLabel: string := "Opinión Positiva - LATAM"
  const NegativeLatamLabel: string := "Opinión Negativa - LATAM"
  const FlightDetailsLabel: string := "Experiencia de Vuelo - Detalles Positivos"
  const AirlineComparisonLabel: string := "Comparación con Otras Aerolíneas"
  const ServiceComplaintsLabel: string := "Quejas sobre Servicio Aéreo"
  const VideoReactionsLabel: string := "Reacciones al Contenido del Video"
  const OffTopicLabel: string := "Fuera de Tema / No Relevante"
  const OthersLabel: string := "Otros"

  /** Every topic the classifier can answer. */
  const Labels: set<string> := {
    PositiveArequipeLabel, NegativeArequipeLabel, PositiveLatamLabel, NegativeLatamLabel,
    FlightDetailsLabel, AirlineComparisonLabel, ServiceComplaintsLabel, VideoReactionsLabel,
    OffTopicLabel, OthersLabel
  }

  // Category 1. `\bw\b` is Word(w); `a.*b` is the chain [a, b].
  const PositiveArequipePattern: Pattern := [
    [Lit("arequipe"), Word("rico")],
    [Lit("arequipe"), Word("delicioso")],
    [Lit("arequipe"), Word("bueno")],
    [Lit("arequipe"), Word("encanta")],
    [Lit("arequipe"), Word("sabroso")],
    [Lit("arequipe"), Word("dedo")],
    [Lit("alpina"), Word("rico")],
    [Lit("alpina"), Word("bueno")],
    [Lit("me"), Lit("encanta"), Lit("arequipe")]
  ]

  // Category 2.
  const NegativeArequipePattern: Pattern := [
    [Lit("arequipe"), Word("malo")],
    [Lit("arequipe"), Word("azúcar")],
    [Lit("arequipe"), Word("enfermar")],
    [Lit("azúcar"), Word("arequipe")],
    [Lit("dulce"), Lit("exceso")],
    [Lit("demasiado"), Lit("dulce")]
  ]

  // Category 3. `\bnúmero\s*1\b` and `me\s*l\s*amo` are Spaced atoms.
  const PositiveLatamPattern: Pattern := [
    [Lit("latam"), Word("mejor")],
    [Lit("latam"), Word("buena")],
    [Lit("latam"), Word("excelente")],
    [Lit("latam"), Word("encanta")],
    [Lit("latam"), Spaced(["número", "1"], true)],
    [Lit("latam"), Word("preferida")],
    [Spaced(["me", "l", "amo"], false), Lit("latam")],
    [Lit("latam"), Lit("detallistas")],
    [Lit("latam"), Lit("atención")],
    [Lit("latam"), Lit("seguridad")],
    [Lit("nunca"), Lit("sentido"), Lit("bien"), Lit("aerolínea")]
  ]

  // Category 4. `\bpésim[oa]\b` is the two alternatives Word("pésimo") and Word("pésima").
  const NegativeLatamPattern: Pattern := [
    [Lit("latam"), Word("mierda")],
    [Lit("latam"), Word("porquería")],
    [Lit("latam"), Word("mala")],
    [Lit("latam"), Word("pésimo")],
    [Lit("latam"), Word("pésima")],
    [Lit("latam"), Word("roban")],
    [Lit("latam"), Word("maleta")],
    [Lit("latam"), Word("malo")],
    [Lit("latam"), Lit("control")]
  ]

  // Category 5. `\bdetalle[s]?\b.*\bbonito[s]?\b` is the four alternatives with and without the `s`s.
  const FlightDetailsPattern: Pattern := [
    [Word("detalle"), Word("bonito")],
    [Word("detalle"), Word("bonitos")],
    [Word("detalles"), Word("bonito")],
    [Word("detalles"), Word("bonitos")],
    [Word("refrigerio")],
    [Word("café")],
    [Spaced(["juan", "valdez"], false)],
    [Word("atención"), Word("buena")],
    [Lit("viajamos"), Lit("dieron")],
    [Lit("tripulantes")],
    [Lit("cabina")],
    [Lit("clase"), Lit("bisnes")],
    [Lit("business")]
  ]

  // Category 6.
  const AirlineComparisonPattern: Pattern := [
    [Word("avianca")],
    [Word("iberia")],
    [Lit("otra"), Lit("aerolínea")],
    [Lit("mejor"), Lit("que"), Lit("avianca")],
    [Lit("decadencia")],
    [Lit("comparación")]
  ]

  // Category 7.
  const ServiceComplaintsPattern: Pattern := [
    [Lit("roben"), Lit("maleta")],
    [Lit("robar"), Lit("equipaje")],
    [Lit("ni"), Lit("tinto"), Lit("ofrecen")],
    [Lit("no"), Lit("ofrecen")],
    [Lit("mal"), Lit("servicio")],
    [Lit("equipaje")]
  ]

  // Category 8.
  const VideoReactionsPattern: Pattern := [
    [Spaced(["el", "man"], false)],
    [Lit("video")],
    [Lit("aparece")],
    [Spaced(["charlie", "kirk"], false)],
    [Lit("bobo")],
    [Lit("deja"), Lit("familia"), Lit("perro")],
    [Lit("jajaja"), Lit("arequipe")],
    [Spaced(["en", "serio"], false)]
  ]

  /** What a rule tests: a regular-expression search, or rule 9's filler-or-short test. */
  datatype Test = Regex(pattern: Pattern) | FillerOrShort

  datatype Rule = Rule(test: Test, topic: string)

  /** Whether a test accepts the lower-cased comment `t`. */
  predicate Holds(test: Test, t: string) {
    match test
    case Regex(p) => Matches(t, p)
    case FillerOrShort => Filler(t) || |Split(t)| < 3
  }

  /** The nine rules in priority order. */
  const Rules: seq<Rule> := [
    Rule(Regex(PositiveArequipePattern), PositiveArequipeLabel),
    Rule(Regex(NegativeArequipePattern), NegativeArequipeLabel),
    Rule(Regex(PositiveLatamPattern), PositiveLatamLabel),
    Rule(Regex(NegativeLatamPattern), NegativeLatamLabel),
    Rule(Regex(FlightDetailsPattern), FlightDetailsLabel),
    Rule(Regex(AirlineComparisonPattern), AirlineComparisonLabel),
    Rule(Regex(ServiceComplaintsPattern), ServiceComplaintsLabel),
    Rule(Regex(VideoReactionsPattern), VideoReactionsLabel),
    Rule(FillerOrShort, OffTopicLabel)
  ]

  /** The test each rule runs on the lower-cased comment `t`. */
  function Accepts(t: string): Test -> bool {
    test => Holds(test, t)
  }

  /**
   The index of the first rule, from index `from` on, whose test `accepts` admits: the rules
   are tried in order and the scan stops at the first that holds.
   */
  function FirstMatch(rules: seq<Rule>, accepts: Test -> bool, from: nat): (r: Option<nat>)
    requires from <= |rules|
    ensures r.Some? ==> from <= r.value < |rules| && accepts(rules[r.value].test)
    ensures r.Some? ==> forall j :: from <= j < r.value ==> !accepts(rules[j].test)
    ensures r.None? <==> forall j :: from <= j < |rules| ==> !accepts(rules[j].test)
    decreases |rules| - from
  {
    if from == |rules| then None
    else if accepts(rules[from].test) then Some(from)
    else FirstMatch(rules, accepts, from + 1)
  }

  /** `classify_topic`: the label of the first rule accepting the lower-cased comment, else `Otros`. */
  function Classify(comment: string): (topic: string)
    ensures topic in Labels
  {
    match FirstMatch(Rules, Accepts(Lower(comment)), 0)
    case Some(k) => Rules[k].topic
    case None => OthersLabel
  }

  /** The classifier as the source writes it: one `if` per category, in order. */
  function ClassifyCascade(comment: string): string {
    var t := Lower(comment);
    if Matches(t, PositiveArequipePattern) then PositiveArequipeLabel
    else if Matches(t, NegativeArequipePattern) then NegativeArequipeLabel
    else if Matches(t, PositiveLatamPattern) then PositiveLatamLabel
    else if Matches(t, NegativeLatamPattern) then NegativeLatamLabel
    else if Matches(t, FlightDetailsPattern) then FlightDetailsLabel
    else if Matches(t, AirlineComparisonPattern) then AirlineComparisonLabel
    else if Matches(t, ServiceComplaintsPattern) then ServiceComplaintsLabel
    else if Matches(t, VideoReactionsPattern) then VideoReactionsLabel
    else if Filler(t) || |Split(t)| < 3 then OffTopicLabel
    else OthersLabel
  }

  /** The tests of the nine rules, one by one. */
  lemma RuleTests(t: string)
    ensures |Rules| == 9
    ensures Holds(Rules[0].test, t) == Matches(t, PositiveArequipePattern)
    ensures Holds(Rules[1].test, t) == Matches(t, NegativeArequipePattern)
    ensures Holds(Rules[2].test, t) == Matches(t, PositiveLatamPattern)
    ensures Holds(Rules[3].test, t) == Matches(t, NegativeLatamPattern)
    ensures Holds(Rules[4].test, t) == Matches(t, FlightDetailsPattern)
    ensures Holds(Rules[5].test, t) == Matches(t, AirlineComparisonPattern)
    ensures Holds(Rules[6].test, t) == Matches(t, ServiceComplaintsPattern)
    ensures Holds(Rules[7].test, t) == Matches(t, VideoReactionsPattern)
    ensures Holds(Rules[8].test, t) == (Filler(t) || |Split(t)| < 3)
  {
  }

  /** The rule scan and the literal if-cascade give the same answer on every comment. */
  lemma ScanIsCascade(comment: string)
    ensures Classify(comment) == ClassifyCascade(comment)
  {
    var t := Lower(comment);
    RuleTests(t);
    assert FirstMatch(Rules, Accepts(t), 9) == None;
    assert FirstMatch(Rules, Accepts(t), 8) == if Filler(t) || |Split(t)| < 3 then Some(8) else None;
  }
}
