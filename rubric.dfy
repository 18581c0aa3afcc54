/**
 * The v0 heuristic rubric: six sub-scores ENG, CTX, TONE, CLAR, SAFE and MOVE,
 * each 0, 1 or 2, computed from the stripped user text, the persona the
 * message is addressed to and the conversation context, and the overall
 * conversational quality OCQ = (sum of the six) / 12.
 *
 * `Rubric` is the scoring table as a function; `ScoreMessage` is the scorer
 * as the Python scorer runs it (with its interest-counting loop) and is proved to
 * compute `Rubric`. The lemmas state each rule in terms of where keywords
 * occur in the lower-cased text.
 */
module Scoring {
  import opened Wrappers
  import opened Text

  /** A persona record; `name` and `interests` may be absent from the JSON. */
  datatype Persona = Persona(personaId: string, name: Option<string>, interests: Option<seq<string>>)

  /** A context record; `use_case` may be absent from the JSON. */
  datatype Context = Context(contextId: string, personaId: string, useCase: Option<string>)

  /** The six sub-scores, in RUBRIC_KEYS order. */
  datatype Scores = Scores(eng: int, ctx: int, tone: int, clar: int, safe: int, move: int)

  const ColdOpen := "UC1_COLD_OPEN"
  const KeepGoing := "UC2_KEEP_GOING"
  const SuggestDate := "UC3_SUGGEST_DATE"
  const Boundary := "UC4_BOUNDARY"

  const Interrogatives: seq<string> := ["what", "how", "why", "where", "when"]
  const ProfileCues: seq<string> := ["berlin", "your bio", "profile"]
  const RudeMarkers: seq<string> := ["whatever", "shut up", "idiot", "stupid", "bitch"]
  const Objectifying: seq<string> := ["hot", "sexy", "tits"]
  const PoliteMarkers: seq<string> := ["please", "thanks", "no worries", "fair", "totally"]
  const UnsafeMarkers: seq<string> :=
    ["come over tonight", "send nudes", "don't be shy", "you owe", "why not", "stop being",
     "sensitive", "where do you live exactly"]
  const AffirmingMarkers: seq<string> := ["fair", "no worries", "take it slow", "comfortable", "all good"]
  const DateKeywords: seq<string> := ["coffee", "walk", "meet", "grab a"]

  /** Python's `any(x in tl for x in markers)`. */
  predicate AnyIn(tl: string, markers: seq<string>) {
    exists m :: m in markers && Contains(tl, m)
  }

  /** The same test, stated by position. */
  ghost predicate AnyOccurs(tl: string, markers: seq<string>) {
    exists m :: m in markers && Occurs(tl, m)
  }

  lemma AnyInIff(tl: string, markers: seq<string>)
    ensures AnyIn(tl, markers) <==> AnyOccurs(tl, markers)
  {
    forall m | m in markers ensures Contains(tl, m) <==> Occurs(tl, m) { ContainsIff(tl, m); }
  }

  // ---------------------------------------------------------------------------
  // The six dimensions
  // ---------------------------------------------------------------------------

  /** CLAR: a length heuristic on the stripped text. */
  function Clarity(t: string): (r: int)
    ensures 0 <= r <= 2
  {
    if |t| == 0 || |t| > 250 then 0 else if |t| < 12 then 1 else 2
  }

  /** ENG: a question mark, or one of the interrogative words as a
      whitespace-separated word of the lower-cased text. */
  function Engagement(t: string, tl: string): (r: int)
    ensures 0 <= r <= 2
  {
    if '?' in t || (exists w :: w in Interrogatives && w in Split(tl)) then 2
    else if |t| >= 12 then 1
    else 0
  }

  /** The number of interests whose lower-cased form occurs in `tl`: the
      final value of `score_message`'s `hits` counter. */
  function InterestHits(interests: seq<string>, tl: string): (n: nat)
    ensures n <= |interests|
  {
    if interests == [] then 0
    else
      var last := interests[|interests| - 1];
      InterestHits(interests[..|interests| - 1], tl) + (if Contains(tl, Lower(last)) then 1 else 0)
  }

  /** CTX: the persona's name or one of its interests is mentioned (2), else
      a profile cue is (1). */
  function ContextRelevance(tl: string, persona: Persona): (r: int)
    ensures 0 <= r <= 2
  {
    var name := Lower(persona.name.GetOr(""));
    if name != "" && Contains(tl, name) then 2
    else if InterestHits(persona.interests.GetOr([]), tl) >= 1 then 2
    else if AnyIn(tl, ProfileCues) then 1
    else 0
  }

  /** TONE: a rude or objectifying marker wins over a polite one. */
  function Tone(tl: string): (r: int)
    ensures 0 <= r <= 2
  {
    if AnyIn(tl, RudeMarkers) || AnyIn(tl, Objectifying) then 0
    else if AnyIn(tl, PoliteMarkers) then 2
    else 1
  }

  /** SAFE: boundary pressure gives 0; an affirming phrase in a
      boundary-setting context gives 2. */
  function Safety(tl: string, useCase: Option<string>): (r: int)
    ensures 0 <= r <= 2
  {
    if AnyIn(tl, UnsafeMarkers) then 0
    else if useCase == Some(Boundary) && AnyIn(tl, AffirmingMarkers) then 2
    else 1
  }

  /** MOVE: how well the message moves the conversation on, per use case;
      `n` is the length of the stripped text. */
  function Move(uc: string, eng: int, n: nat, tl: string, safe: int): (r: int)
    ensures 0 <= r <= 2
  {
    if uc == ColdOpen then (if eng >= 1 then 2 else 1)
    else if uc == KeepGoing then (if eng >= 1 && n >= 12 then 2 else if n >= 8 then 1 else 0)
    else if uc == SuggestDate then (if AnyIn(tl, DateKeywords) && safe != 0 then 2 else 1)
    else if uc == Boundary then (if safe == 2 then 2 else if safe == 0 then 0 else 1)
    else 1
  }

  predicate InRange(s: Scores) {
    && 0 <= s.eng <= 2 && 0 <= s.ctx <= 2 && 0 <= s.tone <= 2
    && 0 <= s.clar <= 2 && 0 <= s.safe <= 2 && 0 <= s.move <= 2
  }

  /** The scoring table: `score_message` as a function of its inputs. */
  function Rubric(userText: string, persona: Persona, context: Context): (r: Scores)
    ensures InRange(r)
  {
    RubricOfStripped(Strip(userText), persona, context)
  }

  /** The scores of an already stripped message `t`. */
  function RubricOfStripped(t: string, persona: Persona, context: Context): (r: Scores)
    ensures InRange(r)
  {
    var tl := Lower(t);
    var eng := Engagement(t, tl);
    var safe := Safety(tl, context.useCase);
    Scores(eng, ContextRelevance(tl, persona), Tone(tl), Clarity(t), safe,
           Move(context.useCase.GetOr("UNKNOWN"), eng, |t|, tl, safe))
  }

  function Total(s: Scores): int {
    s.eng + s.ctx + s.tone + s.clar + s.safe + s.move
  }

  /** `ocq`: the sum of the six sub-scores over their maximum, 12. */
  function Ocq(s: Scores): (q: real)
    ensures InRange(s) ==> 0.0 <= q <= 1.0
    ensures q * 12.0 == Total(s) as real
  {
    Total(s) as real / 12.0
  }

  // ---------------------------------------------------------------------------
  // The scorer as the Python program runs it
  // ---------------------------------------------------------------------------

  /** `score_message`: strips and lower-cases the text once, counts the
      interests it mentions in a loop, and fills in the six sub-scores. */
  method ScoreMessage(userText: string, persona: Persona, context: Context) returns (scores: Scores)
    ensures scores == Rubric(userText, persona, context)
    ensures InRange(scores)
  {
    var t := Strip(userText);
    var tl := Lower(t);
    var clar := Clarity(t);
    var eng := Engagement(t, tl);
    var ctx := 0;
    var name := Lower(persona.name.GetOr(""));
    if name != "" && Contains(tl, name) {
      ctx := 2;
    } else {
      var hits := CountHits(persona.interests.GetOr([]), tl);
      if hits >= 1 {
        ctx := 2;
      } else if AnyIn(tl, ProfileCues) {
        ctx := 1;
      }
    }
    var tone := Tone(tl);
    var safe := Safety(tl, context.useCase);
    var move := Move(context.useCase.GetOr("UNKNOWN"), eng, |t|, tl, safe);
    scores := Scores(eng, ctx, tone, clar, safe, move);
  }

  /** The `hits` loop of the CTX rule: one pass over the interests, counting
      those whose lower-cased form occurs in `tl`. */
  method CountHits(interests: seq<string>, tl: string) returns (hits: nat)
    ensures hits == InterestHits(interests, tl)
  {
    hits := 0;
    for i := 0 to |interests|
      invariant hits == InterestHits(interests[..i], tl)
    {
      assert interests[..i + 1][..i] == interests[..i];
      if Contains(tl, Lower(interests[i])) {
        hits := hits + 1;
      }
    }
    assert interests[..|interests|] == interests;
  }

  // ---------------------------------------------------------------------------
  // The rules, stated on the stripped text `t` and its lower-cased form `tl`
  // ---------------------------------------------------------------------------

  /** CLAR is 0 for an empty or over-long message, 1 for a short one, else 2. */
  lemma ClarityRule(t: string)
    ensures Clarity(t) == 0 <==> |t| == 0 || |t| > 250
    ensures Clarity(t) == 1 <==> 1 <= |t| < 12
    ensures Clarity(t) == 2 <==> 12 <= |t| <= 250
  {
  }

  /** ENG is 2 exactly when the message asks a question: a '?' or an
      interrogative as a whitespace-separated word; otherwise it rewards
      length. */
  lemma EngagementRule(t: string, tl: string)
    ensures var asks := '?' in t || exists w :: w in Interrogatives && IsToken(tl, w);
      && (Engagement(t, tl) == 2 <==> asks)
      && (Engagement(t, tl) == 1 <==> !asks && |t| >= 12)
      && (Engagement(t, tl) == 0 <==> !asks && |t| < 12)
  {
    forall w | w in Interrogatives ensures w in Split(tl) <==> IsToken(tl, w) { SplitIff(tl, w); }
  }

  /** At least one interest is mentioned exactly when the counter is positive. */
  lemma {:induction false} HitsIff(interests: seq<string>, tl: string)
    ensures InterestHits(interests, tl) >= 1 <==> exists it :: it in interests && Occurs(tl, Lower(it))
  {
    if interests != [] {
      var init, last := interests[..|interests| - 1], interests[|interests| - 1];
      HitsIff(init, tl);
      ContainsIff(tl, Lower(last));
      assert interests == init + [last];
      if exists it :: it in interests && Occurs(tl, Lower(it)) {
        var it :| it in interests && Occurs(tl, Lower(it));
        if it != last { assert it in init; }
      }
    }
  }

  /** The persona is addressed personally: its (non-empty) name or one of its
      interests occurs in the lower-cased message. */
  ghost predicate Personal(tl: string, persona: Persona) {
    || (Lower(persona.name.GetOr("")) != [] && Occurs(tl, Lower(persona.name.GetOr(""))))
    || exists it :: it in persona.interests.GetOr([]) && Occurs(tl, Lower(it))
  }

  /** CTX is 2 exactly when the persona is addressed personally; otherwise 1
      exactly when a profile cue occurs. */
  lemma ContextRule(tl: string, persona: Persona)
    ensures ContextRelevance(tl, persona) == 2 <==> Personal(tl, persona)
    ensures ContextRelevance(tl, persona) == 1 <==> !Personal(tl, persona) && AnyOccurs(tl, ProfileCues)
    ensures ContextRelevance(tl, persona) == 0 <==> !Personal(tl, persona) && !AnyOccurs(tl, ProfileCues)
  {
    ContainsIff(tl, Lower(persona.name.GetOr("")));
    HitsIff(persona.interests.GetOr([]), tl);
    AnyInIff(tl, ProfileCues);
  }

  /** An empty interest matches every message, so CTX is then always 2. */
  lemma EmptyInterestMatchesAll(tl: string, persona: Persona)
    requires "" in persona.interests.GetOr([])
    ensures ContextRelevance(tl, persona) == 2
  {
    HitsIff(persona.interests.GetOr([]), tl);
    assert OccursAt(tl, Lower(""), 0);
  }

  /** TONE is 0 whenever a rude or objectifying marker occurs, polite or not;
      politeness alone gives 2, neither gives 1. */
  lemma ToneRule(tl: string)
    ensures var offensive := AnyOccurs(tl, RudeMarkers) || AnyOccurs(tl, Objectifying);
      && (Tone(tl) == 0 <==> offensive)
      && (Tone(tl) == 2 <==> !offensive && AnyOccurs(tl, PoliteMarkers))
      && (Tone(tl) == 1 <==> !offensive && !AnyOccurs(tl, PoliteMarkers))
  {
    AnyInIff(tl, RudeMarkers);
    AnyInIff(tl, Objectifying);
    AnyInIff(tl, PoliteMarkers);
  }

  /** SAFE is 0 iff an unsafe marker occurs; otherwise 2 only for a
      boundary-setting context with an affirming phrase, and 1 otherwise. */
  lemma SafetyRule(tl: string, useCase: Option<string>)
    ensures var affirms := useCase == Some(Boundary) && AnyOccurs(tl, AffirmingMarkers);
      && (Safety(tl, useCase) == 0 <==> AnyOccurs(tl, UnsafeMarkers))
      && (Safety(tl, useCase) == 2 <==> !AnyOccurs(tl, UnsafeMarkers) && affirms)
      && (Safety(tl, useCase) == 1 <==> !AnyOccurs(tl, UnsafeMarkers) && !affirms)
  {
    AnyInIff(tl, UnsafeMarkers);
    AnyInIff(tl, AffirmingMarkers);
  }

  /** MOVE per use case: a cold open earns 2 for any engaging message and is
      never 0; keeping the conversation going needs an engaging message of 12
      or more characters for 2 and 8 or more for 1; suggesting a date earns 2
      exactly for a date keyword in a message that is not unsafe, else 1; in a
      boundary-setting context MOVE is the SAFE score itself; any other use
      case gives 1. */
  lemma MoveRule(uc: string, eng: int, n: nat, tl: string, safe: int)
    requires 0 <= safe <= 2
    ensures uc == ColdOpen ==> (Move(uc, eng, n, tl, safe) == 2 <==> eng >= 1) && Move(uc, eng, n, tl, safe) != 0
    ensures uc == KeepGoing ==>
      && (Move(uc, eng, n, tl, safe) == 2 <==> eng >= 1 && n >= 12)
      && (Move(uc, eng, n, tl, safe) == 0 <==> n < 8)
    ensures uc == SuggestDate ==>
      && (Move(uc, eng, n, tl, safe) == 2 <==> AnyOccurs(tl, DateKeywords) && safe != 0)
      && (Move(uc, eng, n, tl, safe) == 1 <==> !(AnyOccurs(tl, DateKeywords) && safe != 0))
    ensures uc == Boundary ==> Move(uc, eng, n, tl, safe) == safe
    ensures uc !in {ColdOpen, KeepGoing, SuggestDate, Boundary} ==> Move(uc, eng, n, tl, safe) == 1
  {
    AnyInIff(tl, DateKeywords);
  }

  /** SAFE is 2 only in a boundary-setting context. */
  lemma SafeTwoOnlyAtBoundary(tl: string, useCase: Option<string>)
    requires Safety(tl, useCase) == 2
    ensures useCase == Some(Boundary)
  {
  }

  /** OCQ lies in [0, 1], and in fact never falls below 1/12: an empty
      message has neutral TONE, and a non-empty one earns CLAR or, when it is
      too long for CLAR, ENG. */
  lemma OcqBounds(userText: string, persona: Persona, context: Context)
    ensures var q := Ocq(Rubric(userText, persona, context));
      1.0 / 12.0 <= q <= 1.0
  {
    OcqBoundsStripped(Strip(userText), persona, context);
  }

  lemma OcqBoundsStripped(t: string, persona: Persona, context: Context)
    ensures Total(RubricOfStripped(t, persona, context)) >= 1
  {
    var tl := Lower(t);
    var r := RubricOfStripped(t, persona, context);
    assert r.tone == Tone(tl) && r.clar == Clarity(t) && r.eng == Engagement(t, tl);
    if t == [] {
      assert tl == [];
      forall m | m in RudeMarkers + Objectifying ensures !Contains(tl, m) { NothingInEmpty(m); }
      assert Tone(tl) == 1;
    }
  }

  /** Scoring is case-insensitive: two messages that agree once lower-cased
      get the same scores. */
  lemma RubricIgnoresCase(a: string, b: string, persona: Persona, context: Context)
    requires Lower(a) == Lower(b)
    ensures Rubric(a, persona, context) == Rubric(b, persona, context)
  {
    StripLowerCommute(a);
    StripLowerCommute(b);
    StrippedIgnoresCase(Strip(a), Strip(b), persona, context);
  }

  lemma StrippedIgnoresCase(ta: string, tb: string, persona: Persona, context: Context)
    requires Lower(ta) == Lower(tb)
    ensures RubricOfStripped(ta, persona, context) == RubricOfStripped(tb, persona, context)
  {
    QuestionMarkIgnoresCase(ta, tb);
    var tl := Lower(ta);
    assert Engagement(ta, tl) == Engagement(tb, tl);
    assert Clarity(ta) == Clarity(tb);
  }

  /** Lower-casing leaves '?' alone. */
  lemma QuestionMarkIgnoresCase(ta: string, tb: string)
    requires Lower(ta) == Lower(tb)
    ensures '?' in ta <==> '?' in tb
  {
    var tl := Lower(ta);
    if '?' in ta {
      var i :| 0 <= i < |ta| && ta[i] == '?';
      assert tl[i] == '?';
      assert tb[i] == '?';
    }
    if '?' in tb {
      var i :| 0 <= i < |tb| && tb[i] == '?';
      assert tl[i] == '?';
      assert ta[i] == '?';
    }
  }
}
