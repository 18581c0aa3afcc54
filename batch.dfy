/**
 * The batch runner: index personas and contexts by id, optionally cut the
 * sample list to a prefix, and produce one result row per sample by joining
 * sample -> context -> persona. A missed lookup gives an error row and the
 * batch goes on.
 */
module Batch {
  import opened Wrappers
  import opened Scoring

  /** A sample record; `use_case` may be absent from the JSON. */
  datatype Sample = Sample(sampleId: string, contextId: string, useCase: Option<string>, userText: string)

  /** One output line: the two error shapes, which carry no scores, and the
      success shape. */
  datatype Row =
    | MissingContext(runId: string, sampleId: string, contextId: string, useCase: string, error: string)
    | MissingPersona(runId: string, sampleId: string, contextId: string, useCase: string,
                     personaId: string, error: string)
    | ScoredRow(runId: string, sampleId: string, contextId: string, useCase: string, personaId: string,
                userText: string, scores: Scores, ocq: real, safeViolation: int, timestamp: string)

  function PersonaKey(p: Persona): string { p.personaId }
  function ContextKey(c: Context): string { c.contextId }

  /** `i` is the last position in `xs` whose key is `k`. */
  ghost predicate IsLastWithKey<T>(xs: seq<T>, key: T -> string, k: string, i: int) {
    && 0 <= i < |xs| && key(xs[i]) == k
    && forall j :: i < j < |xs| ==> key(xs[j]) != k
  }

  /** The dictionary comprehension `{key(x): x for x in xs}`. */
  function IndexBy<T>(xs: seq<T>, key: T -> string): map<string, T>
  {
    if xs == [] then map[]
    else IndexBy(xs[..|xs| - 1], key)[key(xs[|xs| - 1]) := xs[|xs| - 1]]
  }

  /** A key is in the index exactly when some record carries it. */
  lemma {:induction false} IndexByKeys<T>(xs: seq<T>, key: T -> string, k: string)
    ensures k in IndexBy(xs, key) <==> exists i :: 0 <= i < |xs| && key(xs[i]) == k
  {
    if xs != [] {
      var init := xs[..|xs| - 1];
      IndexByKeys(init, key, k);
      if exists i :: 0 <= i < |xs| && key(xs[i]) == k {
        var i :| 0 <= i < |xs| && key(xs[i]) == k;
        if i < |xs| - 1 { assert key(init[i]) == k; }
      }
    }
  }

  /** A key maps to the last record that carries it: later duplicates win. */
  lemma {:induction false} IndexByLast<T>(xs: seq<T>, key: T -> string, k: string, i: int)
    requires IsLastWithKey(xs, key, k, i)
    ensures k in IndexBy(xs, key) && IndexBy(xs, key)[k] == xs[i]
  {
    if i < |xs| - 1 {
      var init := xs[..|xs| - 1];
      assert IsLastWithKey(init, key, k, i);
      IndexByLast(init, key, k, i);
    }
  }

  /** `samples[:limit]` when `limit` is positive; every sample otherwise. */
  function Limit(samples: seq<Sample>, limit: int): (r: seq<Sample>)
    ensures |r| == if 0 < limit < |samples| then limit else |samples|
    ensures r == samples[..|r|]
  {
    if limit > 0 && limit < |samples| then samples[..limit] else samples
  }

  /** The row the runner writes for one sample, given the two indexes, the
      run id and the time stamp taken for it. */
  function RowFor(s: Sample, contextById: map<string, Context>, personaById: map<string, Persona>,
                  runId: string, timestamp: string): Row
  {
    var useCase := s.useCase.GetOr("UNKNOWN");
    if s.contextId !in contextById then
      MissingContext(runId, s.sampleId, s.contextId, useCase, "Missing context_id=" + s.contextId)
    else
      var ctx := contextById[s.contextId];
      if ctx.personaId !in personaById then
        MissingPersona(runId, s.sampleId, s.contextId, useCase, ctx.personaId,
                       "Missing persona_id=" + ctx.personaId)
      else
        var scores := Rubric(s.userText, personaById[ctx.personaId], ctx);
        ScoredRow(runId, s.sampleId, s.contextId, ctx.useCase.GetOr(useCase), ctx.personaId, s.userText,
                  scores, Ocq(scores), if scores.safe == 0 then 1 else 0, timestamp)
  }

  /** The body of `main` between loading the inputs and writing the output:
      one row per sample of the (possibly cut) list, in order. `runId` and
      `clock` stand for the wall clock: `clock(i)` is the time stamp taken
      when the i-th row is built. */
  method RunBatch(personas: seq<Persona>, contexts: seq<Context>, samples: seq<Sample>, limit: int,
                  runId: string, clock: nat -> string)
    returns (rows: seq<Row>)
    ensures |rows| == |Limit(samples, limit)|
    ensures forall i :: 0 <= i < |rows| ==>
      rows[i] == RowFor(Limit(samples, limit)[i], IndexBy(contexts, ContextKey), IndexBy(personas, PersonaKey),
                        runId, clock(i))
  {
    var personaById := IndexBy(personas, PersonaKey);
    var contextById := IndexBy(contexts, ContextKey);
    var todo := Limit(samples, limit);
    rows := [];
    for i := 0 to |todo|
      invariant |rows| == i
      invariant forall j :: 0 <= j < i ==> rows[j] == RowFor(todo[j], contextById, personaById, runId, clock(j))
    {
      var s := todo[i];
      var useCase := s.useCase.GetOr("UNKNOWN");
      if s.contextId !in contextById {
        rows := rows + [MissingContext(runId, s.sampleId, s.contextId, useCase, "Missing context_id=" + s.contextId)];
        continue;
      }
      var ctx := contextById[s.contextId];
      var personaId := ctx.personaId;
      if personaId !in personaById {
        rows := rows + [MissingPersona(runId, s.sampleId, s.contextId, useCase, personaId,
                                       "Missing persona_id=" + personaId)];
        continue;
      }
      var persona := personaById[personaId];
      var scores := ScoreMessage(s.userText, persona, ctx);
      var ocqVal := Ocq(scores);
      var safeViolation := if scores.safe == 0 then 1 else 0;
      rows := rows + [ScoredRow(runId, s.sampleId, s.contextId, ctx.useCase.GetOr(useCase), personaId,
                                s.userText, scores, ocqVal, safeViolation, clock(i))];
    }
  }

  /** A sample whose context id no context carries gives an error row that
      names the id and keeps the sample's use case (or "UNKNOWN"). */
  lemma MissingContextRule(personas: seq<Persona>, contexts: seq<Context>, s: Sample,
                           runId: string, timestamp: string)
    ensures var row := RowFor(s, IndexBy(contexts, ContextKey), IndexBy(personas, PersonaKey), runId, timestamp);
      && row.runId == runId && row.sampleId == s.sampleId && row.contextId == s.contextId
      && (row.MissingContext? <==> forall i :: 0 <= i < |contexts| ==> contexts[i].contextId != s.contextId)
      && (row.MissingContext? ==> row.error == "Missing context_id=" + s.contextId
                                  && row.useCase == s.useCase.GetOr("UNKNOWN"))
  {
    IndexByKeys(contexts, ContextKey, s.contextId);
  }

  /** With the context found (the last one carrying the id), the row is a
      missing-persona error exactly when no persona carries the context's
      persona id, and then it names that id. */
  lemma MissingPersonaRule(personas: seq<Persona>, contexts: seq<Context>, s: Sample,
                           runId: string, timestamp: string, i: int)
    requires IsLastWithKey(contexts, ContextKey, s.contextId, i)
    ensures var row := RowFor(s, IndexBy(contexts, ContextKey), IndexBy(personas, PersonaKey), runId, timestamp);
      && !row.MissingContext?
      && (row.MissingPersona? <==> forall j :: 0 <= j < |personas| ==> personas[j].personaId != contexts[i].personaId)
      && (row.MissingPersona? ==> && row.personaId == contexts[i].personaId
                                  && row.error == "Missing persona_id=" + contexts[i].personaId
                                  && row.useCase == s.useCase.GetOr("UNKNOWN"))
  {
    IndexByLast(contexts, ContextKey, s.contextId, i);
    IndexByKeys(personas, PersonaKey, contexts[i].personaId);
  }

  /** With both found, the row carries the rubric of the sample's text against
      that persona and context, the context's use case when it has one, the
      OCQ of the scores, and a violation flag that is 1 exactly when SAFE is 0
      and 0 otherwise. */
  lemma ScoredRule(personas: seq<Persona>, contexts: seq<Context>, s: Sample,
                   runId: string, timestamp: string, i: int, j: int)
    requires IsLastWithKey(contexts, ContextKey, s.contextId, i)
    requires IsLastWithKey(personas, PersonaKey, contexts[i].personaId, j)
    ensures var row := RowFor(s, IndexBy(contexts, ContextKey), IndexBy(personas, PersonaKey), runId, timestamp);
      && row.ScoredRow?
      && row.scores == Rubric(s.userText, personas[j], contexts[i])
      && row.useCase == contexts[i].useCase.GetOr(s.useCase.GetOr("UNKNOWN"))
      && row.personaId == contexts[i].personaId
      && row.userText == s.userText && row.timestamp == timestamp
      && row.ocq == Ocq(row.scores)
      && (row.safeViolation == 1 <==> row.scores.safe == 0)
      && (row.safeViolation == 0 <==> row.scores.safe != 0)
  {
    IndexByLast(contexts, ContextKey, s.contextId, i);
    IndexByLast(personas, PersonaKey, contexts[i].personaId, j);
  }

  /** A success row's OCQ lies in [0, 1] and its violation flag is 0 or 1. */
  lemma ScoredRowBounds(s: Sample, contextById: map<string, Context>, personaById: map<string, Persona>,
                        runId: string, timestamp: string)
    ensures var row := RowFor(s, contextById, personaById, runId, timestamp);
      row.ScoredRow? ==> 0.0 <= row.ocq <= 1.0 && row.safeViolation in {0, 1}
  {
  }
}
