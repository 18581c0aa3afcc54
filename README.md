# Tinder practice bot: a verified model of the rubric scorer and its bookkeeping

This project models the deterministic core of a small dating-chat practice
tool in Dafny and proves properties of it. The core has four parts:

- **The v0 heuristic rubric** (`score_message`, `ocq`) scores one user message
  against a persona and a conversation context. It gives six sub-scores:
  engagement (ENG), context relevance (CTX), tone (TONE), clarity (CLAR),
  safety (SAFE) and conversational move (MOVE), each 0, 1 or 2. The overall
  conversational quality OCQ is their sum over 12. The rules are length
  thresholds, whitespace tokens, and case-insensitive substring tests against
  fixed keyword tables.
- **The batch runner** indexes personas and contexts by id and cuts the
  sample list to an optional prefix. It then joins each sample to its
  context and that context's persona. The result is one success row or one
  error row per sample.
- **The results report** keeps the rows that have a score and averages their
  OCQ and violation flags. It breaks both down by use case, in ascending
  order of use-case name.
- **The chat bot** has a safe-reply template picker and a per-turn step on
  the conversation history. A safety gate (a classifier plus a rule matcher)
  sends the turn to the template picker instead of the language model.

Modules:

| file | module | models |
|---|---|---|
| `wrappers.dfy` | `Wrappers` | `Option`, used for JSON fields that may be absent |
| `text.dfy` | `Text` | Python's `str.strip()`, ASCII `lower()`, `split()` and the substring test `sub in s` |
| `rubric.dfy` | `Scoring` | `score_message` as a specification function (`Rubric`) and as the Python scorer's loop (`ScoreMessage`), plus `ocq` |
| `batch.dfy` | `Batch` | the join and row-building loop of the batch runner's `main` |
| `report.dfy` | `Report` | the scored-row filter, the `by_uc` grouping and the sorted per-use-case lines |
| `templates.dfy` | `SafetyTemplates` | `SAFE_REDIRECTS`, `SOFTENERS` and `boundary_safe_reply` |
| `chat.dfy` | `Chat` | `PERSONA_SYSTEM` and the body of the chat loop, as a class holding the history |

Modelling choices:

- Text is `seq<char>`. Whitespace is exactly the set of code points that
  Python's `str.isspace()` accepts.
- The substring test `sub in s` is characterised by position (`Occurs`). The
  token test `w in s.split()` is characterised as a maximal run of
  non-whitespace characters (`IsToken`).
- Dictionary comprehensions keep the last record for a duplicated key.
- Python's `sorted()` on strings orders by code point, with a proper prefix
  first.
- Arithmetic is exact: `int` for sub-scores and `real` for OCQ and means.
- The wall clock, the random-number generator, the safety classifier, the
  rule matcher and the language model are all parameters:
  - the run id and `clock(i)`, the time stamp of row `i`;
  - a redirect index, a draw in [0, 1) and a softener index;
  - the functions `classify`, `obviousEscalation` and `llm`.

## Model

| member | source | states |
|---|---|---|
| Text.Strip | src/run_batch_v0.py:40 | Python's `s.strip()` (also the chat loop's input at src/chat_v0_3_chatbot.py:75). It is never longer than its input; `StripSpec` states what it removes. |
| Text.StripSpec | src/run_batch_v0.py:40 | `strip()` removes exactly a whitespace-only prefix and suffix: the result sits in the input with only Python whitespace before and after it, and it neither starts nor ends with whitespace. |
| Text.Lower | src/run_batch_v0.py:41 | The result has the input's length, and each character is lower-cased: A-Z map to a-z and nothing else changes. |
| Text.LowerIdempotent | src/run_batch_v0.py:41 | Lower-casing twice equals lower-casing once. |
| Text.StripLowerCommute | src/run_batch_v0.py:40-41 | Stripping then lower-casing equals lower-casing then stripping. |
| Text.Contains | src/run_batch_v0.py:56 | Python's substring test `sub in s`; `ContainsIff` characterises it by position and `NothingInEmpty` gives the empty text. |
| Text.ContainsIff | src/run_batch_v0.py:56 | `sub in s` holds exactly when `sub` occurs in `s` at some position. |
| Text.Split | src/run_batch_v0.py:52 | Python's `s.split()` with no argument; `SplitIff` characterises its words as the maximal whitespace-free runs. |
| Text.SplitIff | src/run_batch_v0.py:52 | `w` is a word of `s.split()` exactly when `w` is a maximal run of non-whitespace characters of `s`. |
| Scoring.AnyIn | src/run_batch_v0.py:65 | `any(x in tl for x in markers)`; `AnyInIff` characterises it by position. |
| Scoring.AnyInIff | src/run_batch_v0.py:71 | `any(x in tl for x in markers)` holds exactly when some marker occurs in `tl` by position. |
| Scoring.Clarity | src/run_batch_v0.py:44-49 | CLAR is in {0,1,2}. |
| Scoring.ClarityRule | src/run_batch_v0.py:44-49 | CLAR is 0 iff the stripped text is empty or longer than 250. It is 1 iff the length is 1 to 11, and 2 iff it is 12 to 250. |
| Scoring.Engagement | src/run_batch_v0.py:52 | ENG is in {0,1,2}. |
| Scoring.EngagementRule | src/run_batch_v0.py:52 | ENG is 2 iff the text has a '?' or one of what/how/why/where/when is a whitespace token of the lower-cased text. Otherwise it is 1 iff the length is at least 12, and 0 iff the length is below 12. |
| Scoring.InterestHits | src/run_batch_v0.py:59-62 | The `hits` counter never exceeds the number of interests. |
| Scoring.HitsIff | src/run_batch_v0.py:59-63 | `hits >= 1` iff some interest, lower-cased, occurs in the lower-cased text. |
| Scoring.ContextRelevance | src/run_batch_v0.py:55-66 | CTX is in {0,1,2}. |
| Scoring.ContextRule | src/run_batch_v0.py:55-66 | CTX is 2 iff a non-empty persona name or some interest occurs case-insensitively in the text. Otherwise it is 1 iff "berlin", "your bio" or "profile" occurs, and 0 iff none of these holds. |
| Scoring.EmptyInterestMatchesAll | src/run_batch_v0.py:60-64 | An empty interest string gives CTX 2 for every message. |
| Scoring.Tone | src/run_batch_v0.py:69-76 | TONE is in {0,1,2}. |
| Scoring.ToneRule | src/run_batch_v0.py:69-76 | TONE is 0 iff a rude or objectifying marker occurs, whether or not a polite marker does too. It is 2 iff a polite marker occurs without either, and 1 otherwise. |
| Scoring.Safety | src/run_batch_v0.py:79-86 | SAFE is in {0,1,2}. |
| Scoring.SafetyRule | src/run_batch_v0.py:79-86 | SAFE is 0 iff an unsafe marker occurs. Otherwise it is 2 iff the use case is UC4_BOUNDARY and an affirming phrase occurs, and 1 iff not. |
| Scoring.SafeTwoOnlyAtBoundary | src/run_batch_v0.py:83-84 | SAFE = 2 implies the context's use case is UC4_BOUNDARY. |
| Scoring.Move | src/run_batch_v0.py:89-99 | MOVE is in {0,1,2}. |
| Scoring.MoveRule | src/run_batch_v0.py:89-99 | UC1: MOVE is 2 iff ENG >= 1, and never 0. UC2: MOVE is 2 iff ENG >= 1 and length >= 12, and 0 iff length < 8. UC3: MOVE is 2 iff a date keyword occurs and SAFE != 0, else 1. UC4: MOVE equals SAFE. Any other use case, including a missing one: MOVE is 1. |
| Scoring.Rubric | src/run_batch_v0.py:39-101 | All six sub-scores of `score_message` are in {0,1,2}. |
| Scoring.RubricOfStripped | src/run_batch_v0.py:40-101 | The same bound for the scores of an already stripped text. |
| Scoring.ScoreMessage | src/run_batch_v0.py:39-101 | The scorer, run with its interest-counting loop, returns exactly the `Rubric` scores, all in range. |
| Scoring.CountHits | src/run_batch_v0.py:59-62 | The interest loop's final `hits` is the number of interests whose lower-cased form occurs in the text. |
| Scoring.Ocq | src/run_batch_v0.py:104-106 | OCQ times 12 is the sum of the six sub-scores, and OCQ is in [0,1] whenever the sub-scores are in range. |
| Scoring.OcqBounds | src/run_batch_v0.py:101-106 | For every message, persona and context, 1/12 <= OCQ <= 1. |
| Scoring.OcqBoundsStripped | src/run_batch_v0.py:40-101 | The sum of the six sub-scores is never 0. |
| Scoring.RubricIgnoresCase | src/run_batch_v0.py:40-41 | Two messages that agree once lower-cased get identical scores. |
| Scoring.StrippedIgnoresCase | src/run_batch_v0.py:41-99 | The same for two stripped texts. |
| Scoring.QuestionMarkIgnoresCase | src/run_batch_v0.py:52 | Lower-casing cannot create or remove a '?'. |
| Batch.IndexBy | src/run_batch_v0.py:123-124 | The `{p["persona_id"]: p ...}` and `{c["context_id"]: c ...}` indexes; `IndexByKeys` gives its keys and `IndexByLast` its values. |
| Batch.IndexByKeys | src/run_batch_v0.py:123-124 | An id is a key of `persona_by_id` / `context_by_id` iff some record carries it. |
| Batch.IndexByLast | src/run_batch_v0.py:123-124 | A key maps to the last record that carries it. |
| Batch.Limit | src/run_batch_v0.py:126-127 | The samples processed are a prefix of the input. It has length `limit` when 0 < limit < count, and is the whole list otherwise. |
| Batch.RowFor | src/run_batch_v0.py:132-178 | The row the loop writes for one sample; `MissingContextRule`, `MissingPersonaRule` and `ScoredRule` characterise its three cases and `ScoredRowBounds` bounds a success row. |
| Batch.RunBatch | src/run_batch_v0.py:123-178 | The loop writes exactly one row per processed sample, in input order. Row `i` is the join result for sample `i`, stamped `clock(i)`. |
| Batch.MissingContextRule | src/run_batch_v0.py:138-148 | The row is a missing-context error iff no context has the sample's id. Its error text is "Missing context_id=" + id, and its use case is the sample's or "UNKNOWN". The run, sample and context ids are always copied. |
| Batch.MissingPersonaRule | src/run_batch_v0.py:150-161 | Once the context is found, the row is a missing-persona error iff no persona has the context's persona id. That error row carries the persona id and "Missing persona_id=" + id. |
| Batch.ScoredRule | src/run_batch_v0.py:163-178 | With both found, the row holds the rubric of the sample text against that persona and context. The use case is the context's when present, else the sample's, else "UNKNOWN". The row also holds the OCQ of the scores and `safe_violation` = 1 iff SAFE = 0, and 0 otherwise. |
| Batch.ScoredRowBounds | src/run_batch_v0.py:164-165 | A success row's OCQ is in [0,1] and its violation flag is 0 or 1. |
| Report.Scored | src/report_batch_results.py:31 | A row is kept iff it has no error and a numeric OCQ. The kept count never exceeds the total. |
| Report.InGroup | src/report_batch_results.py:48-52 | A group holds exactly the rows whose use case, or "UNKNOWN" when absent, is its key, in input order. |
| Report.Mean | src/report_batch_results.py:42-44 | `statistics.mean` on a non-empty list (also the per-use-case means at line 58); `MeanWithin` bounds it by any bounds of its values. |
| Report.MeanWithin | src/report_batch_results.py:42-44 | A mean lies within any bounds that hold for all its values. |
| Report.GroupByUseCase | src/report_batch_results.py:47-52 | There is one group per use-case key present, each key listed once. Each group's OCQ and violation lists are its rows' values in input order. A missing `safe_violation` counts as 0. |
| Report.LexIrreflexive | src/report_batch_results.py:55 | No string sorts before itself. |
| Report.LexTransitive | src/report_batch_results.py:55 | String order is transitive. |
| Report.LexTotal | src/report_batch_results.py:55 | Of two different strings, one sorts first. |
| Report.Insert | src/report_batch_results.py:55 | Inserting into an ascending list keeps it ascending and adds exactly the new key. |
| Report.SortKeys | src/report_batch_results.py:55 | `sorted(keys)` is ascending and a permutation of the keys. |
| Report.GroupsPartition | src/report_batch_results.py:48-52 | Every scored row lands in exactly one group, so the group sizes add up to the number of scored rows. |
| Report.GroupLines | src/report_batch_results.py:55-58 | There is one line per key, in the given order. Each line has its group's size and its mean OCQ and violation percentage. |
| Report.Summarize | src/report_batch_results.py:31-58 | With no scored rows the report stops and computes nothing. Otherwise it gives the scored and total counts, the overall mean OCQ and the violation percentage. The per-use-case lines come in ascending order, one for each use case present. The line counts add up to the scored count. |
| Report.BatchRowsReport | src/report_batch_results.py:31-42 | Read back from batch rows, exactly the success rows are scored, and when every success row's OCQ is in [0,1] so is the mean OCQ. |
| Report.RunBatchReport | src/report_batch_results.py:31-42 | For rows that meet `RunBatch`'s contract, exactly the success rows are scored and the mean OCQ is in [0,1], with no premise on the rows' OCQs. |
| SafetyTemplates.BoundarySafeReply | src/safety_templates.py:22-28 | `boundary_safe_reply` on its three draws; `ReplyStartsWithRedirect`, `ReplyInCatalogue` and `ReplyDeterminesDraws` state what it returns. |
| SafetyTemplates.ReplyStartsWithRedirect | src/safety_templates.py:24-28 | The reply starts with the chosen redirect. It is exactly that redirect iff the draw is not below 0.35. |
| SafetyTemplates.ReplyInCatalogue | src/safety_templates.py:8-28 | The reply is a redirect, or a redirect followed by a space and one softener. |
| SafetyTemplates.RedirectsPrefixFree | src/safety_templates.py:8-13 | No redirect is a prefix of another. |
| SafetyTemplates.ReplyDeterminesDraws | src/safety_templates.py:22-28 | The reply determines the redirect, whether a softener was appended and which one. So there are exactly 4 + 4×3 distinct replies. |
| Chat.SystemPrompt | src/chat_v0_3_chatbot.py:14-25 | `PERSONA_SYSTEM[persona]`, the system prompt text of each of the two personas; the session constructor places it as the first history entry. |
| Chat.ReadLine | src/chat_v0_3_chatbot.py:75-80 | The two checks at the top of the loop on the stripped line, exit/quit first, then blank; `Turn` acts on its result and `ReadLineIgnoresCase` shows that case never changes it. |
| Chat.GateTrips | src/chat_v0_3_chatbot.py:87 | The gate `rule_hit or s.label == "MOVE"`; `Respond`, `Exchange` and `Turn` state which reply each outcome gives. |
| Chat.ExchangeKeepsWellFormed | src/chat_v0_3_chatbot.py:85-94 | Appending a user entry and then an assistant entry keeps the history odd-length and alternating after the system entry. Every earlier entry is left untouched. |
| Chat.Respond | src/chat_v0_3_chatbot.py:87-92 | When the gate trips, the reply comes from the template picker in SAFETY_REPAIR mode. Otherwise it comes from the language model, shown the history, in NORMAL mode. |
| Chat.ChatSession.constructor | src/chat_v0_3_chatbot.py:72 | The history starts as the single system entry holding the persona's prompt. |
| Chat.ChatSession.Exchange | src/chat_v0_3_chatbot.py:82-94 | The stripped text, then the reply, are appended. The reply is the template picker's in SAFETY_REPAIR mode if the rule matcher fires or the label is "MOVE". Otherwise it is the model's reply to the history with the new user entry, in NORMAL mode. The history stays well formed. |
| Chat.ChatSession.Turn | src/chat_v0_3_chatbot.py:74-94 | "exit"/"quit" in any case, after stripping, ends the session. A blank line is skipped. Both leave the history unchanged. Any other line appends exactly two entries as in `Exchange`. Earlier entries, the system entry among them, never change. |
| Chat.ReadLineIgnoresCase | src/chat_v0_3_chatbot.py:75-80 | Whether a line exits, is skipped or is answered does not depend on its letter case. |

## Left out

- Reading and writing files, JSON parsing, `argparse`, and all console output and number formatting. This includes the error summary printed after the batch (`src/run_batch_v0.py:184-188`) and the gate diagnostics line of the chat bot. The model works on already-parsed records.
- Records that lack a field the Python program indexes with `[...]` (`sample_id`, `context_id`, `user_text`, `persona_id`) are not modelled. The Python program raises there, and the model's record types always carry these fields. The same holds for a persona whose `name` is present but `null`, and for ids that are not strings.
- `statistics.median` in the report is not modelled. It is a library routine over floats.
- `time.time()` and `time.strftime`: the run id and each row's time stamp are parameters (`runId`, `clock`).
- Floating point: OCQ, means and percentages are exact `real` arithmetic.
- Text.Lower: lower-cases ASCII letters only. Python's `str.lower()` also lower-cases non-ASCII letters, so texts with such letters are outside what the model covers.
- SafetyTemplates.BoundarySafeReply: the `random.Random` instance is replaced by its three draws. `rng.random() < 0.35` is compared exactly on a real.
- `SafetyEmbedScorer`, `obvious_escalation` and the llama.cpp client are not part of this model. They appear as the functions `classify` (the threshold folded in), `obviousEscalation` (its reason string dropped) and `llm`.
- Chat.ChatSession.Exchange: the Python chat loop consults the classifier and the rule matcher before appending the user entry. Here the oracles are pure functions, so the model does not capture the order of those calls, only their results.
- The blocking `input()` loop itself is not modelled. `Turn` is one iteration, and the caller repeats it until it returns `Quit`.
- A `use_case` or `safe_violation` of a non-string or non-numeric JSON type is not modelled. Such a use case would make `sorted()` raise in the Python report script.
