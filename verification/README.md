# Finance question-answering decision policy, in Dafny

This project models the core of a small retrieval-augmented finance chatbot.
A user question in English, Hindi or Hinglish (Hindi-English code-mixed) is
answered in one of five ways:

- refused when it looks like a folio-number lookup;
- "no similar question" when the similarity index returns nothing;
- the stored answer of the nearest corpus question when it is close enough,
  in the language of that stored question;
- refused when the domain classifier does not call the question finance-related;
- otherwise a generated answer, built from the retrieved neighbours.

The project also models the start-up ingestion that fills the similarity
index from the corpus.

Both pieces are pure functions. Every outside service is a plain input:

- the embedding service and the vector index become `hits`, the neighbours the
  index returned, nearest first;
- the two chat-completion calls become the classifier's reply string and the
  generator's reply string;
- the store's current size becomes `storedCount`.

Files and modules:

- `text.dfy` — `TextOps`: the Python string operations the policy uses.
  These are `str.isspace`/`strip`, lower- and upper-casing as character maps,
  the `\d` digit class, substring `in`, and `str.join`.
- `folio_guard.dfy` — `FolioGuard`: the sensitive-data guard. It covers
  `re.findall(r'\d+', …)` as the maximal digit runs, the keyword test, and the
  equivalence with "eight consecutive digits and `folio` or `फोलियो`".
- `corpus.dfy` — `Corpus`: language tags, corpus items, stored metadata and
  retrieved neighbours.
- `ingestion.dfy` — `Ingestion`: the entries added to the index at start-up.
- `decision.dfy` — `Decision`: `rag_answer` as `Answer`, with one lemma per
  stage of the policy and the link back to ingestion.

Three points where the code's behaviour in `f_app.py` is easy to misread:

- Refusals return score `0.0`, not an absent score. Only the HTTP layer turns a
  zero score into null.
- A variant is indexed when its question is non-blank after `strip()`, not
  merely non-empty.
- Threshold `1.0` matches every distance `d <= 0`, not only `d == 0`.

## Model

| member | source | states |
|---|---|---|
| TextOps.IsSpace | f_app.py:157 | Python's `str.isspace` for one character, the set `strip()` removes at lines 51 and 157; StripSpec states what `strip()` does with it |
| TextOps.IsDigit | f_app.py:100 | membership in `\d`, restricted to the digit blocks listed under "Left out"; DigitRuns and DigitRunsComplete state what `re.findall(r'\d+', …)` returns over it |
| TextOps.Strip | f_app.py:157 | Python's `strip()` with no argument; its result is never longer than its input, and it is characterised by StripSpec and StripOfUnique |
| TextOps.StripSpec | f_app.py:157 | `strip()` returns a middle slice of the input with only whitespace (Python's `isspace` set) outside it and none at its ends; it is empty exactly when the input is all whitespace |
| TextOps.StripOfUnique | f_app.py:157 | any two strings meeting the strip characterisation are equal, so the characterisation pins `strip()` down completely |
| TextOps.StripAtIsStrip | f_app.py:157 | any split of a string into surrounding whitespace and a middle that neither starts nor ends with whitespace gives the result of `strip()` |
| TextOps.Lower | f_app.py:102 | `str.lower()` as a character map; MentionsFolioIff states what it means for the keyword test |
| TextOps.Upper | f_app.py:157 | `str.upper()` as a character map; IsFinanceIff states what it means for the gate |
| TextOps.Contains | f_app.py:102 | Python's substring test `t in s`; characterised by ContainsIff |
| TextOps.ContainsIff | f_app.py:102 | Python's `t in s` holds exactly when `t` occurs in `s` at some index, the empty string included |
| TextOps.Join | f_app.py:171 | Python's `sep.join(parts)`; characterised by JoinContainsPart and ContextShape |
| TextOps.JoinContainsPart | f_app.py:171 | every part given to `"\n\n".join` appears verbatim in the joined text |
| FolioGuard.DigitRuns | f_app.py:100 | every string `re.findall(r'\d+', q)` yields is a non-empty run of digits of `q` whose neighbours are not digits |
| FolioGuard.DigitRunsComplete | f_app.py:100 | every maximal digit run of the question is among the strings `re.findall(r'\d+', q)` returns, so together with DigitRuns the returned strings are exactly the maximal runs |
| FolioGuard.LongRunIffWindow | f_app.py:100-102 | some extracted number has more than seven digits exactly when the question holds eight consecutive digits |
| FolioGuard.WindowGivesLongRun | f_app.py:100-102 | eight consecutive digits always lie inside one extracted number longer than seven digits |
| FolioGuard.MentionsFolio | f_app.py:102 | the four-keyword `any(...)` test; characterised by MentionsFolioIff |
| FolioGuard.GuardFires | f_app.py:100-103 | the guard's loop over the extracted numbers; characterised by GuardFiresIff |
| FolioGuard.MentionsFolioIff | f_app.py:99-102 | the four-keyword `any(...)` test holds exactly when the lower-cased question contains "folio" or "फोलियो" |
| FolioGuard.GuardFiresIff | f_app.py:99-103 | the guard fires exactly when the question has eight consecutive digits and its lower-cased text contains "folio" or "फोलियो" |
| FolioGuard.PortfolioIsRefused | f_app.py:99-103 | the keyword test is by substring, so "PORTFOLIO 12345678" trips the guard |
| Corpus.ParseLang | f_app.py:130-137 | a tag is recognised only as the register whose tag it is, and a tag equal to none of "english", "hindi", "hinglish" is recognised as nothing |
| Corpus.ParseLangTag | f_app.py:130-137 | the tag ingestion stores for each register is recognised as that register |
| Ingestion.ItemEntries | f_app.py:46-63 | one item yields at most three entries: exactly one per variant whose question is non-blank after stripping, in the order english, hinglish, hindi |
| Ingestion.Indexed | f_app.py:51 | the test `if q_text.strip():`; PlanCoversCorpus states that a variant is planned exactly when it holds |
| Ingestion.EntryFor | f_app.py:53-61 | the `collection.add` call for one variant; PlannedEntryShape states its key, document and metadata |
| Ingestion.CorpusEntries | f_app.py:45-63 | the outer loop over the items: at most three times as many entries as items, and an entry occurs exactly when it is the entry of a non-blank variant of some item; PlanConcat and PlanSingle, about `Plan(0, items)`, which is this function, fix the per-item count and the order |
| Ingestion.Plan | f_app.py:44-63 | a non-empty store gets nothing; an empty store gets an entry exactly for every non-blank variant of every item, and at most three times as many entries as items; PlanConcat and PlanSingle fix the order and the copy count |
| Ingestion.PlanConcat | f_app.py:45-63 | with an empty store, planning a corpus split in two gives the plan of the first part followed by the plan of the second, so the plan follows corpus order |
| Ingestion.PlanSingle | f_app.py:45-63 | with an empty store, a one-item corpus is planned as that item's entries; with PlanConcat and ItemEntries this fixes the whole plan: each item's non-blank variants once each, english, hinglish, hindi, items in corpus order |
| Ingestion.PlannedEntryShape | f_app.py:50-61 | every planned entry is keyed `{id}_{lang}`, stores a non-blank question, carries all three answers of its item, and has a recognised language tag |
| Ingestion.PlanCoversCorpus | f_app.py:50-52 | with an empty store, the entry for a variant is planned exactly when its question is non-blank |
| Decision.IsMatch | f_app.py:129 | the comparison `top_distance <= (1 - similarity_threshold)`; ThresholdRule states how it decides a stored answer |
| Decision.Normalize | f_app.py:157 | the classifier reply after `strip().upper()`; characterised by StripSpec and IsFinanceIff |
| Decision.IsFinance | f_app.py:157-160 | the gate's comparison with "YES"; characterised by IsFinanceIff |
| Decision.IsFinanceIff | f_app.py:157-160 | the gate passes exactly when the stripped reply is three characters: y or Y, e or E, and s, S or U+017F |
| Decision.PaddedYesPasses | f_app.py:157-160 | the classifier reply " yes\n" passes the gate |
| Decision.PunctuatedYesFails | f_app.py:157-161 | the classifier reply "YES." fails the gate |
| Decision.EmptyReplyFails | f_app.py:157-161 | an empty classifier reply fails the gate |
| Decision.Answer | f_app.py:97-188 | the three refusals score 0.0; a stored or generated answer scores one minus the nearest distance; a stored answer is only given within the threshold; a generated reply is the generator's text verbatim |
| Decision.AfterGuard | f_app.py:116-188 | the policy once the guard has passed; it never gives the folio refusal, and the stage lemmas below state each branch |
| Decision.GuardFirst | f_app.py:99-106 | on a question meeting the guard condition the reply is the fixed folio refusal with score 0.0, whatever the index, classifier and generator return |
| Decision.GuardPasses | f_app.py:99-103 | on any other question the guard does not refuse |
| Decision.EmptyRetrieval | f_app.py:116-117 | with no neighbours the reply is the fixed "No similar question found in the dataset." with score 0.0, whatever the classifier and generator return |
| Decision.ThresholdRule | f_app.py:119-137 | with neighbours, the reply is a stored answer exactly when the nearest distance is at most `1 - threshold` and its tag is "english", "hindi" or "hinglish" |
| Decision.ThresholdMonotone | f_app.py:119-129 | a stored answer given under some threshold is given unchanged under every lower threshold |
| Decision.ThresholdOne | f_app.py:119-129 | with threshold 1.0 a stored answer is only given for a nearest distance of at most zero |
| Decision.AnswerSelection | f_app.py:129-137 | on a match with a known tag the reply is that neighbour's answer in the tagged language, scored `1 - d` |
| Decision.UnknownTagFallsThrough | f_app.py:129-139 | a nearest neighbour with an unknown tag never yields a stored answer; the request goes on to the domain gate |
| Decision.DomainGate | f_app.py:157-161 | without a match, the reply is the fixed finance-only refusal with score 0.0 exactly when the classifier reply is not affirmative, whatever the generator returns |
| Decision.GeneratedFallback | f_app.py:163-188 | without a match and with an affirmative classifier, the reply is the generator's text verbatim, with the context of all neighbours and score `1 - d` of the nearest one |
| Decision.Block | f_app.py:169 | one neighbour's `Q:` / `A (English):` / `A (Hindi):` block; ContextIgnoresHinglish states what it reads |
| Decision.Blocks | f_app.py:165-169 | the `contexts` loop: as many blocks as neighbours, block `i` being neighbour `i`'s block; ContextHoldsEveryBlock and ContextShape state what the joined context holds |
| Decision.Context | f_app.py:165-171 | the blocks of all neighbours joined by a blank line; characterised by ContextHoldsEveryBlock and ContextShape |
| Decision.ContextHoldsEveryBlock | f_app.py:165-171 | the generator's context contains every neighbour's `Q:` / `A (English):` / `A (Hindi):` block verbatim |
| Decision.ContextShape | f_app.py:165-171 | with one neighbour the context is its block; with two (the index's limit) it is the two blocks separated by a blank line, in retrieval order |
| Decision.ContextIgnoresHinglish | f_app.py:165-171 | the context depends only on the questions and their English and Hindi answers, never on the Hinglish answers, tags or distances |
| Decision.IngestedQuestionAnswered | f_app.py:129-137 | a planned entry retrieved first within the threshold is answered with its own item's answer in the language of the stored question variant, as ingestion wrote it at lines 50-61 |
| Decision.FolioScenario | f_app.py:99-103 | "What is folio number 12345678?" gets the folio refusal with score 0.0 |
| Decision.EnglishMatchScenario | f_app.py:129-133 | an English neighbour at distance 0.1 under the default threshold 0.7 yields its English answer with score 0.9 |
| Decision.NoFails | f_app.py:157-161 | the classifier reply "NO" fails the gate |
| Decision.YesPasses | f_app.py:157-160 | the classifier reply "YES" passes the gate |
| Decision.DistantRefusedScenario | f_app.py:119-161 | a neighbour at distance 0.9 under threshold 0.7 is not a match, and a classifier reply "NO" then leads to the finance-only refusal with score 0.0 |
| Decision.DistantGeneratedScenario | f_app.py:119-188 | the same neighbour with a classifier reply "YES" leads to the generator's text, with the context of all neighbours and score 0.1 |

## Left out

- Embedding, similarity search and chat completion: the model takes their results as inputs. This covers the embedding call and the Chroma persistent client with its cosine index, `count`, `add` and `query` calls. It also covers both OpenAI chat-completion calls, including their prompt wording.
- The limit of two neighbours (`n_results=2`) is the index's promise and is not enforced on `hits`. `Decision.ContextShape` states the two-neighbour case.
- Failures of the outside services (network, authentication, quota) and the request error they become are not modelled.
- A chat-completion message whose `content` is None is not modelled: both replies are strings. For the classifier, `strip()` on None raises an AttributeError at line 157. For the generator, None would be returned as the answer at line 188.
- FolioGuard.DigitRuns: the order of the returned numbers is not stated. DigitRuns and DigitRunsComplete together say the returned strings are exactly the maximal digit runs, and the guard only asks whether any of them is long.
- Metadata is a record with all four fields. A stored entry missing a key, which would raise a `KeyError`, cannot arise from this ingestion and is not modelled.
- Item identifiers are strings. A numeric `id` in the JSON would be formatted by the f-string; that formatting is not modelled.
- Lower-casing and upper-casing are character maps: ASCII letters, plus U+017F for upper-casing. Other Unicode case mappings are not modelled. This includes length-changing ones such as `ß`→`SS` and `İ`→`i̇`. None of them can create or destroy a "folio" or "YES" match.
- The digit class covers ASCII, Arabic-Indic, Extended Arabic-Indic, Devanagari, Bengali and fullwidth digits. Other Unicode decimal-digit blocks are not modelled.
- Distances, thresholds and scores are exact reals. Floating-point rounding of `1 - threshold` and `1 - d` is not modelled.
- A null `similarity_threshold` from the request model would make the subtraction fail. That path is not modelled.
- Transport is not modelled: the FastAPI app, the lifespan hook, the endpoints and the Pydantic models. This covers the empty-question check, which is re-wrapped as a server error. It also covers `health_check` passing a field its response model does not declare, and the rounding of the score to four places with a zero score mapped to null.
- JSON loading, environment loading, global handles and `print` logging are not modelled.
- Concurrent start-up against a shared store, which could insert twice, is not modelled: the planner is a single call.
