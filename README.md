# HyperGraphRAG research scripts: verified model of the scoring harness and the insert retry

This project models the two pieces of sequential logic in the HyperGraphRAG research scripts.

- **The LLM-as-judge evaluation harness** (`script_qualeval.py`). A pass of `batch_eval` pairs the questions with the two answer lists position by position. It asks a judge for a verdict on each triple and appends a record when the verdict parses. It then keeps only the records whose every entry has a readable `Winner` and that carry all five rubric keys (`Factuality`, `Comprehensiveness`, `Diversity`, `Empowerment`, `Overall Winner`). Each kept verdict adds `1/N` to the share of the answer it names, per key, where `N` is the number of kept records. The entry point runs a second pass with the answer sets swapped and averages the two passes crosswise.
- **The bounded retry of the indexer's insert** (`Step_1.py`, `insert_text`). The counter `retries` counts failed `insert` calls. Each failure logs a retry line and sleeps 10 seconds. The loop stops at the first success or after 10 failures, and a terminal message is logged exactly when the counter reached 10.

The files:

- `wrappers.dfy` (module `Wrappers`) holds `Option`.
- `scoring.dfy` (module `Scoring`) holds the data model and the functions that specify each stage: `Zip3`, `Judged`, `Kept`, `WinCount`, `Table`, `Retained` and `Averaged`. It also holds the lemmas about them.
- `qualeval.dfy` (module `QualEval`) holds the loops of the script as methods. Each method is proved equal to its specification function.
- `insertion.dfy` (module `Insertion`) holds the retry loop as a method. Its exit counter and event log are proved equal to `FinalRetries` and `Trace`, and the lemmas state the counts.

External collaborators become parameters:

- The judge is `Judge = Triple -> Option<Verdict>`. It stands for the chat-completion call followed by `json.loads`, and `None` means the text did not parse. As a function of the triple, it is assumed deterministic (see "## Left out").
- A verdict is a map from each key of the response object to the value of its `Winner` field. The value is `None` when `evaluation[key]["Winner"]` cannot be read.
- The indexer is `Indexer = nat -> bool`. It says whether attempt number `j` returns or raises.
- Sleeps and log lines are recorded as `Event`s.

Shares are exact reals: `Share(c, n) = c / n`, and 0 when `n = 0`.

Two facts about the scoring code:

- **Shares need not sum to 1.** A winner that is neither `"Answer 1"` nor `"Answer 2"` adds to neither share, so a key's shares sum to at most 1 (`Scoring.TableBounds`). They sum to exactly 1 only when every kept winner is one of the two labels (`Scoring.TableSumsToOne`).
- **No division by zero.** With no kept record the scoring loop body never runs, so nothing is divided and every share stays 0.0 (`Scoring.TableBounds`, last clause).

## Model

| member | source | states |
|---|---|---|
| `Scoring.Zip3` | script_qualeval.py:27 | The number of triples is the minimum of the three list lengths, and triple i is (queries[i], answers1[i], answers2[i]). |
| `QualEval.Collect` | script_qualeval.py:26-191 | The collection loop's results list equals `Judged(Zip3(...))`: one record per parsed verdict, in question order. |
| `Scoring.JudgedAppend` | script_qualeval.py:27-191 | The records of a concatenation of triples are the records of the first part followed by those of the second, so records follow question order. |
| `Scoring.UnparsedAddsNothing` | script_qualeval.py:187-191 | A triple whose verdict fails to parse adds no record, wherever it stands in the list. |
| `Scoring.JudgedMembership` | script_qualeval.py:187-191 | A record is in the results if and only if some triple's verdict parsed and the record is that triple with that verdict. |
| `QualEval.WinnersReadable` | script_qualeval.py:199-204 | The loop over the verdict's keys completes without raising if and only if every entry has a readable `Winner`. |
| `QualEval.KeepWellFormed` | script_qualeval.py:196-209 | The filter loop's output equals `Kept(results)`: it keeps the records with every `Winner` readable and all five keys present, and drops the rest. |
| `Scoring.KeptMembership` | script_qualeval.py:198-207 | A record is kept if and only if it was in the results and is well formed, so the filter adds no record. |
| `Scoring.KeptAppend` | script_qualeval.py:196-209 | Filtering a concatenation gives the concatenation of the filtered parts, so relative order is unchanged. |
| `Scoring.MalformedLeavesDenominator` | script_qualeval.py:205-215 | A record that lacks a key or a readable `Winner` is removed from the kept list entirely, so it does not count in the denominator N of any key. |
| `Scoring.WinCountsDisjoint` | script_qualeval.py:214-217 | For any key, the number of kept verdicts naming "Answer 1" plus the number naming "Answer 2" is at most N. |
| `Scoring.WinCountsExhaustive` | script_qualeval.py:214-217 | When every kept verdict names "Answer 1" or "Answer 2" for a key, the two counts add up to N. |
| `Scoring.WinCountUnanimous` | script_qualeval.py:214-215 | When every kept verdict names the same winner for a key, that winner's count is N. |
| `QualEval.AddVerdict` | script_qualeval.py:212-217 | One pass of the inner loop adds 1/N to the named answer's share of each key and changes nothing else. |
| `QualEval.Score` | script_qualeval.py:194-217 | Starting from the all-zero table, the scoring loop ends with each key's Answer1 equal to (number naming "Answer 1")/N and Answer2 equal to (number naming "Answer 2")/N. It requires exactly what keeps the code from raising: every entry has a readable `Winner`, and no key outside the five names "Answer 1" or "Answer 2" (other stray keys are skipped, as in the code). |
| `Scoring.TableBounds` | script_qualeval.py:194-217 | Both shares of every dimension lie in [0, 1] and add up to at most 1. With no kept record, every share stays 0.0. |
| `Scoring.TableSumsToOne` | script_qualeval.py:211-217 | With N > 0, and every kept winner for a key being "Answer 1" or "Answer 2", that key's shares add up to exactly 1. |
| `Scoring.TableUnanimous` | script_qualeval.py:211-217 | When every kept verdict names "Answer 1" for every dimension, each dimension scores Answer1 = 1 and Answer2 = 0. |
| `QualEval.BatchEval` | script_qualeval.py:26-217 | One pass returns `Table(Kept(Judged(Zip3(...))))`: the score table of the parsed, filtered records. |
| `QualEval.SwapAverage` | script_qualeval.py:244-248 | For each of the five keys, final Answer1 is (s1.Answer1 + s2.Answer2)/2 and final Answer2 is (s1.Answer2 + s2.Answer1)/2. |
| `Scoring.AveragedBounds` | script_qualeval.py:246-248 | Averaging keeps shares in [0, 1] with sum at most 1. If both passes' shares sum to 1, the averaged shares sum to 1. |
| `QualEval.Evaluate` | script_qualeval.py:241-248 | The entry point's table is the crosswise average of the pass in given order and the pass with the answer sets swapped. |
| `Scoring.SwappedPassMirrors` | script_qualeval.py:241-248 | For a judge without position bias, the swapped pass's Answer1 share equals the first pass's Answer2 share and vice versa, and the averaged table equals the first pass. |
| `Insertion.InsertText` | Step_1.py:12-23 | The loop ends with `retries == FinalRetries(insert)`, and its log is exactly `Trace(retries)`: one call, retry line and sleep per failure, then the successful call or the terminal message. The loop always terminates, and no exception of `insert` escapes. |
| `Insertion.RetriesFrom` | Step_1.py:14-21 | From any counter value r <= 10, the loop stops with a counter between r and 10. |
| `Insertion.FinalRetriesCharacterized` | Step_1.py:12-21 | The exit counter is the unique n <= 10 such that attempts 0..n-1 failed and, if n < 10, attempt n succeeded. |
| `Insertion.SucceedsAfterFailures` | Step_1.py:14-21 | If the first K < 10 attempts fail and attempt K+1 succeeds, `retries == K` at exit. |
| `Insertion.AlwaysFails` | Step_1.py:14-21 | If every attempt fails, `retries == 10` at exit. |
| `Insertion.FailedRoundsCounts` | Step_1.py:16-21 | n failed rounds hold n insert calls, n retry lines and n sleeps, and no terminal message. |
| `Insertion.TraceCounts` | Step_1.py:14-23 | `insert` is called K+1 times when the run ends in success with `retries == K`, and 10 times otherwise (never more than 10). There are `retries` retry lines and `retries` sleeps. The terminal message appears if and only if `retries == 10`. |
| `Insertion.GiveUpIffAllFailed` | Step_1.py:22-23 | The terminal failure message is logged if and only if all 10 attempts failed, so a success on the 10th attempt logs none. |

## Left out

- The chat-completion call, the prompt text, the response schema and `json.loads` are not modelled. Together they are the `Judge` oracle, which returns a parsed verdict or `None`.
- The chat call is outside the `try` that guards parsing, so a network or API exception ends `batch_eval` with an error instead of dropping the question. The model covers only runs in which every call returns.
- The `Judge` is a function of the triple, so the model assumes the judge is deterministic. Identical triples always get identical verdicts: a question repeated with the same two answers within a pass, and, in `QualEval.Evaluate`, a question whose two answers are equal, since the swapped triple is then the same triple. The real chat calls are made separately each time and can disagree. No proved property depends on this assumption.
- A response that parses to something other than a JSON object is not modelled, and neither is a `Winner` value that is not a string. A verdict is always a map from keys to an optional winner string.
- All file reads and writes are left out as I/O. This covers the query file, the answer files, `json.load`/`json.dump` of the results and scores, and the corpus file of `Step_1.py`. The results list written to `output_file_path` is therefore not returned by `QualEval.BatchEval`.
- The question extraction with `re.findall` is left out: the model takes the questions as a given sequence of strings. The `answers = [i["result"] for i in ...]` projections are left out the same way: the answer lists are given as strings.
- QualEval.Score: shares are exact reals, so the model does not capture the floating-point rounding of the repeated `+= 1.0/len(results)`. "Sums to 1" holds exactly in the model, not under IEEE arithmetic.
- QualEval.Score: a key outside the five whose `Winner` is `"Answer 1"` or `"Answer 2"` makes `answer_scores[key]` raise `KeyError` in the code. The response schema's `additionalProperties: False` excludes such keys. The model states the absence of such keys as a precondition (`NoStrayVote`) instead of modelling the crash. A stray key with any other winner is skipped without error, as in the code.
- Progress and error `print`s of the harness are left out, including the stale question index in the filter's error message. They affect only console text.
- Insertion.InsertText: the exception text printed in the retry line is not recorded (only the counter is). The model also assumes that every failure of `insert` is an `Exception` subclass, which the `except` catches. A `BaseException` such as `KeyboardInterrupt` would escape in the code.
- The indexer's internals and its concurrency settings are left out, because they are outside this code. So are the length of a sleep in real time (only the 10-second argument is recorded), the API-key environment setup, `argparse`, `tqdm` and the creation of the working directory.
