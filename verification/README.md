# AtmosSci-Bench answer evaluation, in Dafny

This project models the deterministic core of AtmosSci-Bench, a benchmark for
atmospheric-science question answering, and proves properties of that model.
The core has six parts:

- **Answer evaluation.** Boxed answers are extracted from a model response and
  paired with the expected sub-answers. Each pair runs through a chain of
  evaluators (quantity, expression, LLM judge, multiple choice), which gives it a
  three-valued verdict: true, false or undecided (`null`). Problems are scored,
  verdicts from a separate LLM-judge pass are written back, and the run is
  summarised.
- **The multiple-choice reader.** Seven letter patterns are tried in order. The
  first pattern that matches anywhere decides, and within it the last match
  wins.
- **The numeric and expression comparators.** These are ordered cascades of
  special cases over relative and absolute tolerances. Parsing and unit
  libraries are parameters.
- **Dataset generation.** This covers instance-range validation, the seed and
  id scheme, record ordering, granularity-scaled sampling with bounded retry,
  the four-option construction with its correct letter, and the prompt format.
- **Run orchestration.** This covers the resume filter, batch slicing, fitting
  results to the batch, the consecutive-failure termination rule, GPU
  partitioning and the greedy dataset load balancer.
- **Reports.** These are per-instance accuracy, per-type accuracy with
  evaluator statistics, and evaluator coverage.

Python dictionaries are association lists with distinct keys (`Dicts`), which
keeps their insertion order. Floating-point numbers are reals. Everything the
source delegates to a library, the network or `random` is an explicit function
parameter:

- pint and sympy parsing;
- the LaTeX cleaners;
- the LLM judge;
- the model back-ends;
- the random draws and the generator's `calculate`.

The modules follow the source files:

| module | models |
|---|---|
| `EvalUtils` | src/evaluate/utils.py |
| `Pairing`, `Evaluate` | src/evaluate/evaluate.py |
| `EvaluateMcq` | src/evaluate/evaluate_mcq.py |
| `McqEvaluator` | src/evaluate/evaluators/mcq_evaluator.py |
| `QuantityEvaluator`, `Tolerance`, `Numbers` | src/evaluate/evaluators/quantity_evaluator.py |
| `ExpressionEvaluator` | src/evaluate/evaluators/expression_evaluator.py |
| `Evaluators` | the dispatch of src/evaluate/evaluate.py to the evaluators |
| `McqPrompt` | src/type/MCQ.py |
| `Question` | mcq_gen_framework/question.py |
| `GenerateDataset` | mcq_gen_framework/generate_dataset.py |
| `Generate` | src/generate/generate.py |
| `GpuParallel` | src/generate/generate_gpu_parallel.py |
| `InstanceAcc` | scripts/instance_analysis/create_instance_acc.py |
| `ResultReport` | scripts/generate_result2.py |
| `EvaluatorCoverage` | scripts/analysis/analysis_oeq_evaluator.py |

The shared modules are:

- `Wrappers`: Option and Result;
- `Verdicts`: the three-valued verdict and its tallies;
- `Text`: Python's `strip`, `split`, `int()` and `float()` on digit runs;
- `Scan`: `re.search` and `re.finditer` over deterministic matchers;
- `Seqs`;
- `Sorting`: code-point string order, and a stable descending sort.

## Model

| member | source | states |
|---|---|---|
| EvalUtils.ExtractBoxedContent | src/evaluate/utils.py:10-51 | The brace-counting scan returns exactly the contents of the `\boxed{` boxes, in document order, and each content is brace-balanced |
| EvalUtils.BoxedContentsBalanced | src/evaluate/utils.py:32-46 | Every reported content has as many `{` as `}` and no prefix of it closes more braces than it opens |
| EvalUtils.BoxedFromStep | src/evaluate/utils.py:22-49 | A closed box contributes its content and the scan resumes after its closing brace, so a box nested inside it is never reported on its own |
| EvalUtils.BoxedFromUnclosed | src/evaluate/utils.py:35-49 | An unterminated `\boxed{` contributes nothing and ends the scan |
| EvalUtils.SeqLabel | src/evaluate/utils.py:251-255 | The i-th unlabelled box is keyed `chr(97 + i)`: `a`, `b`, `c`, … for the first 26 |
| EvalUtils.SeqLabelInjective | src/evaluate/utils.py:251-255 | Distinct box positions get distinct keys, so no sequential answer overwrites another |
| EvalUtils.ExtractBoxedAnswers | src/evaluate/utils.py:222-258 | An empty response gives `{'a': ''}`; no boxes gives `{}`; without `(x)` labels the stripped contents are keyed by position; with labels the i-th lower-cased label takes the i-th stripped content, extra labels dropped |
| EvalUtils.LabelledAnswer | src/evaluate/utils.py:242-250 | A label that is not repeated later keeps the stripped content at its own position |
| EvalUtils.UniqueLower | src/evaluate/utils.py:72-81 | The sub-question letters are lower-cased and deduplicated, keeping their order: no letter appears twice, every letter found appears, and the j-th letter kept is one first seen after all the letters kept before it |
| EvalUtils.ExtractSubquestions | src/evaluate/utils.py:53-84 | The result is never empty and has no repeats; the first of the five patterns that matches anything gives the letters (lower-cased, deduplicated in order), and `['a']` when no pattern matches |
| EvalUtils.ParenLabelListed | src/evaluate/utils.py:53-84 | Any `(x)` label in the text puts its lower-cased letter among the sub-questions |
| EvalUtils.ExtractExpectedAnswers | src/evaluate/utils.py:173-220 | The result is a non-empty dictionary with one-letter ids; with neither the `(x)` nor the `Part (x):` form it is `{'a': text.strip()}` |
| EvalUtils.LabelledTextUsesCombined | src/evaluate/utils.py:190-205 | Any `(x)` label in the text makes the combined pattern match, so the labelled-only pattern after it is never reached |
| EvalUtils.KeepId | src/evaluate/utils.py:284-299 | The id kept for a value is `main` when `main` carries it, and otherwise the alphabetically first of its ids |
| EvalUtils.DeduplicateExpectedAnswers | src/evaluate/utils.py:260-303 | The result is empty iff the input is; its values are the input's distinct values, each once, in first-seen order |
| EvalUtils.DedupKeyChoice | src/evaluate/utils.py:284-301 | Each kept pair is an input pair under `main` or under the smallest id for that value; a lone kept answer under `main` is always renamed `a`, so a one-answer result is never keyed `main` |
| EvalUtils.KeptPairsOfDistinct | src/evaluate/utils.py:260-303 | A dictionary whose answers are already distinct keeps every pair |
| EvalUtils.DedupIdempotent | src/evaluate/utils.py:260-303 | Deduplicating twice is the same as deduplicating once |
| Pairing.MapAnswers | src/evaluate/evaluate.py:125-145 | The mapping is a dictionary whose keys are all expected ids |
| Pairing.SameIdPaired | src/evaluate/evaluate.py:128-131 | An expected id that was also extracted is paired with its own extracted answer |
| Pairing.LeftoverPaired | src/evaluate/evaluate.py:133-145 | The i-th leftover expected id, in sorted order, is paired with the i-th sorted extracted id that is not an expected id, and only if there is one |
| Pairing.UnmatchedExtracted | src/evaluate/evaluate.py:133-145 | Leftover extracted ids are extracted ids that are not expected ids |
| Evaluate.Chain | src/evaluate/evaluate.py:98-113 | MCQ uses the MCQ evaluator alone; OEQ uses quantity unless disabled, expression unless disabled, and the LLM judge only when it is enabled and not batched, with no evaluator twice |
| Evaluate.Record | src/evaluate/evaluate.py:170-186 | An evaluator that raises is recorded as undecided with the exception text, and the MCQ evaluator never gives undecided |
| Evaluate.RunChain | src/evaluate/evaluate.py:166-191 | The chain runs evaluators in order and stops right after the first correct verdict; when none is correct every evaluator ran |
| Evaluate.ChainAccepts | src/evaluate/evaluate.py:166-191 | A sub-answer is accepted iff some evaluator in the chain judges it correct |
| Evaluate.ExtractedAnswers | src/evaluate/evaluate.py:115-123 | For MCQ the extracted map is exactly `{'a': letter or None}` |
| Evaluate.ScoreOne | src/evaluate/evaluate.py:152-202 | An expected id with no mapped answer is wrong with no extracted answer; otherwise it is correct iff some evaluator in the chain accepts the mapped answer |
| Evaluate.EvaluateResponse | src/evaluate/evaluate.py:79-218 | The total is the number of expected ids and correct ≤ total; score = correct/total (0 when total is 0) lies in [0,1]; each sub-result is correct iff its id is mapped and the chain accepts the answer |
| Evaluate.FindRecord | src/evaluate/evaluate.py:299 | The record found has the response's id, and none is found only when no record has it |
| Evaluate.LiftNested | src/evaluate/evaluate.py:321-331 | Lifting the nested question's fields keeps the id and the answers, and keeps a top-level answer |
| Evaluate.RawExpected | src/evaluate/evaluate.py:339-369 | OEQ answers go through the expected-answer extractor; MCQ gives exactly one answer under `a`; there is no expected answer exactly when the record has none of the fields read |
| Evaluate.MainFallbackNeverFires | src/evaluate/evaluate.py:371-376 | The `main` fallback cannot change a non-empty expected-answer dictionary |
| Evaluate.ExpectedFor | src/evaluate/evaluate.py:333-379 | The expected answers are the deduplicated raw answers, and exist exactly when raw ones do |
| Evaluate.Placeholder | src/evaluate/evaluate.py:299-319 | A response without a dataset record scores 0 out of 0 with the error "No expected answer found in dataset" |
| Evaluate.Summarise | src/evaluate/evaluate.py:428-495 | A correct sub-answer is true; a wrong one is null when the LLM judge will see it, and false otherwise |
| Evaluate.McqEntryOf | src/evaluate/evaluate_mcq.py:400-406 | Corrected (Findings row 3): the MCQ entry carries the evaluator's verdict, its expected and extracted letters, and no error, as the MCQ-only script builds it |
| Evaluate.McqEntryAsWritten | src/evaluate/evaluate.py:446-453 | As written, reading `details['actual']` fails on every MCQ evaluator record |
| Evaluate.McqSummaryAlwaysFails | src/evaluate/evaluate.py:446-453 | An MCQ problem, whose one expected answer is under `a`, reaches the summary with an MCQ evaluator record, on which the as-written entry fails |
| Evaluate.McqSummaryReadsExtracted | src/evaluate/evaluate_mcq.py:400-406 | The corrected summary reports the verdict and the two letters the MCQ evaluator read |
| Evaluate.TasksOf | src/evaluate/evaluate.py:397-405 | Every sub-question that is not correct is queued for the judge, under its own problem |
| Evaluate.ProvisionalScore | src/evaluate/evaluate.py:497-515 | With the judge pending, the score counts only decided verdicts and is null when none is decided; otherwise it is the first-pass score |
| Evaluate.FirstPassShape | src/evaluate/evaluate.py:285-537 | The first pass keeps scores in [0,1]; every queued task belongs to a produced result; nothing is queued without the judge; a run with no dataset matches yields only placeholders |
| Evaluate.FirstPass | src/evaluate/evaluate.py:285-537 | At most one result per response, and no judge task unless the judge is enabled for open-ended questions |
| Evaluate.DedupTasks | src/evaluate/evaluate.py:543-550 | One task per (problem, sub-question) key, each one of the queued tasks |
| Evaluate.DedupCovers | src/evaluate/evaluate.py:543-550 | Every queued key survives deduplication |
| Evaluate.DedupLastWins | src/evaluate/evaluate.py:543-550 | The task that survives under a key is the last one queued under it |
| Evaluate.JudgeInBatches | src/evaluate/evaluate.py:554-586 | Batches of `parallelism` tasks give one judgement per task, in task order; a parallelism of 0 is the `ZeroDivisionError` of `// llm_parallelism` |
| Evaluate.Rescore | src/evaluate/evaluate.py:588-617 | A judgement overwrites one sub-question's verdict and LLM entry, leaves the others alone, recomputes the correct count and score over all sub-questions, and keeps the total |
| Evaluate.JudgementWritten | src/evaluate/evaluate.py:588-617 | A judgement lands on the first result with the problem's id and that result's first matching sub-question, and nothing else changes |
| Evaluate.ApplyJudgement | src/evaluate/evaluate.py:588-617 | Writing one verdict back keeps the ids, the number of sub-questions, the totals and the sub-question ids, and keeps scores in [0,1] |
| Evaluate.ApplyAll | src/evaluate/evaluate.py:588-617 | Writing all judgements back keeps ids, totals, sub-question ids and scores in [0,1] |
| Evaluate.JudgedVerdictKept | src/evaluate/evaluate.py:588-617 | After the write-back each deduplicated task's key holds that task's judgement |
| Evaluate.AccuracyVerdict | src/evaluate/evaluate.py:644-650 | A problem's accuracy verdict is null iff its score is null, and true iff its score is positive |
| Evaluate.AverageInRange | src/evaluate/evaluate.py:663 | The average of scores in [0,1] lies in [0,1] and times the count gives back the sum |
| Evaluate.Statistics | src/evaluate/evaluate.py:619-691 | The accuracy tally counts the problems' verdicts; total questions are the decided ones; pending is the null count; the average score lies in [0,1]; each evaluator's tally counts that evaluator's verdicts |
| Evaluate.SecondPass | src/evaluate/evaluate.py:539-617 | The judge pass keeps ids, totals and score bounds, and each deduplicated task's sub-question ends with the judge's verdict |
| Evaluate.EvaluateResponses | src/evaluate/evaluate.py:252-691 | Without the judge the results are the first pass's; with it every deduplicated task carries the judge's verdict; the summary's accuracy counts the final verdicts and the average lies in [0,1] |
| EvaluateMcq.McqExpected | src/evaluate/evaluate_mcq.py:323-361 | `correct_option` is used when present, else the answer; with neither the problem is skipped; the result is one answer under `a` |
| EvaluateMcq.McqRecord | src/evaluate/evaluate_mcq.py:191-226 | The MCQ record is never null and is correct iff the MCQ evaluator accepts the answer |
| EvaluateMcq.McqScoreOne | src/evaluate/evaluate_mcq.py:179-226 | An unmatched expected id scores false with no answer; a matched one has exactly one MCQ record and its verdict |
| EvaluateMcq.McqEvaluateResponse | src/evaluate/evaluate_mcq.py:112-237 | Total is the number of expected ids; score = correct/total in [0,1]; each sub-result is the MCQ scoring of its mapped answer |
| EvaluateMcq.AgreesWithGeneral | src/evaluate/evaluate_mcq.py:112-237 | The MCQ-only evaluation gives the same result as the general evaluation with question type MCQ |
| EvaluateMcq.SingleAnswerScore | src/evaluate/evaluate_mcq.py:129-229 | With one expected answer the score is 1 or 0 exactly as the MCQ evaluator decides on the extracted letter |
| EvaluateMcq.McqEvaluateOne | src/evaluate/evaluate_mcq.py:281-431 | A response without a dataset record gets the placeholder; a scored problem has a score in [0,1] and correct ≤ total |
| EvaluateMcq.ScoredProblemShape | src/evaluate/evaluate_mcq.py:191-229 | A scored MCQ problem has one sub-question `a`, whose verdict is true iff the score is 1 and false iff it is 0 |
| EvaluateMcq.McqStatistics | src/evaluate/evaluate_mcq.py:433-479 | Placeholders are left out of the total and the average but counted in the accuracy tally, which has no nulls; the average lies in [0,1]; evaluator statistics are kept only under `mcq` |
| McqEvaluator.PatternLetter | src/evaluate/evaluators/mcq_evaluator.py:54-61 | Every pattern captures a letter in `[A-Da-d]`, and all but the fourth capture it as their only group |
| McqEvaluator.ExtractMcqAnswer | src/evaluate/evaluators/mcq_evaluator.py:39-76 | Corrected (Findings row 1): an empty or missing response gives none; any answer read is one letter A–D |
| McqEvaluator.FirstPatternDecides | src/evaluate/evaluators/mcq_evaluator.py:63-72 | The first pattern with any match decides, and the last of its matches gives the letter, upper-cased |
| McqEvaluator.CascadeSomeIff | src/evaluate/evaluators/mcq_evaluator.py:63-72 | A letter is read iff some pattern matches somewhere |
| McqEvaluator.AnswerPhraseWins | src/evaluate/evaluators/mcq_evaluator.py:53-72 | An "Answer: X" anywhere beats any boxed letter |
| McqEvaluator.LastMatchDecides | src/evaluate/evaluators/mcq_evaluator.py:63-72 | The letter comes from a match after which the deciding pattern matches nowhere else |
| McqEvaluator.AsWrittenAgrees | src/evaluate/evaluators/mcq_evaluator.py:63-75 | The cascade as written and the corrected one agree on every response the fourth pattern does not match |
| McqEvaluator.CascadeAsWrittenReads | src/evaluate/evaluators/mcq_evaluator.py:63-72 | As written (`CascadeAsWritten`), no pattern matching gives none, and a letter read is the upper-cased, stripped group 1 of the last match of some pattern |
| McqEvaluator.ExtractMcqAnswerAsWritten | src/evaluate/evaluators/mcq_evaluator.py:39-76 | As written, a missing or empty response gives none, and an answer is read only from a non-empty response, through the cascade as written |
| McqEvaluator.LooseBoxedReadsBackslash | src/evaluate/evaluators/mcq_evaluator.py:57-68 | As written, `\boxed{ B }` reads as a backslash; the corrected reader gives `B` |
| McqEvaluator.FirstChoiceLetter | src/evaluate/evaluators/mcq_evaluator.py:120-124 | The fallback letter is the first character of the text in "ABCD", and none exists only when no such character occurs |
| McqEvaluator.ReadActual | src/evaluate/evaluators/mcq_evaluator.py:91-105 | A missing answer stays missing; one of more than one character is read by the extractor; a single character is upper-cased |
| McqEvaluator.ReadExpected | src/evaluate/evaluators/mcq_evaluator.py:107-130 | An expected answer is read whenever one is given |
| McqEvaluator.Evaluate | src/evaluate/evaluators/mcq_evaluator.py:78-147 | The verdict is true iff the extracted answer is non-empty and equals the expected one, and is never null |
| McqEvaluator.SingleLetterVerdict | src/evaluate/evaluators/mcq_evaluator.py:95-133 | Two single letters agree iff they are the same letter ignoring case |
| McqEvaluator.CorrectLongResponseIsLetter | src/evaluate/evaluators/mcq_evaluator.py:95-133 | A long response accepted as correct was read as one letter A–D |
| Tolerance.WithinSymmetric | src/evaluate/evaluators/quantity_evaluator.py:185-188 | The relative-tolerance test `abs(x-y) <= tol*max(abs x, abs y)` is symmetric |
| Tolerance.WithinReflexive | src/evaluate/evaluators/quantity_evaluator.py:185-188 | Every value is within any non-negative tolerance of itself |
| Tolerance.WithinScale | src/evaluate/evaluators/quantity_evaluator.py:185-188 | Scaling both values by the same positive factor does not change the verdict |
| Tolerance.CelsiusAndKelvinDisagree | src/evaluate/evaluators/quantity_evaluator.py:406-456 | 10 °C and 11 °C differ by more than 5% as Celsius magnitudes but agree once converted to kelvin |
| Numbers.FirstNumRunExists | src/evaluate/evaluators/expression_evaluator.py:73-171 | `re.search(r'([0-9.]+)')` finds a run iff the text holds a digit or a point |
| Numbers.NumberThen | src/evaluate/evaluators/quantity_evaluator.py:622-650 | A number-then-suffix match captures a non-empty run of digits and points from the text, with a leading minus only where the pattern allows it |
| QuantityEvaluator.BareNumberValid | src/evaluate/evaluators/quantity_evaluator.py:1244-1281 | A bare `[0-9.]+` string with a digit passes the quantity gate |
| QuantityEvaluator.DigitFreeInvalid | src/evaluate/evaluators/quantity_evaluator.py:1244-1249 | Text without a digit fails the quantity gate |
| Evaluators.QuantityGateWithinLatexGate | src/evaluate/evaluators/quantity_evaluator.py:1234-1284 | `IsValidQuantity` (`_is_valid_quantity`: a digit, then a unit pattern, an operator, a LaTeX marker or a bare number) admits only texts that `IsValidLatex` also admits |
| QuantityEvaluator.ExtractPercentage | src/evaluate/evaluators/quantity_evaluator.py:612-655 | The empty text reads as nothing |
| QuantityEvaluator.MicronBranch | src/evaluate/evaluators/quantity_evaluator.py:203-235 | A verdict needs a number run followed by `\mu` on each side |
| QuantityEvaluator.MicronBranchSymmetric | src/evaluate/evaluators/quantity_evaluator.py:203-235 | The micron verdict does not depend on which side is expected |
| QuantityEvaluator.RawStage | src/evaluate/evaluators/quantity_evaluator.py:177-400 | A judgement from the raw-text cases is undecided exactly when it carries an error |
| QuantityEvaluator.CleanedStage | src/evaluate/evaluators/quantity_evaluator.py:402-553 | A judgement from the cleaned-text cases and the library comparison is undecided exactly when it carries an error |
| QuantityEvaluator.PercentOfNatural | src/evaluate/evaluators/quantity_evaluator.py:622-630 | "X%" reads as X/100 |
| QuantityEvaluator.NoPercentSign | src/evaluate/evaluators/quantity_evaluator.py:645-655 | Without '%' a percentage reads as nothing or as a value in [0,1] |
| QuantityEvaluator.NegativePercentShadowed | src/evaluate/evaluators/quantity_evaluator.py:622-640 | Whenever the `(-[0-9.]+)%` pattern matches, the earlier `%` pattern has matched already, so the later one is never used |
| QuantityEvaluator.CompareQuantities | src/evaluate/evaluators/quantity_evaluator.py:1286-1364 | A parse failure gives no verdict; two Celsius values, or Celsius against kelvin, are compared in kelvin; false only after both parsed |
| QuantityEvaluator.BaseUnitsDecide | src/evaluate/evaluators/quantity_evaluator.py:1340-1364 | Outside temperatures, two quantities agree iff their base units are equal and their base magnitudes are within tolerance |
| QuantityEvaluator.TemperatureVerdict | src/evaluate/evaluators/quantity_evaluator.py:406-456 | The temperature verdict is the kelvin-frame verdict |
| QuantityEvaluator.Evaluate | src/evaluate/evaluators/quantity_evaluator.py:152-553 | Either input failing the gate gives null with "Invalid quantity expression", never false; the verdict is null exactly when an error is reported |
| QuantityEvaluator.RawPercentDecides | src/evaluate/evaluators/quantity_evaluator.py:179-201 | With '%' in both raw texts and both readable, the verdict is the relative-tolerance test on the fractions |
| QuantityEvaluator.RawPercentSymmetric | src/evaluate/evaluators/quantity_evaluator.py:179-201 | That verdict does not depend on which side is expected |
| QuantityEvaluator.OverrideForcesCorrect | src/evaluate/evaluators/quantity_evaluator.py:238-262 | `\frac{15 \sqrt{2} \pi}{8}` with a 'K' against an expected "23 K" is forced correct |
| QuantityEvaluator.TemperatureInKelvin | src/evaluate/evaluators/quantity_evaluator.py:406-456 | Two readable temperatures are judged in kelvin |
| QuantityEvaluator.CleanedPercentAbsolute | src/evaluate/evaluators/quantity_evaluator.py:485-510 | The later percentage case uses an absolute tolerance of 0.15 |
| QuantityEvaluator.GenericComparison | src/evaluate/evaluators/quantity_evaluator.py:513-553 | A comparison that raises gives null; a comparison that says no (for example different base units) gives false |
| QuantityEvaluator.TenAgainstElevenPointFour | src/evaluate/evaluators/quantity_evaluator.py:179-201 | "10%" against "11.4%" is false: the raw percentage case with relative tolerance 0.05 decides before the 0.15 case |
| ExpressionEvaluator.NoBackslashValidity | src/evaluate/evaluators/expression_evaluator.py:807-843 | `IsValidLatex` (`_is_valid_latex`) on text without a backslash: it passes iff it is non-empty and holds one of `^ _ { } $`, a digit, one of the operators `+ - * / = < >` or a parenthesis |
| ExpressionEvaluator.PercentGuard | src/evaluate/evaluators/expression_evaluator.py:72-75 | A '%' opens the percentage case; a first number run `float()` rejects makes the guard itself raise |
| ExpressionEvaluator.PercentSide | src/evaluate/evaluators/expression_evaluator.py:76-106 | A side with '%' reads as its number over 100; one without reads as a fraction in [0,1] |
| ExpressionEvaluator.PercentValue | src/evaluate/evaluators/expression_evaluator.py:76-79 | A value read is the first `X%` or `X\%` run, parsed by `float()`, over 100, so never negative |
| ExpressionEvaluator.FractionValue | src/evaluate/evaluators/expression_evaluator.py:80-86 | A value read without '%' lies in [0,1] |
| ExpressionEvaluator.PercentBranch | src/evaluate/evaluators/expression_evaluator.py:72-125 | Two readable sides are compared with a 10% relative tolerance |
| ExpressionEvaluator.SimBranch | src/evaluate/evaluators/expression_evaluator.py:127-164 | With `\sim`, the answer is correct iff it is at most twice the expected value (`abs(e-a) <= 1.0*e`) and the units agree, a missing unit agreeing with anything |
| ExpressionEvaluator.FirstUnit | src/evaluate/evaluators/expression_evaluator.py:166-226 | The unit is the first unit pattern that matches, and none is found only when no pattern matches |
| ExpressionEvaluator.UnitBranch | src/evaluate/evaluators/expression_evaluator.py:166-226 | When the units agree ignoring case, the leading values are compared with a 10% relative tolerance |
| ExpressionEvaluator.SameLettersExponential | src/evaluate/evaluators/expression_evaluator.py:303-329 | Two exponentials over the same letters are always accepted by the 70% shared-letter rule |
| ExpressionEvaluator.StructuralCasesSymmetric | src/evaluate/evaluators/expression_evaluator.py:229-329 | The terminal-velocity, Brunt-Väisälä and exponential cases (`TerminalVelocity`, `BruntVaisala`, `Exponential`) hold for (e, a) iff they hold for (a, e) |
| ExpressionEvaluator.MicronCase | src/evaluate/evaluators/expression_evaluator.py:423-451 | A verdict needs a `\mu` and an `m` on one side, and is then the micron comparison of both leading values |
| ExpressionEvaluator.MicronCaseSymmetric | src/evaluate/evaluators/expression_evaluator.py:423-451 | The micron case does not depend on which side is expected |
| ExpressionEvaluator.PowerBranch | src/evaluate/evaluators/expression_evaluator.py:331-380 | W/m² against W/m³ is false whatever the values; otherwise a 20% relative tolerance applies |
| ExpressionEvaluator.EntropyBranch | src/evaluate/evaluators/expression_evaluator.py:382-421 | Entropy values in matching units are compared with a 20% relative tolerance |
| ExpressionEvaluator.ExtractValue | src/evaluate/evaluators/expression_evaluator.py:787-805 | The value is the number run starting at the first digit, read by `float()`; text without a digit has no value |
| ExpressionEvaluator.CompareLatex | src/evaluate/evaluators/expression_evaluator.py:634-733 | When both sides have some unit and a leading value, only the values are compared; otherwise the symbolic comparison decides; it never raises |
| ExpressionEvaluator.Fallback | src/evaluate/evaluators/expression_evaluator.py:464-510 | Were the comparison to raise, the values would decide iff the extracted units are exactly equal, and otherwise null with its error; since `CompareLatex` never raises, the cascade never reaches it |
| ExpressionEvaluator.SpecialCases | src/evaluate/evaluators/expression_evaluator.py:72-462 | The percentage case decides first when it applies; a false comes only from a case that compared values or from no structural case applying |
| ExpressionEvaluator.Cascade | src/evaluate/evaluators/expression_evaluator.py:72-510 | Never null and never an error: the first special case that applies decides, and otherwise, with no unit on the expected side, the symbolic comparison |
| ExpressionEvaluator.Evaluate | src/evaluate/evaluators/expression_evaluator.py:28-510 | Either input failing the gate gives null with "Invalid LaTeX expression"; it raises exactly when both pass the gate, the override does not apply and the percentage guard raises; a returned verdict is null exactly when an input failed the gate |
| ExpressionEvaluator.OverrideForcesCorrect | src/evaluate/evaluators/expression_evaluator.py:53-67 | The 15√2π/8 against "23 K" override is forced correct |
| ExpressionEvaluator.PercentDecides | src/evaluate/evaluators/expression_evaluator.py:72-125 | With a percentage on both sides, the verdict is the symmetric 10% test |
| ExpressionEvaluator.ApproximateRule | src/evaluate/evaluators/expression_evaluator.py:127-164 | The `\sim` rule decides when it applies and no percentage case does |
| ExpressionEvaluator.MalformedRunRaises | src/evaluate/evaluators/expression_evaluator.py:72-75 | An expected text with a point and a malformed first number run makes the evaluator raise `float()`'s error |
| Evaluators.GatesGiveUndecided | src/evaluate/evaluate.py:166-191 | An answer that passes neither gate is null, never false, for the quantity and expression evaluators |
| Evaluators.InvalidAnswerNeverAccepted | src/evaluate/evaluate.py:166-191 | Such an answer is accepted by no evaluator of the OEQ chain without the judge |
| Evaluators.MissingAnswerFailsGates | src/evaluate/evaluate.py:153-191 | A missing answer fails both gates |
| McqPrompt.GetPrompt | src/type/MCQ.py:20-47 | The prompt starts with "Question: " + question + "\nOptions:" + the options block, and goes on with "\nKnowledge:\n" + knowledge exactly when the knowledge is truthy |
| McqPrompt.OptionsBlock | src/type/MCQ.py:32-36 | No options give an empty block |
| McqPrompt.Labelled | src/type/MCQ.py:35-36 | Option i is written as `chr(65 + i)`, ". " and the option |
| McqPrompt.OptionsRoundTrip | src/type/MCQ.py:33-36 | Splitting the block at newlines gives back each option behind its letter and ". ", in order |
| Question.InitialSeed | mcq_gen_framework/question.py:28-36 | Without a seed the question is the original and the base is 100; the seed is the base plus the square of the id's number, and the id must parse |
| Question.UnderscoreGrouping | mcq_gen_framework/question.py:35 | For an instance id `q{n}_{idx}` Python's digit grouping reads the number as the digits of n followed by those of idx |
| Question.Trunc | mcq_gen_framework/question.py:96-97 | `int()` truncates toward zero |
| Question.Sample | mcq_gen_framework/question.py:92-100 | A granularity ≤ 0 raises; otherwise the value is k·granularity for an integer k between `int(min/g)` and `int(max/g)` |
| Question.SampleWithinBounds | mcq_gen_framework/question.py:92-100 | With bounds on the granularity grid, the sample lies between them, in exact real arithmetic (with doubles `int(0.3/0.1) == 2`, so a decimal bound on the grid can still be undershot) |
| Question.SampleBelowLowerBound | mcq_gen_framework/question.py:96-100 | Off the grid, truncation can give a value below the lower bound (0.3 from [0.5, 1.0] with granularity 0.3) |
| Question.SearchFrom | mcq_gen_framework/question.py:108-149 | A returned variable set is the first candidate for which `calculate` did not raise and every constraint holds; a candidate's error, or an exception a constraint raises after `calculate` went through, ends the search; the search is exhausted iff all attempts are rejected |
| Question.AllConstraints | mcq_gen_framework/question.py:144 | `all(...)` holds iff every constraint holds; otherwise the constraints before the deciding one held, and that one failed or raised the exception returned |
| Question.RaisingConstraintEscapes | mcq_gen_framework/question.py:137-145 | A constraint that raises, after `calculate` went through and the earlier constraints held, ends the search with its exception instead of skipping the attempt |
| Question.GenerateValid | mcq_gen_framework/question.py:108-149 | The loop returns what the search defines, within 1000 attempts |
| Question.ExhaustedOnlyAfterAllAttempts | mcq_gen_framework/question.py:117-149 | The RuntimeError comes only after all 1000 attempts are rejected |
| Question.Distractor | mcq_gen_framework/question.py:226-316 | A distractor is kept when it was computed and its text is new; otherwise it is the correct answer times its rate |
| Question.BuildOptions | mcq_gen_framework/question.py:242-325 | Four options shown in shuffled order; an exception from the correct answer, from scaling the confused variables, or from the random distractor propagates, first one first; the letter points at the first option that is the correct answer |
| Question.CorrectLetterShowsCorrect | mcq_gen_framework/question.py:318-325 | The correct letter is between A and D and shows the correct answer |
| Question.ReplacementNotRechecked | mcq_gen_framework/question.py:286-296 | A replacement distractor is not checked again, so two options can be equal |
| Question.Options | mcq_gen_framework/question.py:221-222 | Saved options are returned unchanged; otherwise building them saves them |
| Question.OptionsMemoised | mcq_gen_framework/question.py:221-329 | Once options are saved, later calls and `correct_option` return the same options and letter |
| GenerateDataset.ValidateInstanceRange | mcq_gen_framework/generate_dataset.py:25-50 | An empty, blank or not exactly two-part range is refused with its own message; with two parts, a part `int()` rejects gives the integer error, a start below 1 the start error, an end before the start the order error, and otherwise the range is exactly the two integers with 1 ≤ start ≤ end |
| GenerateDataset.RangeRoundTrip | mcq_gen_framework/generate_dataset.py:25-50 | Writing a valid range as "start-end" and validating it gives it back |
| GenerateDataset.ReversedRangeRefused | mcq_gen_framework/generate_dataset.py:47-50 | A range ending before its start is refused |
| GenerateDataset.InstanceSeed | mcq_gen_framework/generate_dataset.py:153-163 | Instance 1 has no seed and every other instance has one |
| GenerateDataset.InstanceStart | mcq_gen_framework/generate_dataset.py:153-163 | Instance idx of question n starts from 999 + idx − 1 (100 for instance 1, the original) plus the square of the grouped number |
| GenerateDataset.SortKeyOfRecord | mcq_gen_framework/generate_dataset.py:167-178 | A record id `MCQ_{n}_{idx}` sorts by (idx, n) |
| GenerateDataset.GeneratedInKeyOrder | mcq_gen_framework/generate_dataset.py:153-178 | The records come out already sorted by (instance, question number) |
| GenerateDataset.QuestionNumbers | mcq_gen_framework/generate_dataset.py:92-101 | `main` is 1..80 without the excluded numbers; `extra` is 81..104; `eph` has none (the name is unbound); each list is increasing |
| Generate.Kept | src/generate/generate.py:164-190 | The kept records form a dictionary by id, empty when there is no earlier output |
| Generate.KeptRecords | src/generate/generate.py:164-190 | An earlier record is kept iff it has an id and a response and no error |
| Generate.Queue | src/generate/generate.py:192-216 | No queued id is a kept one |
| Generate.QueuedUnlessKept | src/generate/generate.py:192-216 | A problem (id defaulting to `problem_{idx}`) is queued iff its id was not kept |
| Generate.NumBatches | src/generate/generate.py:300-302 | The number of batches is ⌈n / size⌉; a size of 0 has none |
| Generate.BatchesPartition | src/generate/generate.py:301-317 | The batches are consecutive slices of at most `size` problems that concatenate to the queue |
| Generate.Fit | src/generate/generate.py:353-368 | Results are padded with "No result returned" placeholders or truncated to exactly the batch length |
| Generate.FitStable | src/generate/generate.py:353-368 | Fitting twice is fitting once, and results of the right length are untouched |
| Generate.TerminatesOnlyAtFourth | src/generate/generate.py:436-441 | With the count growing by at most one per batch, the termination rule (`Terminates`) fires exactly at batch index 3 on four failures |
| Generate.Tally | src/generate/generate.py:433-459 | The batch's records are appended; the failure count grows when every record failed and resets otherwise; the step stops iff the termination rule holds, with its message |
| Generate.Recover | src/generate/generate.py:470-688 | The `except` branch appends one record per problem of the batch, named in order, keeps the earlier records, counts the batch as failed iff all those records failed, and stops iff the rule holds |
| Generate.ToRecord | src/generate/generate.py:370-415 | A reply's record has the problem's id and the reply's error; an error reply keeps its content, and any other reply has a response |
| Generate.RecordResumableIffNoError | src/generate/generate.py:370-415 | A record made from a result can be resumed from iff the result had no error |
| Generate.StepAsWritten | src/generate/generate.py:324-506 | As written, a batch is recorded once or twice, its first records name its problems in order, the earlier records are kept, the failure count resets, grows by one, or grows by two on the way to a stop, and a stop reports the count reached |
| Generate.AsWrittenAgreesOnContinue | src/generate/generate.py:324-506 | Whenever the corrected step goes on, the step as written is the same step |
| Generate.AsWrittenOnStop | src/generate/generate.py:442-470 | Where the corrected step stops after a batch call that returned, the step as written runs the `except` branch on the stopped run |
| Generate.AsWrittenCount | src/generate/generate.py:436-506 | As written, a step that stops does so within the first four batches and reports four or five failures |
| Generate.Step | src/generate/generate.py:312-688 | Corrected (Findings row 2): every problem of a batch gets one record, in order; the failure count grows when all failed and resets otherwise; the run stops exactly when the termination rule holds |
| Generate.AsWrittenRecordsBatchTwice | src/generate/generate.py:436-470 | As written, a failing batch that reaches the termination rule is recorded twice |
| Generate.StopSwallowedByFallback | src/generate/generate.py:442-470 | As written, with the fallback on and the individual retry succeeding, the termination is caught and the run goes on with the problem recorded twice; the intended step stops |
| Generate.StopRecountedWithoutFallback | src/generate/generate.py:473-506 | As written, with the fallback off, the run stops reporting five consecutive failures instead of four |
| Generate.ProcessBatches | src/generate/generate.py:311-688 | A run that goes through records every queued problem once, in queue order, after the kept records; a run stops only at the fourth batch after four failed batches |
| Generate.BatchLoop | src/generate/generate.py:312-316 | The loop computes the run batch by batch and leaves at the first step that stops |
| Generate.AnsweredExtends | src/generate/generate.py:312-506 | Records for the next batch of the queue, after the earlier ones, extend the answered part of the queue |
| Generate.BatchAsWritten | src/generate/generate.py:312-506 | One pass of the loop as written takes `size` problems or the rest of the queue and leaves every problem up to the batch's end with a record |
| Generate.BatchLoopAsWritten | src/generate/generate.py:312-688 | As written, every problem of every batch run has a record after the kept ones; a run that goes through records every queued problem at least once; a stop comes within the first four batches and reports four or five failures |
| Generate.ProcessProblemsAsWritten | src/generate/generate.py:120-738 | As written, nothing queued returns the kept records; a size of 0 raises `ZeroDivisionError`; a finished run has a record for every queued problem, with remaining ≤ 0; a terminated run reports four or five failures |
| Generate.ProcessFromProgress | src/generate/generate.py:312-688 | From any state the loop keeps, the rest of the run covers the queue or stops only as the termination rule allows |
| Generate.ProcessFrom | src/generate/generate.py:312-688 | The batch reported lies between the start and the number of batches, and the run went through iff that batch is the number of batches |
| Generate.CountsDisjoint | src/generate/generate.py:232-233 | No record counts both as a success and as an error |
| Generate.Percentage | src/generate/generate.py:235 | The completion percentage, before rounding, is 100 exactly when every problem succeeded |
| Generate.Stats | src/generate/generate.py:231-245 | missing = total − responses; completion is 0 with no problems; otherwise it is at least 0, is 100 exactly when the successful records equal the problems, and is at most 100 when the successful records are at most the problems (kept records outside the problem list can push it past 100); remaining = queued − new records |
| Generate.ProcessProblems | src/generate/generate.py:120-738 | Nothing queued returns the kept records alone; a size of 0 raises `ZeroDivisionError`; a finished run covers the queue with none remaining; a terminated run carries the termination message |
| GpuParallel.Collect | src/generate/generate_gpu_parallel.py:130 | The values read, when all are present, else the first part that was read as none |
| GpuParallel.ParseIds | src/generate/generate_gpu_parallel.py:130 | Each GPU id is the stripped part parsed by `int()`, and a part that does not parse is the error |
| GpuParallel.GpuIds | src/generate/generate_gpu_parallel.py:121-130 | With no id string, the detected GPUs are numbered from 0 |
| GpuParallel.CutGroups | src/generate/generate_gpu_parallel.py:137-150 | The groups have the computed sizes and concatenate to the id list |
| GpuParallel.GroupIds | src/generate/generate_gpu_parallel.py:132-152 | The groups are reduced to the number of ids; zero groups is the error; otherwise the groups have the balanced sizes, concatenate to the ids and are written comma-joined |
| GpuParallel.GroupSizesBalanced | src/generate/generate_gpu_parallel.py:138-146 | Group sizes are ⌊n/g⌋ or ⌊n/g⌋+1, never growing with the index, so the first `n mod g` groups get the extra GPU |
| GpuParallel.GroupTextRoundTrip | src/generate/generate_gpu_parallel.py:149 | A group's comma-joined text splits back into its ids |
| GpuParallel.SplitGpus | src/generate/generate_gpu_parallel.py:119-152 | The groups are reduced to the number of GPUs, concatenate to the ids, have balanced sizes, and are written comma-joined; zero groups is the division error |
| GpuParallel.DatasetCount | src/generate/generate_gpu_parallel.py:157-165 | A zero count falls back to the predefined count, or 0 |
| GpuParallel.DatasetCounts | src/generate/generate_gpu_parallel.py:157-165 | The dictionary's keys are exactly the datasets, each once, and each holds its dataset's count with the predefined fallback |
| GpuParallel.SortedCounts | src/generate/generate_gpu_parallel.py:168 | The datasets are sorted by count, descending, as a permutation of the counts |
| GpuParallel.SortedCountsStable | src/generate/generate_gpu_parallel.py:168 | Equal counts keep their first-seen order |
| GpuParallel.MinIndex | src/generate/generate_gpu_parallel.py:177 | The chosen group has the smallest total, and ties go to the lowest index |
| GpuParallel.Distribute | src/generate/generate_gpu_parallel.py:171-185 | Each dataset goes into exactly one group; each group's total is its datasets' sum; totals stay within the largest count of each other |
| GpuParallel.PathError | src/generate/generate_gpu_parallel.py:105-108 | `get_dataset_path` raises exactly when the name does not split at '/' into two parts |
| GpuParallel.FirstSome | src/generate/generate_gpu_parallel.py:157-165 | The first present value in list order: none iff every value is absent, else one with only absent values before it |
| GpuParallel.PathErrors | src/generate/generate_gpu_parallel.py:157-159 | The path error of each dataset, in list order |
| GpuParallel.PathOfTypedName | src/generate/generate_gpu_parallel.py:105-108 | A name `type/name` with no other '/' has a path |
| GpuParallel.SplitDatasets | src/generate/generate_gpu_parallel.py:154-185 | The first dataset whose path cannot be built is the error; otherwise every dataset appears in exactly one of the groups, with totals that are the sums and stay balanced, and zero groups with datasets is the `min()` error |
| InstanceAcc.ParseId | scripts/instance_analysis/create_instance_acc.py:37-41 | An id parses iff it starts with letters, `_`, digits, `_`, digits |
| InstanceAcc.ShapedFields | scripts/instance_analysis/create_instance_acc.py:37-41 | `letters_digits_digits` at the start of the id, not necessarily ending it, is found |
| InstanceAcc.ParseIdWritten | scripts/instance_analysis/create_instance_acc.py:37-41 | Such an id parses to the integers of its two digit fields |
| InstanceAcc.ParseRecordId | scripts/instance_analysis/create_instance_acc.py:37-41 | A generated record id `MCQ_{n}_{idx}` parses to (n, idx) |
| InstanceAcc.Counted | scripts/instance_analysis/create_instance_acc.py:66-72 | A record adds one to its instance's total and one to the correct count iff its score is exactly 1.0 |
| InstanceAcc.Accumulate | scripts/instance_analysis/create_instance_acc.py:54-78 | The tallies form a dictionary by instance, each with at least one record, one question per record, and correct ≤ total |
| InstanceAcc.AccumulateKeys | scripts/instance_analysis/create_instance_acc.py:54-78 | An instance has a tally iff some record's id parses to it |
| InstanceAcc.AccumulateTally | scripts/instance_analysis/create_instance_acc.py:54-78 | Each tally counts exactly the records of its instance, in order, with their ids |
| InstanceAcc.AccumulateSums | scripts/instance_analysis/create_instance_acc.py:63-72 | The tallies together count every record whose id parses, and no other |
| InstanceAcc.Accuracy | scripts/instance_analysis/create_instance_acc.py:75-76 | An instance's accuracy lies in [0,1] and is 1 iff all its records are correct |
| InstanceAcc.Summarise | scripts/instance_analysis/create_instance_acc.py:101-130 | The average and overall accuracies lie in [0,1] and are 0 with nothing to average; correct ≤ total; one instance count per tally |
| InstanceAcc.SummaryOfRecords | scripts/instance_analysis/create_instance_acc.py:101-130 | The summary's totals are the parsed records and the parsed correct records |
| InstanceAcc.Rows | scripts/instance_analysis/create_instance_acc.py:90 | The output rows are the tallies in ascending instance order |
| ResultReport.ExtractQuestionType | scripts/generate_result2.py:43-64 | The mapping decides first, then the record's `type` field |
| ResultReport.IdPrefixOf | scripts/generate_result2.py:60-64 | The fallback type is the id's text before its first '_' |
| ResultReport.TypeOf | scripts/generate_result2.py:86-96 | A record counts under its mapped type, else under its id's prefix |
| ResultReport.TypeIgnoresField | scripts/generate_result2.py:86-96 | The analysis reads the type as if the record had no `type` field |
| ResultReport.TypeCounts | scripts/generate_result2.py:98-105 | The per-type counts form a dictionary |
| ResultReport.TypeCountsGet | scripts/generate_result2.py:98-105 | Each type's counts are its records and its records with a positive score |
| ResultReport.TypeCountsSums | scripts/generate_result2.py:98-105 | The per-type totals add up to the number of records, and the correct counts to the positive records |
| ResultReport.EvaluatorStats | scripts/generate_result2.py:107-116 | The statistics are keyed by exactly the four evaluators, in the order quantity, expression, llm, mcq |
| ResultReport.EvaluatorStatsCounts | scripts/generate_result2.py:107-116 | Each tracked evaluator counts its true, false and other verdicts |
| ResultReport.Analyze | scripts/generate_result2.py:66-135 | Total is the number of records and correct counts positive scores; the overall and per-type accuracies lie in [0,1] and are 0 with no records; only the four evaluators are tracked |
| ResultReport.AnalyzeCounts | scripts/generate_result2.py:66-135 | The report has a row for a type iff some record has it, and the evaluator tallies count the items' verdicts |
| EvaluatorCoverage.Share | scripts/analysis/analysis_oeq_evaluator.py:80-107 | A share is 0 when its denominator is ≤ 0 and 0 when its part is 0; for 0 ≤ part ≤ whole it lies in [0,1] and is 1 iff the part is the whole (the part can exceed the whole, see `QuantityShareCanExceedOne`) |
| EvaluatorCoverage.RowShares | scripts/analysis/analysis_oeq_evaluator.py:70-107 | n sums the quantity and expression trues and all LLM verdicts; each evaluator's share is over what the earlier evaluators left; the LLM share lies in [0,1], and when the judge saw any sub-question it is 1 iff the judge left nothing null |
| EvaluatorCoverage.QuantityShareCanExceedOne | scripts/analysis/analysis_oeq_evaluator.py:71-82 | The quantity falses are not in n, so five quantity falses and one expression true, with no LLM verdicts, give a quantity coverage of 5 |
| EvaluatorCoverage.RowOf | scripts/analysis/analysis_oeq_evaluator.py:70-107 | n is the quantity and expression trues plus every LLM verdict; quantity coverage is its decided share of n, expression coverage its decided share of what quantity left, LLM coverage its decided share of what it saw |
| EvaluatorCoverage.RowWith | scripts/analysis/analysis_oeq_evaluator.py:50-110 | The overall column is the value under the key read, or 0 without it; n is the file's quantity and expression trues plus all its LLM verdicts; the LLM nulls are the file's |
| EvaluatorCoverage.EmptyStatistics | scripts/analysis/analysis_oeq_evaluator.py:50-68 | A file without evaluator statistics gives zero counts and zero coverage |
| EvaluatorCoverage.RowOfSummary | scripts/analysis/analysis_oeq_evaluator.py:52-107 | The row read from a written summary carries that summary's evaluator tallies |
| EvaluatorCoverage.AnalyseAsWritten | scripts/analysis/analysis_oeq_evaluator.py:50-110 | As written, a model with a results file gets the row read with `overall_accuracy`, and one without gets none |
| EvaluatorCoverage.Analyse | scripts/analysis/analysis_oeq_evaluator.py:50-110 | Corrected (Findings row 4): the row read with `average_score` |
| EvaluatorCoverage.AsWrittenOverallAlwaysZero | scripts/analysis/analysis_oeq_evaluator.py:110 | As written, the overall accuracy column is 0 for every summary the evaluation writes |
| EvaluatorCoverage.OverallIsAverageScore | scripts/analysis/analysis_oeq_evaluator.py:110 | Read under `average_score`, the column carries the evaluation's average score |
| Sorting.SortedHeadIsMin | src/evaluate/evaluate.py:133-141 | The sorted leftover ids start with the smallest id in code-point order |
| Sorting.SortDescByStable | src/generate/generate_gpu_parallel.py:168 | The descending sort keeps equal keys in their input order |

## Left out

- File, CLI, logging, metadata and timing I/O: `read_jsonl`, `write_jsonl`, `update_metadata`, `get_latest_log`, `main`, and the batch-time estimates. Inputs and outputs are values.
- Model back-ends and their network, Ray and GPU code: a batch's replies and each individual reply are given by `Generate.Outcome`.
- The LLM judge and its Ray dispatch: the judge is a function from an expected and an actual answer to a judgement.
- pint, sympy, `clean_latex`, `latex_to_quantity`, `_extract_unit`, and the temperature, angle and megawatt readers: these are function parameters (`QuantityLib`, `ExpressionLib`). Their regex chains are not re-derived.
- Floating point: magnitudes are reals, so binary rounding (`int(0.3/0.1) == 2` in `Question.Sample`) is not modelled. `round(result, precision)` in sampling, the PRECISION modes of question generation, and the rounding of the completion percentage are not modelled.
- Python `random`: the seeded draws, the shuffle and the candidate generator are parameters. The exact sequence is not modelled.
- The question subclasses' `calculate`: it is a parameter that can raise.
- `extract_answers_from_latex`: not on the evaluation path, and built from lazy DOTALL regexes.
- Plotting, CSV and the other report scripts: file and plot I/O only.
- GPU auto-detection and the subprocess, signal and process-pool code of the parallel launcher: the number of detected GPUs and the dataset counts are inputs.
- The standard deviation of instance accuracies: floating-point statistics.
- The MCQ path's exception record (`is_correct` null on a raised MCQEvaluator): the modelled MCQ evaluator is total, so that path cannot be reached.
- The per-result `try` around record building in `process_problems`: building a record from a reply cannot raise in the model.
- GenerateDataset.ValidateInstanceRange: the non-string check is not modelled, because ranges are strings by type.
- McqPrompt.GetPrompt: requires fewer than 0xD800 − 65 options, because `chr(65 + i)` above that reaches the surrogate range, which Dafny's `char` excludes.
- EvalUtils.SeqLabel: for positions where `chr(97 + i)` would reach the surrogate range, the key is `#` and the position's digits. This keeps keys distinct, but it is not Python's character.
- QuantityEvaluator.RawStage: its own contract states only that undecided goes with an error; the raw-text cases are stated by `RawPercentDecides`, `RawPercentSymmetric`, `OverrideForcesCorrect` and `TenAgainstElevenPointFour`.
- QuantityEvaluator.CleanedStage: its own contract states only that undecided goes with an error; the cleaned-text cases are stated by `TemperatureInKelvin`, `CleanedPercentAbsolute`, `GenericComparison` and `BaseUnitsDecide`.
- QuantityEvaluator.MicronBranch: its contract does not name the values compared; which value each side reads is not stated beyond the `\mu` it must precede, and `MicronBranchSymmetric` is its partner.
- QuantityEvaluator.ExtractPercentage: its own contract states only the empty case; the readings are stated by `PercentOfNatural`, `NoPercentSign` and `NegativePercentShadowed`.
- Generate.Stats: the completion percentage is not rounded to two decimals.
- Generate.Percentage: stated before `round(…, 2)`; the rounded value shows 100.0 when one problem in more than 20000 is missing.
- Text: `IsDigit`, `IsWordChar`, `Upper`, `Lower` and `ParsePyInt` are ASCII-only. Python's Unicode `\d`, `\w` and `int()`, the IGNORECASE matches of 'K' (U+212A), 'ſ' and 'ı', and `'ß'.upper() == 'SS'` are not modelled.
- Evaluate.ExpectedFor: a response's `question` is a string, so the `TypeError` that `extract_subquestions(None)` raises for a response without one (src/evaluate/evaluate.py:287-292, 334) is not modelled.
- ResultReport.Analyze: a score is a number or missing, so the `TypeError` that `> 0` raises on a JSON-null score (scripts/generate_result2.py:102) is not modelled.
- Sizes are `nat`: the negative `--parallel`, `--llm-parallelism` and `--gpu-parallel` values the command lines accept (src/generate/generate.py:747, src/evaluate/evaluate.py:719, src/generate/generate_gpu_parallel.py:274) are not modelled.
- Generate.Kept: its contract states only the shape; the records kept are stated by `KeptRecords`.
- Generate.Queue: its contract states only that kept ids are not queued; which problems are queued is stated by `QueuedUnlessKept`.
- ResultReport.TypeCounts: its contract states only the shape; the counts are stated by `TypeCountsGet` and `TypeCountsSums`.
- ResultReport.EvaluatorStats: its contract states only the keys; the tallies are stated by `EvaluatorStatsCounts`.
- InstanceAcc.Accumulate: its contract states only the shape; the tallies are stated by `AccumulateKeys` and `AccumulateTally`.
- Evaluate.ExtractedAnswers: reads letters with the corrected `ExtractMcqAnswer` of Findings row 1; as written `\boxed{ B }` reads as `\` (`LooseBoxedReadsBackslash`, `AsWrittenAgrees`).
- Evaluate.RawExpected: the MCQ answer reads letters with the corrected `ExtractMcqAnswer` of Findings row 1; as written `\boxed{ B }` reads as `\` (`LooseBoxedReadsBackslash`, `AsWrittenAgrees`).
- EvaluateMcq.McqExpected: reads letters with the corrected `ExtractMcqAnswer` of Findings row 1; as written `\boxed{ B }` reads as `\` (`LooseBoxedReadsBackslash`, `AsWrittenAgrees`).
- McqEvaluator.ReadActual: a long answer reads letters with the corrected `ExtractMcqAnswer` of Findings row 1; as written `\boxed{ B }` reads as `\` (`LooseBoxedReadsBackslash`, `AsWrittenAgrees`).
- McqEvaluator.ReadExpected: a long expected answer reads letters with the corrected `ExtractMcqAnswer` of Findings row 1; as written `\boxed{ B }` reads as `\` (`LooseBoxedReadsBackslash`, `AsWrittenAgrees`).
- McqEvaluator.Evaluate: reads letters with the corrected `ExtractMcqAnswer` of Findings row 1; as written `\boxed{ B }` reads as `\` (`LooseBoxedReadsBackslash`, `AsWrittenAgrees`), so against "B" the source's verdict is false where the model's is true.
- McqEvaluator.FirstPatternDecides: stated of the corrected cascade; as written a fourth-pattern match whose first group is empty raises inside the loop, is caught, and falls through.
- McqEvaluator.CascadeSomeIff: stated of the corrected cascade; as written a fourth-pattern match can raise inside the loop and fall through, or read a backslash.
- McqEvaluator.CorrectLongResponseIsLetter: stated of the corrected reader; as written an accepted long answer can be `\`.
- Evaluate.Summarise: the MCQ summary uses the corrected entry of Findings row 3; as written every MCQ evaluation through src/evaluate/evaluate.py raises `KeyError` at line 451 (`McqSummaryAlwaysFails`).
- Evaluate.McqEntryOf: the MCQ summary uses the corrected entry of Findings row 3; as written every MCQ evaluation through src/evaluate/evaluate.py raises `KeyError` at line 451 (`McqSummaryAlwaysFails`).
- Evaluate.FirstPassShape: the MCQ summary uses the corrected entry of Findings row 3; as written every MCQ evaluation through src/evaluate/evaluate.py raises `KeyError` at line 451 (`McqSummaryAlwaysFails`), so no MCQ result is produced.
- Evaluate.EvaluateResponses: the MCQ summary uses the corrected entry of Findings row 3; as written every MCQ evaluation through src/evaluate/evaluate.py raises `KeyError` at line 451 (`McqSummaryAlwaysFails`), so no MCQ result is produced.
- Generate.ProcessProblems: runs the corrected step of Findings row 2; as written a queued problem can be recorded twice, a finished run can hold more records than it queued, and a stop reports four or five failures, as `BatchLoopAsWritten` and `ProcessProblemsAsWritten` state.
- Generate.ProcessBatches: runs the corrected step of Findings row 2; as written a queued problem can be recorded twice, a finished run can hold more records than it queued, and a stop reports four or five failures, as `BatchLoopAsWritten` and `ProcessProblemsAsWritten` state.
- Generate.ProcessFromProgress: runs the corrected step of Findings row 2; as written a queued problem can be recorded twice, a finished run can hold more records than it queued, and a stop reports four or five failures, as `BatchLoopAsWritten` and `ProcessProblemsAsWritten` state.
- Generate.BatchLoop: runs the corrected step of Findings row 2; as written a queued problem can be recorded twice, a finished run can hold more records than it queued, and a stop reports four or five failures, as `BatchLoopAsWritten` and `ProcessProblemsAsWritten` state.

## Findings

| source | as written | input that shows it | evidently intended | confidence | as-written member | corrected member |
|---|---|---|---|---|---|---|
| src/evaluate/evaluators/mcq_evaluator.py:57 | The fourth pattern's group 1 is the optional backslash, and the code returns `match.group(1)` | the response `\boxed{ B }` reads as `\` | return the letter, group 2, so the answer is `B` | high, not executed | McqEvaluator.LooseBoxedReadsBackslash | McqEvaluator.ExtractMcqAnswer |
| src/generate/generate.py:455 | The termination `RuntimeError` is raised inside the batch's `try` and caught by its own `except` at line 470, which handles the batch again | four failed one-problem batches: with the fallback on and the individual retry succeeding, the fourth problem is recorded twice and the run goes on; with it off, the run stops reporting five failures | stop the run after recording the batch once, with four failures | high, not executed | Generate.StopSwallowedByFallback | Generate.Step |
| src/evaluate/evaluate.py:451 | The MCQ summary reads `details['actual']`, which MCQEvaluator's details never contain | any MCQ problem whose evaluation reaches the summary raises `KeyError` | read the evaluator's extracted answer | high, not executed | Evaluate.McqSummaryAlwaysFails | Evaluate.McqSummaryReadsExtracted |
| scripts/analysis/analysis_oeq_evaluator.py:110 | The overall accuracy is read under `overall_accuracy`, but the evaluation writes it under `average_score` | every results file the evaluation writes gives 0 | read `average_score` | high, not executed | EvaluatorCoverage.AsWrittenOverallAlwaysZero | EvaluatorCoverage.OverallIsAverageScore |
