# Balanced subsets and the paraphrase evaluator, in Dafny

This project models two pieces of sequential logic from an LLM-editing
evaluation harness and proves properties of them.

* **The MMLU subset builder** (`glue_eval/dataset/create_glue_subset.py`).
  It groups the validation examples by `answer` into an insertion-ordered
  dictionary and shuffles each group. The smallest group size becomes the
  quota. The output is built in rounds: each round appends element `index`
  of every group, in key order, and rounds continue until the output holds
  `quota * number_of_groups` examples. The model is `glue_subset.dfy`,
  module `GlueSubset`.
* **The MRPC paraphrase evaluator** (`glue_eval/mrpc_eval.py`), modelled in
  `mrpc_eval.dfy`, module `MrpcEval`. It covers:
  * the constructor's few-shot bound and test-count truncation;
  * the few-shot context built stanza by stanza;
  * the query prompt;
  * the answer parser, which reads "Yes"/"No" after the last `Answer:`;
  * the evaluation loop, which stores one record per row and counts correct,
    incorrect and invalid answers plus the four class-conditioned counters.

The language model and tokenizer are one oracle,
`model: string -> ModelOutput`. For a query prompt it gives:
* the prompt as decoded after tokenization;
* the decoded greedy generation;
* the two candidate likelihoods;
* the argmax decoding.

Everything proved holds for every oracle.

Python's string operations (`in`, `find`, `split`, `sep.join`, `strip`, and
`replace(old, '')`) are modelled in `pystrings.dfy`, module `PyStrings`.
`wrappers.dfy` holds `Option` and `Result`.

Shapes of the model:
* **Imperative code stays imperative:**
  * the grouping loop, the shuffles and the `while` loop of the subset
    builder;
  * `_initialize_prompts`, which updates a field of the `MRPCEval` class;
  * the `evaluate` loop.
* Each loop is proved against a specification function (`Labels`/`Members`,
  `RoundRobin`, `FewShotContext`, `Runs`/`Tally`/`Column`). Those functions'
  properties are lemmas.
* **Pure code becomes functions:** `_create_prompt` and `_get_answer`.
* **The dictionary `classwise`** is two values: its key order (a `seq`, since
  Python dicts iterate in insertion order) and a `map` from answer to group.
* **`random.shuffle`** is CPython's Fisher–Yates loop. The generator's draws
  are a parameter `rand`, and the `k`-th draw, reduced modulo `i + 1`, is
  the swap index.
* **Errors** that the source raises become `Result` errors:
  * `min()` of an empty sequence;
  * the `assert` in `__init__`;
  * the unbound `s` at `glue_eval/mrpc_eval.py:182`, which is reached when
    the evaluation set is empty.

Where the prose description of the system and the code differ, the model
follows the code:
* **An answer containing both "Yes" and "No"** is read as 1, because "Yes"
  is tested first. It is not treated as ambiguous.
* **Only the text after the last `Answer:` is scanned.** That text comes from
  the whole decoded output, prompt included, not from the generated suffix
  alone.
* **Construction fails from 50 exemplars on** (`<` at line 13), not only
  above 50.
* **`total` is `s + 1`.** It equals the evaluation-set length only when that
  set is nonempty.
* **The line-51 bounds test never fails**, because the quota is the minimum
  group size. No group is ever exhausted early.

## Model

| member | source | states |
|---|---|---|
| GlueSubset.GroupByAnswer | glue_eval/dataset/create_glue_subset.py:33-40 | the key order is the answers in order of first appearance; the keys are exactly those answers; each group is the examples with that answer, in input order |
| GlueSubset.Labels | glue_eval/dataset/create_glue_subset.py:36-38 | (definition) the dictionary's keys as they are inserted: the answers of the input, each at its first appearance |
| GlueSubset.Members | glue_eval/dataset/create_glue_subset.py:36-40 | (definition) the group of answer `l`: the input examples with that answer, in input order |
| GlueSubset.LabelsAreTheAnswers | glue_eval/dataset/create_glue_subset.py:37-38 | the key order lists no answer twice, and a value is a key iff some example has it as its answer |
| GlueSubset.LabelsGrowAtTheEnd | glue_eval/dataset/create_glue_subset.py:37-38 | the keys met in any prefix of the input are a prefix of the final key order (insertion order) |
| GlueSubset.MembersHaveTheLabel | glue_eval/dataset/create_glue_subset.py:38-40 | every example in the group of answer `l` has answer `l` |
| GlueSubset.MembersOfAbsent | glue_eval/dataset/create_glue_subset.py:37-38 | an answer not yet met has no examples, so a new group starts as `[example]` |
| GlueSubset.GroupsPartition | glue_eval/dataset/create_glue_subset.py:36-40 | the groups together hold every input example exactly once (their multisets sum to the input's) |
| GlueSubset.BagAppend | glue_eval/dataset/create_glue_subset.py:40 | appending an example to one group adds exactly that example to the groups' sum |
| GlueSubset.Shuffle | glue_eval/dataset/create_glue_subset.py:43 | the shuffled group is a permutation of the group (same length and multiset), using one draw for each index from `len - 1` down to 1 |
| GlueSubset.ShuffleGroups | glue_eval/dataset/create_glue_subset.py:42-43 | shuffling keeps the keys, and each group keeps its length and multiset |
| GlueSubset.MinGroupSize | glue_eval/dataset/create_glue_subset.py:45 | an error iff there are no groups; otherwise a size no larger than any group's and equal to some group's |
| GlueSubset.NoLabelsOnlyWhenEmpty | glue_eval/dataset/create_glue_subset.py:36-45 | there are no groups iff the input is empty, so `min()` fails only on an empty split |
| GlueSubset.Columns | glue_eval/dataset/create_glue_subset.py:50 | the groups listed in key order, one column per key, column `c` being the group of the `c`-th key |
| GlueSubset.Round | glue_eval/dataset/create_glue_subset.py:50-52 | (definition) one pass of the `for` loop: element `r` of every column long enough to have one, column by column |
| GlueSubset.RoundRobin | glue_eval/dataset/create_glue_subset.py:48-53 | (definition) the output after `n` passes of the `while` loop: rounds `0` to `n - 1`, one after the other |
| GlueSubset.AppendRound | glue_eval/dataset/create_glue_subset.py:50-52 | one pass over the keys appends element `index` of each group long enough to have one, in key order |
| GlueSubset.RoundAt | glue_eval/dataset/create_glue_subset.py:49-52 | when every group is longer than `index`, the line-51 test always passes: the round holds one element per group, element `index` of group `c` at position `c` |
| GlueSubset.Interleave | glue_eval/dataset/create_glue_subset.py:47-53 | the loop ends with the first `quota` rounds, after exactly `quota` rounds (none when there are no groups) |
| GlueSubset.Advance | glue_eval/dataset/create_glue_subset.py:49-53 | while the output is shorter than `quota * k`, fewer than `quota` rounds are done, and one more round keeps the loop invariant: the output is the first `index + 1` rounds, `(index + 1) * k` examples |
| GlueSubset.Finish | glue_eval/dataset/create_glue_subset.py:49-53 | once the output reaches `quota * k`, exactly `quota` rounds are done, or none when there are no groups |
| GlueSubset.RoundRobinLength | glue_eval/dataset/create_glue_subset.py:49 | `n` rounds over `k` groups hold exactly `n * k` examples |
| GlueSubset.RoundRobinAt | glue_eval/dataset/create_glue_subset.py:48-53 | output position `r * k + c` holds element `r` of the `c`-th group |
| GlueSubset.RoundMembers | glue_eval/dataset/create_glue_subset.py:50-52 | with one group per answer, a round holds exactly one example of each answer, namely that group's element |
| GlueSubset.RoundRobinCounts | glue_eval/dataset/create_glue_subset.py:48-53 | each answer contributes exactly `n` examples to `n` rounds |
| GlueSubset.RoundRobinBag | glue_eval/dataset/create_glue_subset.py:50-53 | `n` rounds take exactly the first `n` elements of every group, each (group, index) pair once |
| GlueSubset.TakeWithin | glue_eval/dataset/create_glue_subset.py:50-53 | the taken prefixes are part of the groups, so the larger groups' surplus is dropped |
| GlueSubset.SubsetIsBalanced | glue_eval/dataset/create_glue_subset.py:45-53 | in the subset, every answer of the input occurs exactly `quota` times |
| GlueSubset.SubsetAlternates | glue_eval/dataset/create_glue_subset.py:48-53 | position `p` of the subset holds an example of the `(p % k)`-th answer in key order |
| GlueSubset.SubsetFromInput | glue_eval/dataset/create_glue_subset.py:36-53 | every example of the subset is an input example, and none is taken more often than it occurs |
| GlueSubset.InterleaveIsBalanced | glue_eval/dataset/create_glue_subset.py:36-53 | the shuffled groups interleaved to the minimum size give a subset of length `quota * k` with exactly `quota` per answer, alternating answers, drawn from the input |
| GlueSubset.BuildSubset | glue_eval/dataset/create_glue_subset.py:33-53 | an error iff the split is empty; otherwise `classwise_size` is the smallest group size and the subset is balanced, alternating and drawn from the input |
| PyStrings.FindFirst | glue_eval/mrpc_eval.py:44-48 | a found index is an occurrence with none before it; a miss means there is no occurrence at all |
| PyStrings.Contains | glue_eval/mrpc_eval.py:46-48 | (definition) `w in s`, as a successful search; `ContainsOccurs` characterizes it |
| PyStrings.ContainsOccurs | glue_eval/mrpc_eval.py:46-48 | `w in s` holds iff `w` occurs somewhere in `s` |
| PyStrings.Split | glue_eval/mrpc_eval.py:44 | `split` always yields at least one piece |
| PyStrings.SplitStep | glue_eval/mrpc_eval.py:44 | the first piece is the text before the first occurrence, and the rest is the split of the text after it |
| PyStrings.JoinSplit | glue_eval/mrpc_eval.py:44 | joining the pieces with the separator gives the string back |
| PyStrings.LastPiece | glue_eval/mrpc_eval.py:44 | (definition) `split(sep)[-1]`, the last element of `Split`; `LastPieceIsTail` characterizes it |
| PyStrings.LastPieceIsTail | glue_eval/mrpc_eval.py:44 | `split(sep)[-1]` is a suffix of the text holding no `sep`, and it is the whole text when `sep` does not occur; otherwise an occurrence of `sep` ends right before it. This leaves a choice only for a separator that can overlap itself; `LastPieceAfterSep` pins the piece down when `HeadUnique(sep)`, as for `Answer:` |
| PyStrings.LastPieceAfterSep | glue_eval/mrpc_eval.py:44 | for a separator whose first character does not recur in it, the last piece of `p + sep + u` is `u` when `u` holds no `sep` |
| PyStrings.LastPieceWithoutSep | glue_eval/mrpc_eval.py:44 | the last piece of a text without the separator is the whole text |
| PyStrings.Strip | glue_eval/mrpc_eval.py:44 | (definition) `strip()`: whitespace in the sense of `str.isspace` removed from the front, then from the end; the `Strip*` lemmas characterize it |
| PyStrings.StripStartDrops | glue_eval/mrpc_eval.py:44 | stripping the front removes only leading whitespace and leaves a non-space first character |
| PyStrings.StripEndDrops | glue_eval/mrpc_eval.py:44 | stripping the end removes only trailing whitespace and leaves a non-space last character |
| PyStrings.StripIdempotent | glue_eval/mrpc_eval.py:44 | stripping twice is stripping once |
| PyStrings.StripKeepsWords | glue_eval/mrpc_eval.py:44-48 | stripping never changes whether a word without whitespace occurs |
| PyStrings.RemoveAll | glue_eval/mrpc_eval.py:155 | (definition) `replace(old, '')`: the pieces of `split(old)` joined with nothing, and the text itself for an empty `old` |
| PyStrings.RemoveAllShrinks | glue_eval/mrpc_eval.py:155 | `replace(old, '')` never lengthens the text and returns it unchanged when `old` does not occur |
| MrpcEval.PrefixSlice | glue_eval/mrpc_eval.py:19 | `s[:n]` is a prefix of `s` of length `min(n, len)` for `n >= 0`, and drops `-n` items from the end for negative `n` |
| MrpcEval.TestSubset | glue_eval/mrpc_eval.py:19 | the kept evaluation set is a prefix of the split: all of it when `number_of_tests` is `None`, and `min(n, len)` rows for a count `n >= 0` |
| MrpcEval.MRPCEval.constructor | glue_eval/mrpc_eval.py:12-21 | fields as given, the evaluation set truncated to `number_of_tests` when given, and the initialized prompts |
| MrpcEval.NewMRPCEval | glue_eval/mrpc_eval.py:9-13 | construction fails iff `number_of_few_shots >= 50`; otherwise a fresh evaluator in the initialized state |
| MrpcEval.MRPCEval.InitializePrompts | glue_eval/mrpc_eval.py:24-29 | the prefix and postfix prompts are the constants, and the context is the stanzas of the exemplars in order; no other field changes |
| MrpcEval.LabelWord | glue_eval/mrpc_eval.py:29 | the rendered label is `No` or `Yes`, and it is `No` exactly when the label is 0 |
| MrpcEval.Query | glue_eval/mrpc_eval.py:29-36 | (definition) the prefix prompt, then `Sentence 1: …\nSentence 2: …\n`, shared by the exemplar stanzas and the query prompt |
| MrpcEval.Stanza | glue_eval/mrpc_eval.py:29 | (definition) one exemplar: its question, then `Answer: `, its label word and a newline |
| MrpcEval.FewShotContext | glue_eval/mrpc_eval.py:27-29 | (definition) the exemplars' stanzas concatenated in order; `FewShotContextConcat` and `FewShotContextAnswer` are its properties |
| MrpcEval.FewShotContextConcat | glue_eval/mrpc_eval.py:27-29 | the context of two runs of exemplars is the two contexts one after the other |
| MrpcEval.CreatePrompt | glue_eval/mrpc_eval.py:34-40 | the prompt starts with the context and the prefix prompt and ends with `Answer:`; the sentences and label pass through unchanged |
| MrpcEval.PromptExtendsContext | glue_eval/mrpc_eval.py:29-38 | a query prompt followed by `" " + label word + "\n"` is exactly the context with that row as one more exemplar |
| MrpcEval.GetAnswer | glue_eval/mrpc_eval.py:43-51 | the answer is 1, 0 or -1 |
| MrpcEval.GetAnswerCases | glue_eval/mrpc_eval.py:44-51 | on the text after the last `Answer:`: 1 iff "Yes" occurs; 0 iff "No" occurs and "Yes" does not; -1 iff neither occurs |
| MrpcEval.AnswerOfContinuation | glue_eval/mrpc_eval.py:38-44 | for a prompt ending in `Answer:`, the answer to prompt plus generation is the answer to the generation alone, unless the generation writes `Answer:` again |
| MrpcEval.PromptAloneIsInvalid | glue_eval/mrpc_eval.py:38-51 | a generation that adds nothing to the query prompt is invalid (-1) |
| MrpcEval.LabelAnswer | glue_eval/mrpc_eval.py:44-51 | the rendered label word reads back as the label: 0 as 0 and any other label as 1 |
| MrpcEval.StanzaAnswer | glue_eval/mrpc_eval.py:29-51 | text that ends in an exemplar stanza reads back as that exemplar's label |
| MrpcEval.FewShotContextAnswer | glue_eval/mrpc_eval.py:27-51 | the nonempty context, parsed as a generation, yields the last exemplar's label |
| MrpcEval.PredictByLikelihood | glue_eval/mrpc_eval.py:127 | the likelihood prediction is 0 or 1 |
| MrpcEval.LikelihoodSwap | glue_eval/mrpc_eval.py:127 | the prediction is 1 iff `prob_yes > prob_no` strictly; a tie gives 0; swapping distinct likelihoods flips it |
| MrpcEval.Observe | glue_eval/mrpc_eval.py:122-163 | the record of one row from the model's output: the sentences and label pass through; the answer is 1, 0 or -1; `invalid` holds iff the answer is -1; `correct` agrees with the counters' notion of correct whenever the label is not -1; `answer_new` is 1 iff `prob_yes > prob_no` and otherwise 0; the stored generation is no longer than the decoded one, and equal to it when the decoded prompt does not occur in it |
| MrpcEval.Run | glue_eval/mrpc_eval.py:80-163 | one row's record: the row's sentences and label pass through, and the stored prompt is the model's decoding of the query prompt built for that row |
| MrpcEval.Runs | glue_eval/mrpc_eval.py:78-164 | one stored record per evaluated row |
| MrpcEval.RunsAt | glue_eval/mrpc_eval.py:78-164 | record `i` is the outcome of row `i`'s prompt under the model |
| MrpcEval.Column | glue_eval/mrpc_eval.py:125-127 | each collected list has one entry per record |
| MrpcEval.ColumnAt | glue_eval/mrpc_eval.py:125-127 | entry `i` of a list is that field of record `i` |
| MrpcEval.Step | glue_eval/mrpc_eval.py:130-148 | (definition) how one record moves the seven counters; `TallyCounts` states what they count |
| MrpcEval.Tally | glue_eval/mrpc_eval.py:63-148 | (definition) the counters after the records, starting from zero; `TallyCounts`, `TallyTotal` and `TallyByClass` are its properties |
| MrpcEval.CountWhere | glue_eval/mrpc_eval.py:130-148 | a count of records never exceeds their number |
| MrpcEval.TallyCounts | glue_eval/mrpc_eval.py:130-148 | each of the seven counters counts the records of its kind (invalid: answer -1; correct: valid and equal to the label; positive/negative: label 1/0) |
| MrpcEval.TallyTotal | glue_eval/mrpc_eval.py:130-143 | `correct + incorrect + invalid` is the number of rows |
| MrpcEval.TallyByClass | glue_eval/mrpc_eval.py:137-148 | `pos_correct + neg_correct <= correct` and `pos_incorrect + neg_incorrect <= incorrect`, with equality when every label is 0 or 1 |
| MrpcEval.ScoreRow | glue_eval/mrpc_eval.py:80-163 | the loop body's record is `Run`'s; for the caller: the sentences and label pass through, `invalid` holds iff the answer is -1, `correct` agrees with the counters whenever the label is not -1, `answer_new` is 1 iff the model's `prob_yes > prob_no`, and the stored generation is no longer than the decoded one |
| MrpcEval.CountAnswer | glue_eval/mrpc_eval.py:130-148 | the counter updates of one row, as the fold's step |
| MrpcEval.EvaluateRows | glue_eval/mrpc_eval.py:63-164 | after the loop, the stored records are the rows' outcomes in order, the counters are their tally, and the three lists are their labels, answers and likelihood predictions |
| MrpcEval.RecordSnoc | glue_eval/mrpc_eval.py:125-164 | one more row appends one record and one entry to every list, and moves the counters by one step |
| MrpcEval.MRPCEval.Evaluate | glue_eval/mrpc_eval.py:54-189 | an error iff the evaluation set is empty; otherwise the records are the rows' outcomes, `total` is the set's length and equals `correct + incorrect + invalid`, each counter counts its kind, and the lists are the records' columns |

## Left out

- Model forward passes, `generate`, tokenizer encode/decode, `log_softmax`, `np.exp`, the shifted logit indexing, the llama token slicing and `gen_len` (`glue_eval/mrpc_eval.py:55-61`, `81-121`). These are foreign tensor calls and floating-point work. Their results enter as the `ModelOutput` oracle.
- `matthews_corrcoef` and `f1_score` (`glue_eval/mrpc_eval.py:167-168`, `175-177`). These are library floating-point metrics. The summary carries the label and prediction lists they are computed from.
- `time.time`, the `print` calls, the `print_logs` branch, CUDA placement and the `__main__` block. These are I/O and environment.
- The `print(self.few_show_context)` at `glue_eval/mrpc_eval.py:31`. As written it reads an attribute that is never set. This is a crash path, and the model treats it as the print it was meant to be.
- Dataset loading and saving: `load_dataset` and `save_data` (`glue_eval/dataset/create_glue_subset.py:30-31`, `56`) and `load_data_split` (`glue_eval/mrpc_eval.py:18`). These are I/O. `load_data_split` is also not imported. The exemplars, the evaluation split and the MMLU split are parameters.
- The `model` and `tokenizer` fields of `MRPCEval`. They are the oracle passed to `Evaluate`.
- The seeded generator (`random.seed(37)`) and `randbelow`'s rejection sampling. The draws are an arbitrary `rand` parameter, so no particular permutation is modelled.
- GlueSubset.Shuffle: states only that each group is permuted, not which permutation results. The permutation depends on the draws.
- The commented-out GLUE variant (`glue_eval/dataset/create_glue_subset.py:9-27`). It is dead code.
- In-place list mutation: `classwise[...].append`, `random.shuffle` on the dictionary's lists and the evaluation lists are modelled on `seq` and `map` values that the loops reassign. Aliasing between the dictionary's lists and other references is not modelled, and the source has none.
- The pos/neg counters are only printed in the source. The model computes them and proves their relation to the other counters.
- The `'time'` entry of `result_dict`, because it comes from the clock.
