/**
 * The paraphrase (MRPC) evaluator of glue_eval/mrpc_eval.py: the few-shot
 * context built from labelled exemplars, the query prompt, the parser that
 * reads a Yes/No answer out of generated text, and the fold over the
 * evaluation set that counts correct, incorrect and invalid answers.
 *
 * The language model and its tokenizer are an oracle: for each query prompt
 * it yields the decoded prompt, the greedy continuation and the two
 * candidate likelihoods.  Whatever they are, the counting is proved.
 */
module MrpcEval {
  import opened Wrappers
  import opened PyStrings

  const MAX_NUMBER_OF_FEW_SHOTS: int := 50
  const PREFIX_PROMPT: string := "Are the sentences paraphrases of each other.\n"
  const POSTFIX_PROMPT: string := "Answer:"

  /** One MRPC row: two sentences and the gold label (1 paraphrase, 0 not). */
  datatype Example = Example(sentence1: string, sentence2: string, gold: int)

  /** What `_create_prompt` returns: the query prompt and the row passed through. */
  datatype Prompt = Prompt(inputPrompt: string, sentence1: string, sentence2: string, gold: int)

  /** What the model and tokenizer produce for one query prompt. */
  datatype ModelOutput = ModelOutput(
    promptText: string,     // the prompt after an encode/decode round trip
    generatedText: string,  // the decoded greedy generation, prompt included
    probYes: real,          // exp(-mean negative log-likelihood) of " Yes"
    probNo: real,           // the same for " No"
    genTextNew: string)     // the argmax decoding under the " Yes" candidate

  /** One entry of `stored_generations`. */
  datatype Record = Record(
    sentence1: string, sentence2: string, gold: int,
    inputPrompt: string, generatedText: string, answer: int,
    probYes: real, probNo: real, genTextNew: string, answerNew: int,
    correct: bool, invalid: bool)

  /** The seven counters of the evaluation loop. */
  datatype Counters = Counters(
    correct: nat, incorrect: nat, invalid: nat,
    posCorrect: nat, negCorrect: nat, posIncorrect: nat, negIncorrect: nat)

  /**
   * `result_dict`: the counters, the total, and in place of the F1 and MCC
   * scores the label and prediction lists they are computed from.
   */
  datatype Summary = Summary(
    counters: Counters, total: nat,
    labels: seq<int>, predictions: seq<int>, predictionsNew: seq<int>)

  datatype Evaluation = Evaluation(resultDict: Summary, storedGenerations: seq<Record>)

  datatype ConfigError = TooManyFewShots
  datatype EvalError = EmptyEvalDataset

  // ---------------------------------------------------------------------
  // Configuration
  // ---------------------------------------------------------------------

  /** Python's `s[:n]`: a negative `n` drops that many items from the end. */
  function PrefixSlice<T>(s: seq<T>, n: int): (r: seq<T>)
    ensures r <= s
    ensures 0 <= n ==> |r| == if n < |s| then n else |s|
    ensures n < 0 ==> |r| == if -n < |s| then |s| + n else 0
  {
    if 0 <= n then (if n < |s| then s[..n] else s)
    else if -n < |s| then s[..|s| + n]
    else []
  }

  /** The evaluation set kept by the constructor. */
  function TestSubset(evalSplit: seq<Example>, numberOfTests: Option<int>): (r: seq<Example>)
    ensures r <= evalSplit
    ensures numberOfTests.None? ==> r == evalSplit
    ensures numberOfTests.Some? && 0 <= numberOfTests.value ==>
      |r| == if numberOfTests.value < |evalSplit| then numberOfTests.value else |evalSplit|
  {
    if numberOfTests.Some? then PrefixSlice(evalSplit, numberOfTests.value) else evalSplit
  }

  // ---------------------------------------------------------------------
  // Prompts
  // ---------------------------------------------------------------------

  /** How a few-shot exemplar's label is rendered. */
  function LabelWord(gold: int): (w: string)
    ensures w == "No" || w == "Yes"
    ensures w == "No" <==> gold == 0
  {
    if gold == 0 then "No" else "Yes"
  }

  /** The label the answer parser reads back from a rendered exemplar. */
  function LabelBit(gold: int): int
  {
    if gold == 0 then 0 else 1
  }

  /** The question about one row, up to and excluding the answer marker. */
  function Query(sentence1: string, sentence2: string): string
  {
    PREFIX_PROMPT + "Sentence 1: " + sentence1 + "\nSentence 2: " + sentence2 + "\n"
  }

  /** One labelled exemplar of the few-shot context. */
  function Stanza(shot: Example): string
  {
    Query(shot.sentence1, shot.sentence2) + "Answer: " + LabelWord(shot.gold) + "\n"
  }

  /** `render` applied to each exemplar, concatenated in order. */
  function ConcatMap(shots: seq<Example>, render: Example -> string): string
  {
    if shots == [] then "" else ConcatMap(shots[..|shots| - 1], render) + render(shots[|shots| - 1])
  }

  lemma {:induction false} ConcatMapAppend(a: seq<Example>, b: seq<Example>, render: Example -> string)
    ensures ConcatMap(a + b, render) == ConcatMap(a, render) + ConcatMap(b, render)
    decreases |b|
  {
    if b == [] {
      assert a + b == a;
    } else {
      var b' := b[..|b| - 1];
      assert (a + b)[..|a + b| - 1] == a + b';
      assert (a + b)[|a + b| - 1] == b[|b| - 1];
      ConcatMapAppend(a, b', render);
    }
  }

  /** The exemplars' stanzas, concatenated in order. */
  function FewShotContext(shots: seq<Example>): string
  {
    ConcatMap(shots, Stanza)
  }

  /** The context of two runs of exemplars is the two contexts, one after the other. */
  lemma {:induction false} FewShotContextConcat(a: seq<Example>, b: seq<Example>)
    ensures FewShotContext(a + b) == FewShotContext(a) + FewShotContext(b)
  {
    ConcatMapAppend(a, b, Stanza);
  }

  /** The query prompt: the context, then the question, then the answer marker. */
  function CreatePrompt(fewShotContext: string, example: Example): (r: Prompt)
    ensures r.sentence1 == example.sentence1 && r.sentence2 == example.sentence2
    ensures r.gold == example.gold
    ensures fewShotContext + PREFIX_PROMPT <= r.inputPrompt
    ensures EndsWith(r.inputPrompt, POSTFIX_PROMPT)
  {
    var input := fewShotContext + Query(example.sentence1, example.sentence2) + POSTFIX_PROMPT;
    assert input[..|fewShotContext + PREFIX_PROMPT|] == fewShotContext + PREFIX_PROMPT;
    assert input[|input| - |POSTFIX_PROMPT|..] == POSTFIX_PROMPT;
    Prompt(input, example.sentence1, example.sentence2, example.gold)
  }

  /** A query is an exemplar cut just before its rendered label. */
  lemma {:induction false} PromptExtendsContext(shots: seq<Example>, example: Example)
    ensures CreatePrompt(FewShotContext(shots), example).inputPrompt + " " + LabelWord(example.gold) + "\n"
            == FewShotContext(shots + [example])
  {
    assert (shots + [example])[..|shots|] == shots;
    assert "Answer: " == POSTFIX_PROMPT + " ";
  }

  // ---------------------------------------------------------------------
  // Reading the answer
  // ---------------------------------------------------------------------

  /**
   * `generated_text.split('Answer:')[-1].strip().strip()`, then 1 when it
   * mentions "Yes", else 0 when it mentions "No", else -1.
   */
  function GetAnswer(generatedText: string): (a: int)
    ensures a == 1 || a == 0 || a == -1
  {
    var answerText := Strip(Strip(LastPiece(generatedText, POSTFIX_PROMPT)));
    if Contains(answerText, "Yes") then 1
    else if Contains(answerText, "No") then 0
    else -1
  }

  lemma {:induction false} AnswerWords()
    ensures NoSpace("Yes") && NoSpace("No")
  {
    assert forall i :: 0 <= i < |"Yes"| ==> "Yes"[i] in {'Y', 'e', 's'};
    assert forall i :: 0 <= i < |"No"| ==> "No"[i] in {'N', 'o'};
  }

  /** The answer depends only on which words follow the last marker. */
  lemma {:induction false} GetAnswerCases(generatedText: string)
    ensures var t := LastPiece(generatedText, POSTFIX_PROMPT);
      && (GetAnswer(generatedText) == 1 <==> Contains(t, "Yes"))
      && (GetAnswer(generatedText) == 0 <==> !Contains(t, "Yes") && Contains(t, "No"))
      && (GetAnswer(generatedText) == -1 <==> !Contains(t, "Yes") && !Contains(t, "No"))
  {
    var t := LastPiece(generatedText, POSTFIX_PROMPT);
    AnswerWords();
    StripKeepsWords(t, "Yes");
    StripKeepsWords(Strip(t), "Yes");
    StripKeepsWords(t, "No");
    StripKeepsWords(Strip(t), "No");
  }

  lemma {:induction false} MarkerHeadUnique()
    ensures HeadUnique(POSTFIX_PROMPT)
  {
    assert forall i :: 1 <= i < |POSTFIX_PROMPT| ==> POSTFIX_PROMPT[i] in {'n', 's', 'w', 'e', 'r', ':'};
  }

  /**
   * Text generated after a prompt that ends in the marker is read on its
   * own, provided the generation does not write the marker again.
   */
  lemma {:induction false} AnswerOfContinuation(prompt: string, continuation: string)
    requires EndsWith(prompt, POSTFIX_PROMPT)
    requires !Contains(continuation, POSTFIX_PROMPT)
    ensures GetAnswer(prompt + continuation) == GetAnswer(continuation)
  {
    var p := prompt[..|prompt| - |POSTFIX_PROMPT|];
    assert prompt == p + POSTFIX_PROMPT;
    assert prompt + continuation == p + POSTFIX_PROMPT + continuation;
    MarkerHeadUnique();
    LastPieceAfterSep(p, POSTFIX_PROMPT, continuation);
    LastPieceWithoutSep(continuation, POSTFIX_PROMPT);
  }

  /** A generation that adds nothing after the prompt is invalid. */
  lemma {:induction false} PromptAloneIsInvalid(fewShotContext: string, example: Example)
    ensures GetAnswer(CreatePrompt(fewShotContext, example).inputPrompt) == -1
  {
    var prompt := CreatePrompt(fewShotContext, example).inputPrompt;
    AnswerOfContinuation(prompt, "");
    assert prompt + "" == prompt;
    assert Strip(Strip(LastPiece("", POSTFIX_PROMPT))) == "";
  }

  /** The rendered label alone reads back as the label: 0 as 0, any other as 1. */
  lemma {:induction false} LabelAnswer(gold: int)
    ensures !Contains(" " + LabelWord(gold) + "\n", POSTFIX_PROMPT)
    ensures GetAnswer(" " + LabelWord(gold) + "\n") == LabelBit(gold)
  {
    var u := " " + LabelWord(gold) + "\n";
    assert !Contains(u, POSTFIX_PROMPT);
    LastPieceWithoutSep(u, POSTFIX_PROMPT);
    GetAnswerCases(u);
    if gold == 0 {
      assert u[1..][..2] == "No";
      assert Find(u, "No") == Some(1);
      assert u[1..][..3] != "Yes";
      assert Find(u, "Yes") == None;
    } else {
      assert u[1..][..3] == "Yes";
      assert Find(u, "Yes") == Some(1);
    }
  }

  /** Every rendered exemplar reads back as its label, whatever precedes it. */
  lemma {:induction false} StanzaAnswer(before: string, shot: Example)
    ensures GetAnswer(before + Stanza(shot)) == LabelBit(shot.gold)
  {
    var p := before + Query(shot.sentence1, shot.sentence2) + POSTFIX_PROMPT;
    var u := " " + LabelWord(shot.gold) + "\n";
    assert before + Stanza(shot) == p + u;
    assert EndsWith(p, POSTFIX_PROMPT) by {
      assert p[|p| - |POSTFIX_PROMPT|..] == POSTFIX_PROMPT;
    }
    LabelAnswer(shot.gold);
    AnswerOfContinuation(p, u);
  }

  /** The few-shot context, parsed as a generation, yields the last exemplar's label. */
  lemma {:induction false} FewShotContextAnswer(shots: seq<Example>)
    requires shots != []
    ensures GetAnswer(FewShotContext(shots)) == LabelBit(shots[|shots| - 1].gold)
  {
    StanzaAnswer(FewShotContext(shots[..|shots| - 1]), shots[|shots| - 1]);
  }

  /** `1 if prob_yes > prob_no else 0`. */
  function PredictByLikelihood(probYes: real, probNo: real): (p: int)
    ensures p == 0 || p == 1
  {
    if probYes > probNo then 1 else 0
  }

  /** Swapping the likelihoods flips the prediction; a tie goes to "No" either way. */
  lemma {:induction false} LikelihoodSwap(probYes: real, probNo: real)
    ensures probYes != probNo ==> PredictByLikelihood(probYes, probNo) + PredictByLikelihood(probNo, probYes) == 1
    ensures probYes == probNo ==> PredictByLikelihood(probYes, probNo) == 0
    ensures PredictByLikelihood(probYes, probNo) == 1 <==> probNo < probYes
  {
  }

  // ---------------------------------------------------------------------
  // The evaluation fold, on values
  // ---------------------------------------------------------------------

  /**
   * The record stored for one row, given what the model produced for its
   * prompt: the row passes through, the `invalid` flag marks an unparsed
   * answer, the `correct` flag agrees with the counters whenever the label
   * is not -1, the likelihood prediction is 1 exactly when "Yes" is the more
   * likely, and removing the prompt never lengthens the generation.
   */
  function Observe(prompt: Prompt, out: ModelOutput): (r: Record)
    ensures r.sentence1 == prompt.sentence1 && r.sentence2 == prompt.sentence2 && r.gold == prompt.gold
    ensures r.inputPrompt == out.promptText
    ensures r.answer == 1 || r.answer == 0 || r.answer == -1
    ensures r.invalid <==> IsInvalid(r)
    ensures prompt.gold != -1 ==> (r.correct <==> IsCorrect(r))
    ensures r.answerNew == 1 <==> out.probNo < out.probYes
    ensures r.answerNew == 0 || r.answerNew == 1
    ensures |r.generatedText| <= |out.generatedText|
    ensures !Contains(out.generatedText, out.promptText) ==> r.generatedText == out.generatedText
  {
    RemoveAllShrinks(out.generatedText, out.promptText);
    var answer := GetAnswer(out.generatedText);
    Record(prompt.sentence1, prompt.sentence2, prompt.gold,
           out.promptText, RemoveAll(out.generatedText, out.promptText), answer,
           out.probYes, out.probNo, out.genTextNew, PredictByLikelihood(out.probYes, out.probNo),
           answer == prompt.gold, answer == -1)
  }

  /** One row of the loop: prompt, query the model, record. */
  function Run(fewShotContext: string, example: Example, model: string -> ModelOutput): (r: Record)
    ensures r.sentence1 == example.sentence1 && r.sentence2 == example.sentence2 && r.gold == example.gold
    ensures r.inputPrompt == model(CreatePrompt(fewShotContext, example).inputPrompt).promptText
  {
    var prompt := CreatePrompt(fewShotContext, example);
    Observe(prompt, model(prompt.inputPrompt))
  }

  /** The records of a run over `examples`, in order. */
  function Runs(fewShotContext: string, examples: seq<Example>, model: string -> ModelOutput): (rs: seq<Record>)
    ensures |rs| == |examples|
  {
    if examples == [] then []
    else Runs(fewShotContext, examples[..|examples| - 1], model) + [Run(fewShotContext, examples[|examples| - 1], model)]
  }

  lemma {:induction false} RunsAt(fewShotContext: string, examples: seq<Example>, model: string -> ModelOutput, i: int)
    requires 0 <= i < |examples|
    ensures Runs(fewShotContext, examples, model)[i] == Run(fewShotContext, examples[i], model)
  {
    var init := examples[..|examples| - 1];
    if i < |init| {
      assert examples[i] == init[i];
      RunsAt(fewShotContext, init, model, i);
    }
  }

  /** One integer field of every record, in order, as the evaluation lists collect it. */
  function Column(rs: seq<Record>, field: Record -> int): (c: seq<int>)
    ensures |c| == |rs|
  {
    if rs == [] then [] else Column(rs[..|rs| - 1], field) + [field(rs[|rs| - 1])]
  }

  lemma {:induction false} ColumnAt(rs: seq<Record>, field: Record -> int, i: int)
    requires 0 <= i < |rs|
    ensures Column(rs, field)[i] == field(rs[i])
  {
    var init := rs[..|rs| - 1];
    if i < |init| {
      assert rs[i] == init[i];
      ColumnAt(init, field, i);
    }
  }

  function GoldOf(r: Record): int { r.gold }
  function AnswerOf(r: Record): int { r.answer }
  function AnswerNewOf(r: Record): int { r.answerNew }

  /** How one record moves the counters. */
  function Step(c: Counters, r: Record): Counters
  {
    if r.answer == -1 then c.(invalid := c.invalid + 1)
    else if r.answer == r.gold then
      c.(correct := c.correct + 1,
         posCorrect := c.posCorrect + (if r.gold == 1 then 1 else 0),
         negCorrect := c.negCorrect + (if r.gold == 0 then 1 else 0))
    else
      c.(incorrect := c.incorrect + 1,
         posIncorrect := c.posIncorrect + (if r.gold == 1 then 1 else 0),
         negIncorrect := c.negIncorrect + (if r.gold == 0 then 1 else 0))
  }

  /** The counters after the records, starting from zero. */
  function Tally(rs: seq<Record>): Counters
  {
    if rs == [] then Counters(0, 0, 0, 0, 0, 0, 0)
    else Step(Tally(rs[..|rs| - 1]), rs[|rs| - 1])
  }

  predicate IsInvalid(r: Record) { r.answer == -1 }
  predicate IsCorrect(r: Record) { r.answer != -1 && r.answer == r.gold }
  predicate IsIncorrect(r: Record) { r.answer != -1 && r.answer != r.gold }
  predicate IsPosCorrect(r: Record) { IsCorrect(r) && r.gold == 1 }
  predicate IsNegCorrect(r: Record) { IsCorrect(r) && r.gold == 0 }
  predicate IsPosIncorrect(r: Record) { IsIncorrect(r) && r.gold == 1 }
  predicate IsNegIncorrect(r: Record) { IsIncorrect(r) && r.gold == 0 }

  /** How many records satisfy `p`. */
  function CountWhere(rs: seq<Record>, p: Record -> bool): (n: nat)
    ensures n <= |rs|
  {
    if rs == [] then 0 else (if p(rs[0]) then 1 else 0) + CountWhere(rs[1..], p)
  }

  lemma {:induction false} CountWhereSnoc(rs: seq<Record>, r: Record, p: Record -> bool)
    ensures CountWhere(rs + [r], p) == CountWhere(rs, p) + (if p(r) then 1 else 0)
  {
    if rs != [] {
      assert (rs + [r])[1..] == rs[1..] + [r];
      CountWhereSnoc(rs[1..], r, p);
    } else {
      assert ([] + [r])[1..] == [];
    }
  }

  /** Each counter counts the records of its kind. */
  lemma {:induction false} TallyCounts(rs: seq<Record>)
    ensures Tally(rs).invalid == CountWhere(rs, IsInvalid)
    ensures Tally(rs).correct == CountWhere(rs, IsCorrect)
    ensures Tally(rs).incorrect == CountWhere(rs, IsIncorrect)
    ensures Tally(rs).posCorrect == CountWhere(rs, IsPosCorrect)
    ensures Tally(rs).negCorrect == CountWhere(rs, IsNegCorrect)
    ensures Tally(rs).posIncorrect == CountWhere(rs, IsPosIncorrect)
    ensures Tally(rs).negIncorrect == CountWhere(rs, IsNegIncorrect)
  {
    if rs != [] {
      var init, last := rs[..|rs| - 1], rs[|rs| - 1];
      assert rs == init + [last];
      TallyCounts(init);
      CountWhereSnoc(init, last, IsInvalid);
      CountWhereSnoc(init, last, IsCorrect);
      CountWhereSnoc(init, last, IsIncorrect);
      CountWhereSnoc(init, last, IsPosCorrect);
      CountWhereSnoc(init, last, IsNegCorrect);
      CountWhereSnoc(init, last, IsPosIncorrect);
      CountWhereSnoc(init, last, IsNegIncorrect);
    }
  }

  /** Every record is counted exactly once among correct, incorrect and invalid. */
  lemma {:induction false} TallyTotal(rs: seq<Record>)
    ensures Tally(rs).correct + Tally(rs).incorrect + Tally(rs).invalid == |rs|
  {
    if rs != [] {
      TallyTotal(rs[..|rs| - 1]);
    }
  }

  /**
   * The class-conditioned counters split the correct and incorrect ones,
   * exactly when every label is 0 or 1.
   */
  lemma {:induction false} TallyByClass(rs: seq<Record>)
    ensures Tally(rs).posCorrect + Tally(rs).negCorrect <= Tally(rs).correct
    ensures Tally(rs).posIncorrect + Tally(rs).negIncorrect <= Tally(rs).incorrect
    ensures (forall i :: 0 <= i < |rs| ==> rs[i].gold == 0 || rs[i].gold == 1) ==>
      Tally(rs).posCorrect + Tally(rs).negCorrect == Tally(rs).correct &&
      Tally(rs).posIncorrect + Tally(rs).negIncorrect == Tally(rs).incorrect
  {
    if rs != [] {
      var init := rs[..|rs| - 1];
      assert forall i :: 0 <= i < |init| ==> init[i] == rs[i];
      TallyByClass(init);
    }
  }

  // ---------------------------------------------------------------------
  // The evaluator object
  // ---------------------------------------------------------------------

  class MRPCEval {
    var numberOfTests: Option<int>
    var numberOfFewShots: int
    var fewShots: seq<Example>
    var evalDataset: seq<Example>
    var prefixPrompt: string
    var postfixPrompt: string
    var fewShotContext: string

    /** The state `__init__` leaves behind. */
    ghost predicate Valid()
      reads this
    {
      && numberOfFewShots < MAX_NUMBER_OF_FEW_SHOTS
      && prefixPrompt == PREFIX_PROMPT
      && postfixPrompt == POSTFIX_PROMPT
      && fewShotContext == FewShotContext(fewShots)
    }

    /**
     * `__init__`, with the loaded exemplars and evaluation split passed in.
     * The source rejects 50 or more few shots with an assertion.
     */
    constructor (numberOfTests: Option<int>, numberOfFewShots: int, fewShots: seq<Example>, evalSplit: seq<Example>)
      requires numberOfFewShots < MAX_NUMBER_OF_FEW_SHOTS
      ensures Valid()
      ensures this.numberOfTests == numberOfTests && this.numberOfFewShots == numberOfFewShots
      ensures this.fewShots == fewShots
      ensures evalDataset == TestSubset(evalSplit, numberOfTests)
    {
      this.numberOfTests := numberOfTests;
      this.numberOfFewShots := numberOfFewShots;
      this.fewShots := fewShots;
      this.evalDataset := TestSubset(evalSplit, numberOfTests);
      this.prefixPrompt := PREFIX_PROMPT;
      this.postfixPrompt := POSTFIX_PROMPT;
      this.fewShotContext := "";
      new;
      InitializePrompts();
    }

    /** `_initialize_prompts`: set the marker strings and build the context stanza by stanza. */
    method InitializePrompts()
      modifies this
      ensures prefixPrompt == PREFIX_PROMPT && postfixPrompt == POSTFIX_PROMPT
      ensures fewShotContext == FewShotContext(fewShots)
      ensures numberOfTests == old(numberOfTests) && numberOfFewShots == old(numberOfFewShots)
      ensures fewShots == old(fewShots) && evalDataset == old(evalDataset)
    {
      prefixPrompt := PREFIX_PROMPT;
      postfixPrompt := POSTFIX_PROMPT;
      fewShotContext := "";
      for i := 0 to |fewShots|
        invariant prefixPrompt == PREFIX_PROMPT && postfixPrompt == POSTFIX_PROMPT
        invariant numberOfTests == old(numberOfTests) && numberOfFewShots == old(numberOfFewShots)
        invariant fewShots == old(fewShots) && evalDataset == old(evalDataset)
        invariant fewShotContext == FewShotContext(fewShots[..i])
      {
        assert fewShots[..i + 1][..i] == fewShots[..i];
        fewShotContext := fewShotContext + Stanza(fewShots[i]);
      }
      assert fewShots[..|fewShots|] == fewShots;
    }

    /**
     * `evaluate`: runs the evaluation set through the model, one record
     * per row, and counts the answers.
     */
    method Evaluate(model: string -> ModelOutput) returns (r: Result<Evaluation, EvalError>)
      requires Valid()
      ensures r.Err? <==> evalDataset == []
      ensures r.Ok? ==>
        var stored := r.value.storedGenerations;
        var summary := r.value.resultDict;
        && stored == Runs(fewShotContext, evalDataset, model)
        && summary.counters == Tally(stored)
        && summary.total == |evalDataset|
        && summary.counters.correct + summary.counters.incorrect + summary.counters.invalid == summary.total
        && summary.counters.correct == CountWhere(stored, IsCorrect)
        && summary.counters.incorrect == CountWhere(stored, IsIncorrect)
        && summary.counters.invalid == CountWhere(stored, IsInvalid)
        && summary.labels == Column(stored, GoldOf)
        && summary.predictions == Column(stored, AnswerOf)
        && summary.predictionsNew == Column(stored, AnswerNewOf)
    {
      var storedGenerations, counters, labels, predictions, predictionsNew := EvaluateRows(fewShotContext, evalDataset, model);
      if evalDataset == [] {
        // `s + 1` at the end names a loop variable that was never bound
        r := Err(EmptyEvalDataset);
      } else {
        TallyTotal(storedGenerations);
        TallyCounts(storedGenerations);
        r := Ok(Evaluation(Summary(counters, |evalDataset|, labels, predictions, predictionsNew), storedGenerations));
      }
    }
  }

  /** The loop of `evaluate` over the rows, collecting records, counters and lists. */
  method EvaluateRows(fewShotContext: string, examples: seq<Example>, model: string -> ModelOutput)
    returns (storedGenerations: seq<Record>, counters: Counters, labels: seq<int>, predictions: seq<int>, predictionsNew: seq<int>)
    ensures storedGenerations == Runs(fewShotContext, examples, model)
    ensures counters == Tally(storedGenerations)
    ensures labels == Column(storedGenerations, GoldOf)
    ensures predictions == Column(storedGenerations, AnswerOf)
    ensures predictionsNew == Column(storedGenerations, AnswerNewOf)
  {
    counters := Counters(0, 0, 0, 0, 0, 0, 0);
    predictions, labels, predictionsNew := [], [], [];
    storedGenerations := [];
    for s := 0 to |examples|
      invariant storedGenerations == Runs(fewShotContext, examples[..s], model)
      invariant counters == Tally(storedGenerations)
      invariant labels == Column(storedGenerations, GoldOf)
      invariant predictions == Column(storedGenerations, AnswerOf)
      invariant predictionsNew == Column(storedGenerations, AnswerNewOf)
    {
      var record := ScoreRow(fewShotContext, examples[s], model);
      predictions := predictions + [record.answer];
      labels := labels + [record.gold];
      predictionsNew := predictionsNew + [record.answerNew];
      counters := CountAnswer(counters, record);
      RecordSnoc(fewShotContext, examples, model, s, storedGenerations);
      storedGenerations := storedGenerations + [record];
    }
    assert examples[..|examples|] == examples;
  }

  /** One more row of the evaluation loop extends every column by that row's record. */
  lemma {:induction false} RecordSnoc(fewShotContext: string, examples: seq<Example>, model: string -> ModelOutput, s: nat, rs: seq<Record>)
    requires s < |examples| && rs == Runs(fewShotContext, examples[..s], model)
    ensures var r := Run(fewShotContext, examples[s], model);
      && Runs(fewShotContext, examples[..s + 1], model) == rs + [r]
      && Tally(rs + [r]) == Step(Tally(rs), r)
      && Column(rs + [r], GoldOf) == Column(rs, GoldOf) + [r.gold]
      && Column(rs + [r], AnswerOf) == Column(rs, AnswerOf) + [r.answer]
      && Column(rs + [r], AnswerNewOf) == Column(rs, AnswerNewOf) + [r.answerNew]
  {
    var r := Run(fewShotContext, examples[s], model);
    assert examples[..s + 1][..s] == examples[..s];
    assert (rs + [r])[..s] == rs;
  }

  /** The body of the evaluation loop up to the counters: prompt, query, parse, record. */
  method ScoreRow(fewShotContext: string, example: Example, model: string -> ModelOutput) returns (record: Record)
    ensures record == Run(fewShotContext, example, model)
    ensures record.sentence1 == example.sentence1 && record.sentence2 == example.sentence2 && record.gold == example.gold
    ensures record.invalid <==> IsInvalid(record)
    ensures example.gold != -1 ==> (record.correct <==> IsCorrect(record))
    ensures var out := model(CreatePrompt(fewShotContext, example).inputPrompt);
      && (record.answerNew == 1 <==> out.probNo < out.probYes)
      && |record.generatedText| <= |out.generatedText|
  {
    var prompt := CreatePrompt(fewShotContext, example);
    var out := model(prompt.inputPrompt);
    var gold := prompt.gold;
    var answer := GetAnswer(out.generatedText);
    var answerNew := PredictByLikelihood(out.probYes, out.probNo);
    record := Record(prompt.sentence1, prompt.sentence2, gold,
                     out.promptText, RemoveAll(out.generatedText, out.promptText), answer,
                     out.probYes, out.probNo, out.genTextNew, answerNew,
                     answer == gold, answer == -1);
  }

  /** The counter updates of the evaluation loop for one record. */
  method CountAnswer(c: Counters, record: Record) returns (d: Counters)
    ensures d == Step(c, record)
  {
    d := c;
    var answer, gold := record.answer, record.gold;
    if answer == -1 {
      d := d.(invalid := d.invalid + 1);
    } else if answer == gold {
      d := d.(correct := d.correct + 1);
      if gold == 1 {
        d := d.(posCorrect := d.posCorrect + 1);
      } else if gold == 0 {
        d := d.(negCorrect := d.negCorrect + 1);
      }
    } else {
      d := d.(incorrect := d.incorrect + 1);
      if gold == 1 {
        d := d.(posIncorrect := d.posIncorrect + 1);
      } else if gold == 0 {
        d := d.(negIncorrect := d.negIncorrect + 1);
      }
    }
  }

  /** Construction with the source's assertion as an error result. */
  method NewMRPCEval(numberOfTests: Option<int>, numberOfFewShots: int, fewShots: seq<Example>, evalSplit: seq<Example>)
    returns (r: Result<MRPCEval, ConfigError>)
    ensures r.Err? <==> MAX_NUMBER_OF_FEW_SHOTS <= numberOfFewShots
    ensures r.Ok? ==> fresh(r.value) && r.value.Valid()
    ensures r.Ok? ==> r.value.fewShots == fewShots && r.value.evalDataset == TestSubset(evalSplit, numberOfTests)
  {
    if numberOfFewShots < MAX_NUMBER_OF_FEW_SHOTS {
      var e := new MRPCEval(numberOfTests, numberOfFewShots, fewShots, evalSplit);
      r := Ok(e);
    } else {
      r := Err(TooManyFewShots);
    }
  }
}
