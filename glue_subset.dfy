/**
 * The class-balanced subset of the MMLU validation split built by
 * glue_eval/dataset/create_glue_subset.py: examples are grouped by their
 * `answer` into an insertion-ordered dictionary, each group is shuffled,
 * the smallest group size becomes the per-class quota, and the output takes
 * element `index` of every group, group by group, round after round.
 *
 * The dictionary `classwise` is modelled as its key order `order` (a Python
 * dict iterates in insertion order) and a `map` from answer to group.
 */
module GlueSubset {
  import opened Wrappers

  /** One MMLU row; only `answer` is looked at. */
  datatype Example = Example(question: string, subject: string, choices: seq<string>, answer: int)

  /** `min()` of an empty sequence raises `ValueError`. */
  datatype SubsetError = EmptyMinimum

  predicate Distinct(ls: seq<int>) {
    forall i, j :: 0 <= i < j < |ls| ==> ls[i] != ls[j]
  }

  // ----- grouping, lines 36-40 -----

  /** The distinct answers of `xs` in order of first appearance. */
  function Labels(xs: seq<Example>): seq<int>
  {
    if xs == [] then []
    else
      var ls := Labels(xs[..|xs| - 1]);
      var a := xs[|xs| - 1].answer;
      if a in ls then ls else ls + [a]
  }

  /** The examples of `xs` whose answer is `l`, in input order. */
  function Members(xs: seq<Example>, l: int): seq<Example>
  {
    if xs == [] then []
    else Members(xs[..|xs| - 1], l) + (if xs[|xs| - 1].answer == l then [xs[|xs| - 1]] else [])
  }

  lemma {:induction false} MembersOfAbsent(xs: seq<Example>, l: int)
    requires l !in Labels(xs)
    ensures Members(xs, l) == []
  {
    if xs != [] {
      MembersOfAbsent(xs[..|xs| - 1], l);
    }
  }

  /**
   * Lines 36-40: every example is appended to the group keyed by its answer;
   * an answer seen for the first time opens a new group at the end of the key order.
   */
  method GroupByAnswer(xs: seq<Example>) returns (order: seq<int>, classwise: map<int, seq<Example>>)
    ensures order == Labels(xs)
    ensures classwise.Keys == set l | l in order
    ensures forall l :: l in classwise ==> classwise[l] == Members(xs, l)
  {
    order, classwise := [], map[];
    for i := 0 to |xs|
      invariant order == Labels(xs[..i])
      invariant classwise.Keys == set l | l in order
      invariant forall l :: l in classwise ==> classwise[l] == Members(xs[..i], l)
    {
      var example := xs[i];
      assert xs[..i + 1][..i] == xs[..i];
      if example.answer !in classwise {
        MembersOfAbsent(xs[..i], example.answer);
        classwise := classwise[example.answer := [example]];
        order := order + [example.answer];
      } else {
        classwise := classwise[example.answer := classwise[example.answer] + [example]];
      }
    }
    assert xs[..|xs|] == xs;
  }

  /** The key order lists each answer of the input once, and no other value. */
  lemma {:induction false} LabelsAreTheAnswers(xs: seq<Example>)
    ensures Distinct(Labels(xs))
    ensures forall l :: l in Labels(xs) <==> exists i :: 0 <= i < |xs| && xs[i].answer == l
  {
    if xs != [] {
      var ys := xs[..|xs| - 1];
      LabelsAreTheAnswers(ys);
      forall l ensures (exists i :: 0 <= i < |xs| && xs[i].answer == l) <==> (l in Labels(ys) || l == xs[|xs| - 1].answer) {
        if exists i :: 0 <= i < |xs| && xs[i].answer == l {
          var i :| 0 <= i < |xs| && xs[i].answer == l;
          if i < |ys| {
            assert ys[i].answer == l;
          }
        }
        if l in Labels(ys) {
          var i :| 0 <= i < |ys| && ys[i].answer == l;
          assert xs[i].answer == l;
        }
      }
    }
  }

  /**
   * First-appearance order: the answers met in any prefix of the input are
   * a prefix of the key order.
   */
  lemma {:induction false} LabelsGrowAtTheEnd(xs: seq<Example>, i: nat)
    requires i <= |xs|
    ensures Labels(xs[..i]) <= Labels(xs)
    decreases |xs|
  {
    if i < |xs| {
      var ys := xs[..|xs| - 1];
      assert xs[..i] == ys[..i];
      LabelsGrowAtTheEnd(ys, i);
    } else {
      assert xs[..i] == xs;
    }
  }

  /** Every member of a group carries the group's answer. */
  lemma {:induction false} MembersHaveTheLabel(xs: seq<Example>, l: int)
    ensures forall e :: e in Members(xs, l) ==> e.answer == l
  {
    if xs != [] {
      MembersHaveTheLabel(xs[..|xs| - 1], l);
    }
  }

  /** The sum of the groups' multisets. */
  function Bag(gs: seq<seq<Example>>): multiset<Example>
  {
    if gs == [] then multiset{} else Bag(gs[..|gs| - 1]) + multiset(gs[|gs| - 1])
  }

  /** Appending `x` to one group adds `x` to the sum. */
  lemma {:induction false} BagAppend(gs: seq<seq<Example>>, c: nat, x: Example)
    requires c < |gs|
    ensures Bag(gs[c := gs[c] + [x]]) == Bag(gs) + multiset{x}
  {
    var n := |gs| - 1;
    var hs := gs[c := gs[c] + [x]];
    assert Bag(hs) == Bag(hs[..n]) + multiset(hs[n]);
    assert Bag(gs) == Bag(gs[..n]) + multiset(gs[n]);
    if c < n {
      assert hs[..n] == gs[..n][c := gs[..n][c] + [x]];
      assert hs[n] == gs[n];
      BagAppend(gs[..n], c, x);
    } else {
      assert hs[..n] == gs[..n];
      assert multiset(hs[n]) == multiset(gs[n]) + multiset{x};
    }
  }

  /** Groups whose multisets are pairwise no larger have a no larger sum. */
  lemma {:induction false} BagMonotone(gs: seq<seq<Example>>, hs: seq<seq<Example>>)
    requires |gs| == |hs|
    requires forall c :: 0 <= c < |gs| ==> multiset(gs[c]) <= multiset(hs[c])
    ensures Bag(gs) <= Bag(hs)
  {
    if gs != [] {
      BagMonotone(gs[..|gs| - 1], hs[..|hs| - 1]);
    }
  }

  /** The groups of `xs` for the labels `ls`, one per label. */
  function Groups(xs: seq<Example>, ls: seq<int>): (gs: seq<seq<Example>>)
    ensures |gs| == |ls|
  {
    seq(|ls|, c requires 0 <= c < |ls| => Members(xs, ls[c]))
  }

  /**
   * Grouping partitions the input: with each answer listed once, the groups
   * together hold every example exactly once.
   */
  lemma {:induction false} GroupsPartition(xs: seq<Example>, ls: seq<int>)
    requires Distinct(ls)
    requires forall i :: 0 <= i < |xs| ==> xs[i].answer in ls
    ensures Bag(Groups(xs, ls)) == multiset(xs)
  {
    if xs == [] {
      EmptyGroups(ls);
    } else {
      var n := |xs| - 1;
      var ys, x := xs[..n], xs[n];
      assert xs == ys + [x];
      GroupsPartition(ys, ls);
      var c :| 0 <= c < |ls| && ls[c] == x.answer;
      var g := Groups(ys, ls);
      GroupsSnoc(ys, x, ls, c);
      BagAppend(g, c, x);
    }
  }

  lemma {:induction false} GroupsSnoc(ys: seq<Example>, x: Example, ls: seq<int>, c: nat)
    requires Distinct(ls) && c < |ls| && ls[c] == x.answer
    ensures Groups(ys + [x], ls) == Groups(ys, ls)[c := Groups(ys, ls)[c] + [x]]
  {
    var g := Groups(ys, ls);
    forall d | 0 <= d < |ls| ensures Groups(ys + [x], ls)[d] == g[c := g[c] + [x]][d] {
      MembersSnoc(ys, x, ls[d]);
    }
  }

  lemma {:induction false} MembersSnoc(ys: seq<Example>, x: Example, l: int)
    ensures Members(ys + [x], l) == Members(ys, l) + (if x.answer == l then [x] else [])
  {
    assert (ys + [x])[..|ys|] == ys;
  }

  lemma {:induction false} EmptyGroups(ls: seq<int>)
    ensures Bag(Groups([], ls)) == multiset{}
  {
    if ls != [] {
      assert Groups([], ls)[..|ls| - 1] == Groups([], ls[..|ls| - 1]);
      EmptyGroups(ls[..|ls| - 1]);
    }
  }

  // ----- shuffling, lines 42-43 -----

  /**
   * `random.shuffle(g)` as CPython performs it: for `i` from `len(g) - 1`
   * down to 1, swap `g[i]` with `g[j]` for a `j` drawn from `[0, i]`.
   * `rand(k)` stands for the generator's `k`-th draw; the draws used are
   * `k0` up to the returned `k`.
   */
  method Shuffle(g: seq<Example>, rand: nat -> nat, k0: nat) returns (r: seq<Example>, k: nat)
    ensures |r| == |g| && multiset(r) == multiset(g)
    ensures k == k0 + (if |g| == 0 then 0 else |g| - 1)
  {
    r, k := g, k0;
    var i := |g| - 1;
    while i >= 1
      invariant (g == [] && i == -1) || 0 <= i < |g|
      invariant |r| == |g| && multiset(r) == multiset(g)
      invariant k == k0 + (|g| - 1 - i)
    {
      var j := rand(k) % (i + 1);
      r := r[i := r[j]][j := r[i]];
      k := k + 1;
      i := i - 1;
    }
  }

  /** Lines 42-43: every group is shuffled, keeping its contents. */
  method ShuffleGroups(order: seq<int>, classwise: map<int, seq<Example>>, rand: nat -> nat)
    returns (shuffled: map<int, seq<Example>>)
    requires forall c :: 0 <= c < |order| ==> order[c] in classwise
    ensures shuffled.Keys == classwise.Keys
    ensures forall l :: l in shuffled ==> |shuffled[l]| == |classwise[l]| && multiset(shuffled[l]) == multiset(classwise[l])
  {
    shuffled := classwise;
    var k := 0;
    for c := 0 to |order|
      invariant shuffled.Keys == classwise.Keys
      invariant forall l :: l in shuffled ==> |shuffled[l]| == |classwise[l]| && multiset(shuffled[l]) == multiset(classwise[l])
    {
      var key := order[c];
      var g;
      g, k := Shuffle(shuffled[key], rand, k);
      shuffled := shuffled[key := g];
    }
  }

  // ----- the quota, line 45 -----

  /** `min(len(g) for g in classwise.values())`. */
  function MinGroupSize(order: seq<int>, classwise: map<int, seq<Example>>): (r: Result<nat, SubsetError>)
    requires forall c :: 0 <= c < |order| ==> order[c] in classwise
    ensures r.Err? <==> order == []
    ensures r.Ok? ==> forall c :: 0 <= c < |order| ==> r.value <= |classwise[order[c]]|
    ensures r.Ok? ==> exists c :: 0 <= c < |order| && r.value == |classwise[order[c]]|
  {
    if order == [] then Err(EmptyMinimum)
    else
      var n := |order| - 1;
      var last := |classwise[order[n]]|;
      match MinGroupSize(order[..n], classwise)
      case Err(_) => Ok(last)
      case Ok(m) => Ok(if m <= last then m else last)
  }

  // ----- the round-robin interleave, lines 48-53 -----

  /** The groups in key order. */
  function Columns(order: seq<int>, classwise: map<int, seq<Example>>): (cols: seq<seq<Example>>)
    requires forall c :: 0 <= c < |order| ==> order[c] in classwise
    ensures |cols| == |order|
    ensures forall c :: 0 <= c < |order| ==> cols[c] == classwise[order[c]]
  {
    seq(|order|, c requires 0 <= c < |order| => classwise[order[c]])
  }

  /**
   * One pass of lines 50-52: element `r` of every column that is long
   * enough to have one, column by column.
   */
  function Round(cols: seq<seq<Example>>, r: nat): seq<Example>
  {
    if cols == [] then []
    else Round(cols[..|cols| - 1], r) + (if r < |cols[|cols| - 1]| then [cols[|cols| - 1][r]] else [])
  }

  /** The first `n` rounds. */
  function RoundRobin(cols: seq<seq<Example>>, n: nat): seq<Example>
  {
    if n == 0 then [] else RoundRobin(cols, n - 1) + Round(cols, n - 1)
  }

  lemma {:induction false} RoundSnoc(cols: seq<seq<Example>>, c: nat, r: nat)
    requires c < |cols|
    ensures Round(cols[..c + 1], r) == Round(cols[..c], r) + (if r < |cols[c]| then [cols[c][r]] else [])
  {
    assert cols[..c + 1][..c] == cols[..c];
  }

  lemma {:induction false} MulNext(i: nat, k: nat)
    ensures (i + 1) * k == i * k + k
  {
  }

  /** `i * k` as repeated addition: the invariant of `Interleave` counts in it, and `TimesIsProduct` ties it to line 49's product. */
  function Times(i: nat, k: nat): nat
  {
    if i == 0 then 0 else Times(i - 1, k) + k
  }

  lemma {:induction false} TimesIsProduct(i: nat, k: nat)
    ensures Times(i, k) == i * k
  {
    if i > 0 {
      TimesIsProduct(i - 1, k);
      MulNext(i - 1, k);
    }
  }

  lemma {:induction false} TimesLess(i: nat, q: nat, k: nat)
    requires i < q && k > 0
    ensures Times(i, k) < Times(q, k)
  {
    if i < q - 1 {
      TimesLess(i, q - 1, k);
    }
  }

  /**
   * Lines 50-52: one pass over the groups in order, appending each group's
   * element at `index` when the group has one (the test of line 51).
   */
  method AppendRound(order: seq<int>, classwise: map<int, seq<Example>>, index: nat, subset: seq<Example>)
    returns (extended: seq<Example>)
    requires forall c :: 0 <= c < |order| ==> order[c] in classwise
    ensures extended == subset + Round(Columns(order, classwise), index)
  {
    ghost var cols := Columns(order, classwise);
    extended := subset;
    for c := 0 to |order|
      invariant extended == subset + Round(cols[..c], index)
    {
      var key := order[c];
      RoundSnoc(cols, c, index);
      if index < |classwise[key]| {
        extended := extended + [classwise[key][index]];
      }
    }
    assert cols[..|order|] == cols;
  }

  /**
   * Lines 48-53: rounds are appended until the subset holds `quota`
   * examples per group; the result is the first `quota` rounds.
   */
  method Interleave(order: seq<int>, classwise: map<int, seq<Example>>, quota: nat)
    returns (subset: seq<Example>, index: nat)
    requires forall c :: 0 <= c < |order| ==> order[c] in classwise && quota <= |classwise[order[c]]|
    ensures subset == RoundRobin(Columns(order, classwise), quota)
    ensures index == if order == [] then 0 else quota
  {
    ghost var cols := Columns(order, classwise);
    var k := |order|;
    ColumnsLongEnough(order, classwise, quota);
    var target := quota * k;
    TimesIsProduct(quota, k);
    subset, index := [], 0;
    while |subset| < target
      invariant Progress(cols, subset, index, quota)
      decreases quota - index
    {
      Advance(cols, subset, index, quota);
      subset := AppendRound(order, classwise, index, subset);
      index := index + 1;
    }
    Finish(cols, subset, index, quota);
  }

  lemma {:induction false} ColumnsLongEnough(order: seq<int>, classwise: map<int, seq<Example>>, quota: nat)
    requires forall c :: 0 <= c < |order| ==> order[c] in classwise && quota <= |classwise[order[c]]|
    ensures |Columns(order, classwise)| == |order|
    ensures forall d :: 0 <= d < |order| ==> quota <= |Columns(order, classwise)[d]|
  {
  }

  /** The loop invariant of `Interleave`: `index` full rounds done, no more than `quota`. */
  ghost predicate Progress(cols: seq<seq<Example>>, subset: seq<Example>, index: nat, quota: nat) {
    && index <= quota
    && subset == RoundRobin(cols, index)
    && |subset| == Times(index, |cols|)
    && (|cols| == 0 ==> index == 0)
  }

  /** The loop of `Interleave` stops after `quota` rounds, or at once when there are no groups. */
  lemma {:induction false} Finish(cols: seq<seq<Example>>, subset: seq<Example>, index: nat, quota: nat)
    requires Progress(cols, subset, index, quota) && Times(quota, |cols|) <= |subset|
    ensures subset == RoundRobin(cols, quota)
    ensures index == if cols == [] then 0 else quota
  {
    if |cols| == 0 {
      RoundRobinOfNoColumns(cols, quota);
    } else if index < quota {
      TimesLess(index, quota, |cols|);
    }
  }

  /** One more pass of `Interleave`: one more round, `|cols|` more examples. */
  lemma {:induction false} Advance(cols: seq<seq<Example>>, subset: seq<Example>, i: nat, quota: nat)
    requires forall d :: 0 <= d < |cols| ==> quota <= |cols[d]|
    requires Progress(cols, subset, i, quota) && |subset| < Times(quota, |cols|)
    ensures i < quota
    ensures Progress(cols, subset + Round(cols, i), i + 1, quota)
  {
    if quota <= i {
      TimesMonotone(quota, i, |cols|);
    }
    if |cols| == 0 {
      TimesZero(quota);
    }
    RoundAt(cols, i);
  }

  lemma {:induction false} TimesZero(i: nat)
    ensures Times(i, 0) == 0
  {
    if i > 0 {
      TimesZero(i - 1);
    }
  }

  lemma {:induction false} TimesMonotone(a: nat, b: nat, k: nat)
    requires a <= b
    ensures Times(a, k) <= Times(b, k)
  {
    if a < b {
      TimesMonotone(a, b - 1, k);
    }
  }

  lemma {:induction false} RoundRobinOfNoColumns(cols: seq<seq<Example>>, n: nat)
    requires cols == []
    ensures RoundRobin(cols, n) == []
  {
    if n > 0 {
      RoundRobinOfNoColumns(cols, n - 1);
    }
  }

  /** Round `r` holds element `r` of column `c` at position `c`. */
  lemma {:induction false} RoundAt(cols: seq<seq<Example>>, r: nat)
    requires forall c :: 0 <= c < |cols| ==> r < |cols[c]|
    ensures |Round(cols, r)| == |cols|
    ensures forall c :: 0 <= c < |cols| ==> Round(cols, r)[c] == cols[c][r]
  {
    if cols != [] {
      RoundAt(cols[..|cols| - 1], r);
    }
  }

  /** `n` rounds over `k` columns hold `n * k` items. */
  lemma {:induction false} RoundRobinLength(cols: seq<seq<Example>>, n: nat)
    requires forall c :: 0 <= c < |cols| ==> n <= |cols[c]|
    ensures |RoundRobin(cols, n)| == n * |cols|
  {
    if n > 0 {
      RoundRobinLength(cols, n - 1);
      RoundAt(cols, n - 1);
      var prev := RoundRobin(cols, n - 1);
      assert |RoundRobin(cols, n)| == |prev| + |cols|;
      MulNext(n - 1, |cols|);
    }
  }

  /** Position `p` of `q` rounds of `k` lies in round `p / k`, column `p % k`. */
  lemma {:induction false} DivMod(p: nat, q: nat, k: nat) returns (row: nat, col: nat)
    requires p < q * k
    ensures row == p / k && col == p % k
    ensures row < q && col < k && p == row * k + col
  {
    row, col := p / k, p % k;
    if q <= row {
      MulMonotone(q, row, k);
    }
  }

  lemma {:induction false} MulMonotone(a: nat, b: nat, k: nat)
    requires a <= b
    ensures a * k <= b * k
  {
  }

  /** Round-robin order: position `r * k + c` holds element `r` of column `c`. */
  lemma {:induction false} RoundRobinAt(cols: seq<seq<Example>>, n: nat, r: nat, c: nat)
    requires forall d :: 0 <= d < |cols| ==> n <= |cols[d]|
    requires r < n && c < |cols|
    ensures r * |cols| + c < |RoundRobin(cols, n)|
    ensures RoundRobin(cols, n)[r * |cols| + c] == cols[c][r]
  {
    var k := |cols|;
    var prev := RoundRobin(cols, n - 1);
    var last := Round(cols, n - 1);
    assert RoundRobin(cols, n) == prev + last;
    RoundAt(cols, n - 1);
    if r < n - 1 {
      RoundRobinAt(cols, n - 1, r, c);
      ConcatLeft(prev, last, r * k + c);
    } else {
      RoundRobinLength(cols, n - 1);
      assert r * k + c == |prev| + c;
      ConcatRight(prev, last, c);
    }
  }

  lemma {:induction false} ConcatLeft(a: seq<Example>, b: seq<Example>, p: nat)
    requires p < |a|
    ensures p < |a + b| && (a + b)[p] == a[p]
  {
  }

  lemma {:induction false} ConcatRight(a: seq<Example>, b: seq<Example>, c: nat)
    requires c < |b|
    ensures |a| + c < |a + b| && (a + b)[|a| + c] == b[c]
  {
  }

  lemma {:induction false} MembersConcat(a: seq<Example>, b: seq<Example>, l: int)
    ensures Members(a + b, l) == Members(a, l) + Members(b, l)
    decreases |b|
  {
    if b != [] {
      var m := |b| - 1;
      var x, extra := b[m], if b[m].answer == l then [b[m]] else [];
      assert a + b == (a + b[..m]) + [x];
      assert b == b[..m] + [x];
      MembersSnoc(a + b[..m], x, l);
      MembersConcat(a, b[..m], l);
      MembersSnoc(b[..m], x, l);
      calc {
        Members(a + b, l);
        Members(a + b[..m], l) + extra;
        Members(a, l) + Members(b[..m], l) + extra;
        Members(a, l) + Members(b, l);
      }
    } else {
      assert a + b == a;
    }
  }

  lemma {:induction false} MembersNone(xs: seq<Example>, l: int)
    requires forall i :: 0 <= i < |xs| ==> xs[i].answer != l
    ensures Members(xs, l) == []
  {
    if xs != [] {
      MembersNone(xs[..|xs| - 1], l);
    }
  }

  /** Column `c` holds only examples whose answer is `ls[c]`. */
  ghost predicate Tagged(cols: seq<seq<Example>>, ls: seq<int>) {
    |cols| == |ls| && forall c, e :: 0 <= c < |cols| && e in cols[c] ==> e.answer == ls[c]
  }

  /** With one column per answer, a round holds exactly one example of each answer. */
  lemma {:induction false} RoundMembers(cols: seq<seq<Example>>, ls: seq<int>, r: nat, c: nat)
    requires Tagged(cols, ls) && Distinct(ls)
    requires forall d :: 0 <= d < |cols| ==> r < |cols[d]|
    requires c < |cols|
    ensures Members(Round(cols, r), ls[c]) == [cols[c][r]]
  {
    var m := |cols| - 1;
    var init := cols[..m];
    var x, l := cols[m][r], ls[c];
    RoundSnoc(cols, m, r);
    assert cols[..m + 1] == cols;
    MembersSnoc(Round(init, r), x, l);
    assert x in cols[m];
    if c < m {
      assert Tagged(init, ls[..m]);
      RoundMembers(init, ls[..m], r, c);
      assert ls[..m][c] == l && ls[m] != l;
    } else {
      EarlierColumns(cols, ls, r);
    }
  }

  /** The columns before the last hold no example of the last column's answer. */
  lemma {:induction false} EarlierColumns(cols: seq<seq<Example>>, ls: seq<int>, r: nat)
    requires Tagged(cols, ls) && Distinct(ls) && cols != []
    requires forall d :: 0 <= d < |cols| ==> r < |cols[d]|
    ensures Members(Round(cols[..|cols| - 1], r), ls[|cols| - 1]) == []
  {
    var m := |cols| - 1;
    var init := cols[..m];
    RoundAt(init, r);
    forall i | 0 <= i < |Round(init, r)| ensures Round(init, r)[i].answer != ls[m] {
      assert Round(init, r)[i] == cols[i][r];
      OtherColumn(cols, ls, i, m, cols[i][r]);
    }
    MembersNone(Round(init, r), ls[m]);
  }

  lemma {:induction false} OtherColumn(cols: seq<seq<Example>>, ls: seq<int>, i: nat, j: nat, y: Example)
    requires Tagged(cols, ls) && Distinct(ls)
    requires i < |cols| && j < |cols| && i != j && y in cols[i]
    ensures y.answer != ls[j]
  {
    if i < j {
      assert ls[i] != ls[j];
    } else {
      assert ls[j] != ls[i];
    }
  }

  /** Each answer contributes exactly one example per round. */
  lemma {:induction false} RoundRobinCounts(cols: seq<seq<Example>>, ls: seq<int>, n: nat, c: nat)
    requires Tagged(cols, ls) && Distinct(ls)
    requires forall d :: 0 <= d < |cols| ==> n <= |cols[d]|
    requires c < |cols|
    ensures |Members(RoundRobin(cols, n), ls[c])| == n
  {
    forall r | 0 <= r < n ensures |Members(Round(cols, r), ls[c])| == 1 {
      RoundMembers(cols, ls, r, c);
    }
    CountRounds(cols, ls[c], n);
  }

  /** Rounds that each hold one example of an answer give one per round in all. */
  lemma {:induction false} CountRounds(cols: seq<seq<Example>>, l: int, n: nat)
    requires forall d :: 0 <= d < |cols| ==> n <= |cols[d]|
    requires forall r :: 0 <= r < n ==> |Members(Round(cols, r), l)| == 1
    ensures |Members(RoundRobin(cols, n), l)| == n
  {
    if n > 0 {
      CountRounds(cols, l, n - 1);
      MembersConcat(RoundRobin(cols, n - 1), Round(cols, n - 1), l);
    }
  }

  /** The first `n` elements of every column. */
  function Take(cols: seq<seq<Example>>, n: nat): (t: seq<seq<Example>>)
    requires forall c :: 0 <= c < |cols| ==> n <= |cols[c]|
    ensures |t| == |cols| && forall c :: 0 <= c < |cols| ==> t[c] == cols[c][..n]
  {
    seq(|cols|, c requires 0 <= c < |cols| => cols[c][..n])
  }

  lemma {:induction false} BagOfEmpties(gs: seq<seq<Example>>)
    requires forall c :: 0 <= c < |gs| ==> gs[c] == []
    ensures Bag(gs) == multiset{}
  {
    if gs != [] {
      BagOfEmpties(gs[..|gs| - 1]);
    }
  }

  /** Adding element `row[c]` to every column `c` adds the row to the sum. */
  lemma {:induction false} BagExtend(gs: seq<seq<Example>>, hs: seq<seq<Example>>, row: seq<Example>)
    requires |gs| == |hs| == |row|
    requires forall c :: 0 <= c < |gs| ==> hs[c] == gs[c] + [row[c]]
    ensures Bag(hs) == Bag(gs) + multiset(row)
  {
    if gs != [] {
      var m := |gs| - 1;
      BagExtend(gs[..m], hs[..m], row[..m]);
      assert row == row[..m] + [row[m]];
      calc {
        Bag(hs);
        Bag(hs[..m]) + multiset(gs[m] + [row[m]]);
        Bag(gs[..m]) + multiset(row[..m]) + multiset(gs[m]) + multiset{row[m]};
        Bag(gs) + multiset(row);
      }
    }
  }

  /** `n` rounds take the first `n` elements of every column, each once. */
  lemma {:induction false} RoundRobinBag(cols: seq<seq<Example>>, n: nat)
    requires forall c :: 0 <= c < |cols| ==> n <= |cols[c]|
    ensures multiset(RoundRobin(cols, n)) == Bag(Take(cols, n))
  {
    if n == 0 {
      NoRoundsBag(cols);
    } else {
      RoundRobinBag(cols, n - 1);
      RoundBag(cols, n);
    }
  }

  lemma {:induction false} NoRoundsBag(cols: seq<seq<Example>>)
    ensures multiset(RoundRobin(cols, 0)) == Bag(Take(cols, 0))
  {
    var none := Take(cols, 0);
    forall c | 0 <= c < |none| ensures none[c] == [] {
      assert none[c] == cols[c][..0];
    }
    BagOfEmpties(none);
  }

  /** One more round adds one more element of every column. */
  lemma {:induction false} RoundBag(cols: seq<seq<Example>>, n: nat)
    requires 0 < n && forall c :: 0 <= c < |cols| ==> n <= |cols[c]|
    requires multiset(RoundRobin(cols, n - 1)) == Bag(Take(cols, n - 1))
    ensures multiset(RoundRobin(cols, n)) == Bag(Take(cols, n))
  {
    var prev, row := RoundRobin(cols, n - 1), Round(cols, n - 1);
    TakeStep(cols, n);
    BagExtend(Take(cols, n - 1), Take(cols, n), row);
    assert RoundRobin(cols, n) == prev + row;
  }

  /** Round `n - 1` is what taking `n` rather than `n - 1` adds to each column. */
  lemma {:induction false} TakeStep(cols: seq<seq<Example>>, n: nat)
    requires 0 < n && forall c :: 0 <= c < |cols| ==> n <= |cols[c]|
    ensures |Round(cols, n - 1)| == |cols|
    ensures forall c :: 0 <= c < |cols| ==> Take(cols, n)[c] == Take(cols, n - 1)[c] + [Round(cols, n - 1)[c]]
  {
    RoundAt(cols, n - 1);
    forall c | 0 <= c < |cols| ensures Take(cols, n)[c] == Take(cols, n - 1)[c] + [Round(cols, n - 1)[c]] {
      assert cols[c][..n] == cols[c][..n - 1] + [cols[c][n - 1]];
    }
  }

  /** Taking a prefix of every column takes part of the sum. */
  lemma {:induction false} TakeWithin(cols: seq<seq<Example>>, n: nat)
    requires forall c :: 0 <= c < |cols| ==> n <= |cols[c]|
    ensures Bag(Take(cols, n)) <= Bag(cols)
  {
    forall c | 0 <= c < |cols| ensures multiset(Take(cols, n)[c]) <= multiset(cols[c]) {
      assert cols[c] == cols[c][..n] + cols[c][n..];
    }
    BagMonotone(Take(cols, n), cols);
  }

  // ----- the whole script, lines 33-53 -----

  /** The state after line 43: groups in first-appearance order, each a permutation of its members. */
  ghost predicate ShuffledGroups(xs: seq<Example>, order: seq<int>, shuffled: map<int, seq<Example>>) {
    && order == Labels(xs)
    && (forall c :: 0 <= c < |order| ==> order[c] in shuffled)
    && forall c :: 0 <= c < |order| ==> multiset(shuffled[order[c]]) == multiset(Members(xs, order[c]))
  }

  lemma {:induction false} ShuffledColumnsTagged(xs: seq<Example>, order: seq<int>, shuffled: map<int, seq<Example>>)
    requires ShuffledGroups(xs, order, shuffled)
    ensures Tagged(Columns(order, shuffled), order)
  {
    var cols := Columns(order, shuffled);
    forall c: int, e: Example | 0 <= c < |order| && e in cols[c] ensures e.answer == order[c] {
      assert e in multiset(shuffled[order[c]]);
      MembersHaveTheLabel(xs, order[c]);
    }
  }

  /** Each answer of the input contributes exactly `quota` examples. */
  lemma {:induction false} SubsetIsBalanced(xs: seq<Example>, order: seq<int>, shuffled: map<int, seq<Example>>, quota: nat, c: nat)
    requires ShuffledGroups(xs, order, shuffled)
    requires forall d :: 0 <= d < |order| ==> quota <= |shuffled[order[d]]|
    requires c < |order|
    ensures |Members(RoundRobin(Columns(order, shuffled), quota), order[c])| == quota
  {
    ShuffledColumnsTagged(xs, order, shuffled);
    LabelsAreTheAnswers(xs);
    RoundRobinCounts(Columns(order, shuffled), order, quota, c);
  }

  /** Position `p` holds an example of the `p % k`-th answer. */
  lemma {:induction false} SubsetAlternates(xs: seq<Example>, order: seq<int>, shuffled: map<int, seq<Example>>, quota: nat, p: nat)
    requires ShuffledGroups(xs, order, shuffled)
    requires forall d :: 0 <= d < |order| ==> quota <= |shuffled[order[d]]|
    requires p < |RoundRobin(Columns(order, shuffled), quota)|
    ensures |order| > 0
    ensures RoundRobin(Columns(order, shuffled), quota)[p].answer == order[p % |order|]
  {
    var cols := Columns(order, shuffled);
    var k := |order|;
    RoundRobinLength(cols, quota);
    assert k > 0;
    ShuffledColumnsTagged(xs, order, shuffled);
    var row, col := DivMod(p, quota, k);
    RoundRobinAt(cols, quota, row, col);
    assert RoundRobin(cols, quota)[p] in cols[col];
  }

  /** Every example of the subset is one of the input's, none taken twice. */
  lemma {:induction false} SubsetFromInput(xs: seq<Example>, order: seq<int>, shuffled: map<int, seq<Example>>, quota: nat)
    requires ShuffledGroups(xs, order, shuffled)
    requires forall d :: 0 <= d < |order| ==> quota <= |shuffled[order[d]]|
    ensures multiset(RoundRobin(Columns(order, shuffled), quota)) <= multiset(xs)
  {
    var cols := Columns(order, shuffled);
    RoundRobinBag(cols, quota);
    TakeWithin(cols, quota);
    BagMonotone(cols, Groups(xs, order));
    LabelsAreTheAnswers(xs);
    GroupsPartition(xs, order);
  }

  /**
   * What the saved subset promises: `quota` is the smallest group size,
   * each answer contributes exactly `quota` examples, the answers alternate
   * in first-appearance order, and every example comes from the input, none
   * taken twice.
   */
  ghost predicate BalancedSubset(xs: seq<Example>, subset: seq<Example>, quota: nat) {
    var ls := Labels(xs);
    && |subset| == quota * |ls|
    && (forall c :: 0 <= c < |ls| ==> quota <= |Members(xs, ls[c])|)
    && (exists c :: 0 <= c < |ls| && quota == |Members(xs, ls[c])|)
    && (forall c :: 0 <= c < |ls| ==> |Members(subset, ls[c])| == quota)
    && (forall p :: 0 <= p < |subset| ==> subset[p].answer == ls[p % |ls|])
    && multiset(subset) <= multiset(xs)
  }

  lemma {:induction false} InterleaveIsBalanced(xs: seq<Example>, order: seq<int>, shuffled: map<int, seq<Example>>, quota: nat)
    requires ShuffledGroups(xs, order, shuffled)
    requires forall c :: 0 <= c < |order| ==> quota <= |shuffled[order[c]]|
    requires exists c :: 0 <= c < |order| && quota == |shuffled[order[c]]|
    ensures BalancedSubset(xs, RoundRobin(Columns(order, shuffled), quota), quota)
  {
    var subset := RoundRobin(Columns(order, shuffled), quota);
    assert forall c :: 0 <= c < |order| ==> |shuffled[order[c]]| == |Members(xs, order[c])| by {
      forall c | 0 <= c < |order| ensures |shuffled[order[c]]| == |Members(xs, order[c])| {
        assert |multiset(shuffled[order[c]])| == |multiset(Members(xs, order[c]))|;
      }
    }
    RoundRobinLength(Columns(order, shuffled), quota);
    forall c | 0 <= c < |order| ensures |Members(subset, order[c])| == quota {
      SubsetIsBalanced(xs, order, shuffled, quota, c);
    }
    forall p | 0 <= p < |subset| ensures subset[p].answer == order[p % |order|] {
      SubsetAlternates(xs, order, shuffled, quota, p);
    }
    SubsetFromInput(xs, order, shuffled, quota);
  }

  /** The input is empty exactly when it has no answers. */
  lemma {:induction false} NoLabelsOnlyWhenEmpty(xs: seq<Example>)
    ensures Labels(xs) == [] <==> xs == []
  {
    if xs != [] {
      LabelsAreTheAnswers(xs);
      assert xs[0].answer in Labels(xs);
    }
  }

  /**
   * The subset the script saves. `rand` stands for the draws of the seeded
   * generator. An empty split has no smallest group, and `min()` fails.
   */
  method BuildSubset(xs: seq<Example>, rand: nat -> nat) returns (r: Result<seq<Example>, SubsetError>, classwiseSize: nat)
    ensures r.Err? <==> xs == []
    ensures r.Ok? ==> BalancedSubset(xs, r.value, classwiseSize)
  {
    var order, classwise := GroupByAnswer(xs);
    NoLabelsOnlyWhenEmpty(xs);
    var shuffled := ShuffleGroups(order, classwise, rand);
    assert ShuffledGroups(xs, order, shuffled);
    match MinGroupSize(order, shuffled)
    case Err(e) =>
      r, classwiseSize := Err(e), 0;
    case Ok(quota) =>
      var subset, _ := Interleave(order, shuffled, quota);
      InterleaveIsBalanced(xs, order, shuffled, quota);
      r, classwiseSize := Ok(subset), quota;
  }
}
