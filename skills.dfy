/** The skill pie chart's data (createPieChart, script.js:235-262): the best
    amount per known skill, the "no data" guard and each skill's share. */
module Skills {
  import opened Records

  const SkillPrefix: string := "skill_"

  /** The fixed list `skills` (script.js:236). */
  const KnownSkills: seq<string> := ["go", "html", "js", "sql", "css"]

  /** The known skill a transaction reports: its `type` starts with "skill_"
      and the rest is one of the known skills. On a `type` that starts with
      the prefix, `replace('skill_', '')` removes exactly that prefix. */
  function SkillOf(tx: Transaction): (skill: Option<string>)
    ensures skill.Some? <==> exists k :: k in KnownSkills && tx.kind == SkillPrefix + k
    ensures skill.Some? ==> skill.value in KnownSkills && tx.kind == SkillPrefix + skill.value
  {
    SkillOfSuffix(tx.kind);
    if SkillPrefix <= tx.kind && tx.kind[|SkillPrefix|..] in KnownSkills
    then Some(tx.kind[|SkillPrefix|..])
    else None
  }

  lemma SkillOfSuffix(kind: string)
    ensures forall k :: kind == SkillPrefix + k ==> SkillPrefix <= kind && kind[|SkillPrefix|..] == k
  {
  }

  function Max(a: int, b: int): int {
    if a >= b then a else b
  }

  /** One own property of the accumulator object `acc`: a skill and the best amount recorded for it. */
  datatype Entry = Entry(skill: string, best: int)

  /** `Object.keys(acc)`: the skills in insertion order. */
  function SkillNames(acc: seq<Entry>): (names: seq<string>)
    ensures |names| == |acc|
    ensures forall j :: 0 <= j < |acc| ==> names[j] == acc[j].skill
  {
    if acc == [] then [] else [acc[0].skill] + SkillNames(acc[1..])
  }

  /** No skill is recorded twice, as no key occurs twice in an object. */
  predicate Distinct(acc: seq<Entry>) {
    forall p, q :: 0 <= p < q < |acc| ==> acc[p].skill != acc[q].skill
  }

  /** `acc[skill] = Math.max(acc[skill] || 0, amount)`: an existing key keeps
      its place and takes the larger value; a new key is appended with
      `max(0, amount)`. */
  function Record(acc: seq<Entry>, skill: string, amount: int): (updated: seq<Entry>)
    requires Distinct(acc)
    ensures |updated| == if skill in SkillNames(acc) then |acc| else |acc| + 1
    ensures forall j :: 0 <= j < |acc| ==>
      updated[j] == if acc[j].skill == skill then Entry(skill, Max(acc[j].best, amount)) else acc[j]
    ensures skill !in SkillNames(acc) ==> updated[|acc|] == Entry(skill, Max(0, amount))
  {
    if acc == [] then [Entry(skill, Max(0, amount))]
    else if acc[0].skill == skill then [Entry(skill, Max(acc[0].best, amount))] + acc[1..]
    else [acc[0]] + Record(acc[1..], skill, amount)
  }

  /** One step of the `reduce`: a transaction the filter or the `includes`
      test drops leaves `acc` as it is. */
  function Step(acc: seq<Entry>, tx: Transaction): (next: seq<Entry>)
    requires Distinct(acc)
    ensures Distinct(next)
    ensures SkillNames(next) ==
      if SkillOf(tx).None? || SkillOf(tx).value in SkillNames(acc) then SkillNames(acc)
      else SkillNames(acc) + [SkillOf(tx).value]
  {
    match SkillOf(tx)
    case None => acc
    case Some(skill) =>
      RecordNames(acc, skill, tx.amount);
      RecordDistinct(acc, skill, tx.amount);
      Record(acc, skill, tx.amount)
  }

  /** Recording keeps every key in place and appends a new one at the end. */
  lemma RecordNames(acc: seq<Entry>, skill: string, amount: int)
    requires Distinct(acc)
    ensures SkillNames(Record(acc, skill, amount)) ==
      if skill in SkillNames(acc) then SkillNames(acc) else SkillNames(acc) + [skill]
  {
    var updated := Record(acc, skill, amount);
    var names, after := SkillNames(acc), SkillNames(updated);
    forall j | 0 <= j < |acc| ensures after[j] == names[j] {
      assert after[j] == updated[j].skill && names[j] == acc[j].skill;
    }
    if skill in names {
      assert after == names;
    } else {
      assert after[|acc|] == updated[|acc|].skill == skill;
      assert after == names + [skill];
    }
  }

  /** A new key is appended at the end with `max(0, amount)`. */
  lemma RecordNew(acc: seq<Entry>, skill: string, amount: int)
    requires Distinct(acc) && skill !in SkillNames(acc)
    ensures Record(acc, skill, amount) == acc + [Entry(skill, Max(0, amount))]
  {
    var updated := Record(acc, skill, amount);
    forall j | 0 <= j < |acc| ensures updated[j] == acc[j] {
      assert SkillNames(acc)[j] == acc[j].skill;
    }
    assert updated == acc + [Entry(skill, Max(0, amount))];
  }

  /** An existing key is updated in place to the larger value. */
  lemma RecordExisting(acc: seq<Entry>, j: nat, amount: int)
    requires Distinct(acc) && j < |acc|
    ensures Record(acc, acc[j].skill, amount) == acc[j := Entry(acc[j].skill, Max(acc[j].best, amount))]
  {
    assert SkillNames(acc)[j] == acc[j].skill;
  }

  /** Recording keeps the keys distinct. */
  lemma RecordDistinct(acc: seq<Entry>, skill: string, amount: int)
    requires Distinct(acc)
    ensures Distinct(Record(acc, skill, amount))
  {
    var updated := Record(acc, skill, amount);
    var names := SkillNames(updated);
    RecordNames(acc, skill, amount);
    forall p, q | 0 <= p < q < |updated| ensures updated[p].skill != updated[q].skill {
      assert names[p] == updated[p].skill && names[q] == updated[q].skill;
      if q == |acc| {
        assert names[q] == skill && skill !in SkillNames(acc);
        assert names[p] == SkillNames(acc)[p];
      } else {
        assert names[p] == SkillNames(acc)[p] == acc[p].skill;
        assert names[q] == SkillNames(acc)[q] == acc[q].skill;
      }
    }
  }

  /** The `filter` and `reduce` of script.js:238-246, as a left fold over the
      transactions starting from the empty object. */
  function SkillMaxima(txs: seq<Transaction>): (maxima: seq<Entry>)
    ensures Distinct(maxima)
  {
    if txs == [] then [] else Step(SkillMaxima(txs[..|txs| - 1]), txs[|txs| - 1])
  }

  /** Some transaction reports `skill`. */
  ghost predicate Reports(txs: seq<Transaction>, skill: string) {
    exists i :: 0 <= i < |txs| && SkillOf(txs[i]) == Some(skill)
  }

  /** Reference definition of the recorded value: the largest of 0 and the
      amounts reported for `skill`, scanning from the front. */
  function Best(txs: seq<Transaction>, skill: string): (best: int)
    ensures best >= 0
    ensures forall i :: 0 <= i < |txs| && SkillOf(txs[i]) == Some(skill) ==> txs[i].amount <= best
    ensures best == 0 || exists i :: 0 <= i < |txs| && SkillOf(txs[i]) == Some(skill) && txs[i].amount == best
  {
    if txs == [] then 0
    else
      var rest := Best(txs[1..], skill);
      assert forall i :: 1 <= i < |txs| ==> txs[i] == txs[1..][i - 1];
      Max(if SkillOf(txs[0]) == Some(skill) then txs[0].amount else 0, rest)
  }

  /** The position of the first transaction that reports `skill`. */
  ghost function FirstIndex(txs: seq<Transaction>, skill: string): (first: nat)
    requires Reports(txs, skill)
    ensures first < |txs| && SkillOf(txs[first]) == Some(skill)
    ensures forall i :: 0 <= i < first ==> SkillOf(txs[i]) != Some(skill)
  {
    if SkillOf(txs[0]) == Some(skill) then 0
    else
      ReportsInTail(txs, skill);
      1 + FirstIndex(txs[1..], skill)
  }

  lemma ReportsInTail(txs: seq<Transaction>, skill: string)
    requires Reports(txs, skill) && SkillOf(txs[0]) != Some(skill)
    ensures Reports(txs[1..], skill)
  {
    var i :| 0 <= i < |txs| && SkillOf(txs[i]) == Some(skill);
    assert txs[1..][i - 1] == txs[i];
  }

  lemma {:induction false} BestSnoc(init: seq<Transaction>, t: Transaction, skill: string)
    ensures Best(init + [t], skill) == Max(Best(init, skill), if SkillOf(t) == Some(skill) then t.amount else 0)
    decreases |init|
  {
    if init != [] {
      BestSnoc(init[1..], t, skill);
      assert (init + [t])[1..] == init[1..] + [t];
    }
  }

  /** Any position that reports `skill` with no report before it is the first one. */
  lemma FirstIndexUnique(txs: seq<Transaction>, skill: string, f: nat)
    requires f < |txs| && SkillOf(txs[f]) == Some(skill)
    requires forall i :: 0 <= i < f ==> SkillOf(txs[i]) != Some(skill)
    ensures Reports(txs, skill) && FirstIndex(txs, skill) == f
  {
    var g := FirstIndex(txs, skill);
    assert !(g < f);
    assert !(f < g);
  }

  lemma FirstIndexSnoc(init: seq<Transaction>, t: Transaction, skill: string)
    requires Reports(init, skill)
    ensures Reports(init + [t], skill)
    ensures FirstIndex(init + [t], skill) == FirstIndex(init, skill)
  {
    var txs := init + [t];
    var f := FirstIndex(init, skill);
    assert forall i :: 0 <= i <= f ==> txs[i] == init[i];
    FirstIndexUnique(txs, skill, f);
  }

  lemma FirstIndexNew(init: seq<Transaction>, t: Transaction, skill: string)
    requires !Reports(init, skill) && SkillOf(t) == Some(skill)
    ensures Reports(init + [t], skill)
    ensures FirstIndex(init + [t], skill) == |init|
  {
    var txs := init + [t];
    assert txs[|init|] == t;
    forall i | 0 <= i < |init| ensures SkillOf(txs[i]) != Some(skill) {
      assert txs[i] == init[i];
    }
    FirstIndexUnique(txs, skill, |init|);
  }

  lemma ReportsSnoc(init: seq<Transaction>, t: Transaction, skill: string)
    ensures Reports(init + [t], skill) <==> Reports(init, skill) || SkillOf(t) == Some(skill)
  {
    var txs := init + [t];
    assert txs[|init|] == t;
    if Reports(txs, skill) && SkillOf(t) != Some(skill) {
      var i :| 0 <= i < |txs| && SkillOf(txs[i]) == Some(skill);
      assert txs[i] == init[i];
    }
    if Reports(init, skill) {
      var i :| 0 <= i < |init| && SkillOf(init[i]) == Some(skill);
      assert txs[i] == init[i];
    }
  }

  /** The recorded skills are exactly the reported ones. */
  ghost predicate NamesExactly(txs: seq<Transaction>, acc: seq<Entry>) {
    forall k :: k in SkillNames(acc) <==> Reports(txs, k)
  }

  /** Every recorded value is the reference maximum. */
  ghost predicate HoldsBest(txs: seq<Transaction>, acc: seq<Entry>) {
    forall j :: 0 <= j < |acc| ==> acc[j].best == Best(txs, acc[j].skill)
  }

  /** Both skills are reported, and `s1` is reported first. */
  ghost predicate ReportedBefore(txs: seq<Transaction>, s1: string, s2: string) {
    Reports(txs, s1) && Reports(txs, s2) && FirstIndex(txs, s1) < FirstIndex(txs, s2)
  }

  /** The recorded skills are in the order of their first report. */
  ghost predicate FirstReportOrder(txs: seq<Transaction>, acc: seq<Entry>) {
    forall p, q :: 0 <= p < q < |acc| ==> ReportedBefore(txs, acc[p].skill, acc[q].skill)
  }

  lemma NamesStep(init: seq<Transaction>, t: Transaction, acc: seq<Entry>)
    requires Distinct(acc) && NamesExactly(init, acc)
    ensures NamesExactly(init + [t], Step(acc, t))
  {
    forall k ensures k in SkillNames(Step(acc, t)) <==> Reports(init + [t], k) {
      ReportsSnoc(init, t, k);
    }
  }

  lemma BestStep(init: seq<Transaction>, t: Transaction, acc: seq<Entry>)
    requires Distinct(acc) && NamesExactly(init, acc) && HoldsBest(init, acc)
    ensures HoldsBest(init + [t], Step(acc, t))
  {
    var m := Step(acc, t);
    forall j | 0 <= j < |m| ensures m[j].best == Best(init + [t], m[j].skill) {
      BestSnoc(init, t, m[j].skill);
      if j == |acc| {
        assert SkillNames(m)[j] == m[j].skill;
        assert m[j].skill !in SkillNames(acc);
      }
    }
  }

  lemma OrderOld(init: seq<Transaction>, t: Transaction, s1: string, s2: string)
    requires ReportedBefore(init, s1, s2)
    ensures ReportedBefore(init + [t], s1, s2)
  {
    FirstIndexSnoc(init, t, s1);
    FirstIndexSnoc(init, t, s2);
  }

  lemma OrderNew(init: seq<Transaction>, t: Transaction, s1: string, s2: string)
    requires Reports(init, s1) && !Reports(init, s2) && SkillOf(t) == Some(s2)
    ensures ReportedBefore(init + [t], s1, s2)
  {
    FirstIndexSnoc(init, t, s1);
    FirstIndexNew(init, t, s2);
  }

  lemma OrderStep(init: seq<Transaction>, t: Transaction, acc: seq<Entry>)
    requires Distinct(acc) && NamesExactly(init, acc) && FirstReportOrder(init, acc)
    ensures FirstReportOrder(init + [t], Step(acc, t))
  {
    var txs := init + [t];
    var m := Step(acc, t);
    var names, next := SkillNames(acc), SkillNames(m);
    forall p, q | 0 <= p < q < |m| ensures ReportedBefore(txs, m[p].skill, m[q].skill) {
      assert next[p] == m[p].skill && names[p] == acc[p].skill && next[p] == names[p];
      if q < |acc| {
        assert next[q] == m[q].skill && names[q] == acc[q].skill && next[q] == names[q];
        OrderOld(init, t, acc[p].skill, acc[q].skill);
      } else {
        var k := SkillOf(t).value;
        assert next[q] == m[q].skill == k && k !in names;
        assert names[p] in names;
        OrderNew(init, t, acc[p].skill, k);
      }
    }
  }

  /** The recorded maxima: one entry per reported known skill, no skill
      twice, each holding `max(0, largest amount)`, in order of first report. */
  lemma {:induction false} SkillMaximaCorrect(txs: seq<Transaction>)
    ensures Distinct(SkillMaxima(txs))
    ensures NamesExactly(txs, SkillMaxima(txs))
    ensures HoldsBest(txs, SkillMaxima(txs))
    ensures FirstReportOrder(txs, SkillMaxima(txs))
    decreases |txs|
  {
    if txs != [] {
      var init := txs[..|txs| - 1];
      var t := txs[|txs| - 1];
      assert txs == init + [t];
      SkillMaximaCorrect(init);
      var acc := SkillMaxima(init);
      NamesStep(init, t, acc);
      BestStep(init, t, acc);
      OrderStep(init, t, acc);
    }
  }

  lemma {:induction false} IgnoredInMaxima(a: seq<Transaction>, t: Transaction, b: seq<Transaction>)
    requires SkillOf(t) == None
    ensures SkillMaxima(a + [t] + b) == SkillMaxima(a + b)
    decreases |b|
  {
    if b == [] {
      assert a + [t] + b == a + [t] && a + b == a;
      StepSnoc(a, t);
    } else {
      var init := b[..|b| - 1];
      var x := b[|b| - 1];
      var longer, shorter := a + [t] + init, a + init;
      assert a + [t] + b == longer + [x];
      assert a + b == shorter + [x];
      calc {
        SkillMaxima(longer + [x]);
      == { StepSnoc(longer, x); }
        Step(SkillMaxima(longer), x);
      == { IgnoredInMaxima(a, t, init); }
        Step(SkillMaxima(shorter), x);
      == { StepSnoc(shorter, x); }
        SkillMaxima(shorter + [x]);
      }
    }
  }

  lemma StepSnoc(init: seq<Transaction>, x: Transaction)
    ensures SkillMaxima(init + [x]) == Step(SkillMaxima(init), x)
  {
    assert (init + [x])[..|init|] == init;
  }

  /** A transaction whose type is not "skill_" followed by a known skill
      changes nothing, wherever it stands in the history. */
  lemma IgnoredTransaction(a: seq<Transaction>, t: Transaction, b: seq<Transaction>)
    requires SkillOf(t) == None
    ensures SkillMaxima(a + [t] + b) == SkillMaxima(a + b)
    ensures PieChart(a + [t] + b) == PieChart(a + b)
  {
    IgnoredInMaxima(a, t, b);
  }

  lemma {:induction false} DistinctWithin(acc: seq<Entry>, universe: set<string>)
    requires Distinct(acc)
    requires forall j :: 0 <= j < |acc| ==> acc[j].skill in universe
    ensures |acc| <= |universe|
    decreases |acc|
  {
    if acc != [] {
      DistinctWithin(acc[1..], universe - {acc[0].skill});
    }
  }

  lemma KnownSkillCount()
    ensures |set k | k in KnownSkills| == 5
  {
    assert (set k | k in KnownSkills) == {"go", "html", "js", "sql", "css"};
  }

  /** The accumulator never holds more than the five known skills. */
  lemma AtMostFiveSkills(txs: seq<Transaction>)
    ensures |SkillMaxima(txs)| <= |KnownSkills|
  {
    var m := SkillMaxima(txs);
    SkillMaximaCorrect(txs);
    var known := set k | k in KnownSkills;
    forall j | 0 <= j < |m| ensures m[j].skill in known {
      assert SkillNames(m)[j] == m[j].skill;
      assert Reports(txs, m[j].skill);
      var i :| 0 <= i < |txs| && SkillOf(txs[i]) == Some(m[j].skill);
    }
    DistinctWithin(m, known);
    KnownSkillCount();
  }

  /** `Object.values(acc)`: the recorded values in insertion order. */
  function Values(acc: seq<Entry>): (values: seq<int>)
    ensures |values| == |acc|
    ensures forall j :: 0 <= j < |acc| ==> values[j] == acc[j].best
  {
    if acc == [] then [] else [acc[0].best] + Values(acc[1..])
  }

  /** `values.reduce((sum, val) => sum + val, 0)` (script.js:260), a left fold. */
  function Total(values: seq<int>): int {
    if values == [] then 0 else Total(values[..|values| - 1]) + values[|values| - 1]
  }

  lemma {:induction false} TotalBounds(values: seq<int>)
    requires forall j :: 0 <= j < |values| ==> values[j] >= 0
    ensures forall j :: 0 <= j < |values| ==> values[j] <= Total(values)
    ensures Total(values) == 0 <==> forall j :: 0 <= j < |values| ==> values[j] == 0
    decreases |values|
  {
    if values != [] {
      var init := values[..|values| - 1];
      TotalBounds(init);
      assert forall j :: 0 <= j < |init| ==> init[j] == values[j];
    }
  }

  /** One pie slice as Chart.js receives it, before `toFixed(2)`. */
  datatype Share = Percent(percent: real) | NotANumber

  /** `(value / total) * 100` in exact arithmetic; `0 / 0` is NaN. */
  function ShareOf(value: int, total: int): (share: Share)
    requires 0 <= value <= total
    ensures total == 0 <==> share == NotANumber
    ensures total > 0 ==> share.Percent? && 0.0 <= share.percent <= 100.0
  {
    if total == 0 then NotANumber else Percent(value as real / total as real * 100.0)
  }

  /** `values.map(value => (value / total) * 100)`. */
  function Shares(values: seq<int>, total: int): (shares: seq<Share>)
    requires forall j :: 0 <= j < |values| ==> 0 <= values[j] <= total
    ensures |shares| == |values|
    ensures forall j :: 0 <= j < |values| ==> shares[j] == ShareOf(values[j], total)
  {
    seq(|values|, j requires 0 <= j < |values| => ShareOf(values[j], total))
  }

  /** What createPieChart draws: "No data available", or the labels and their shares. */
  datatype PieData = NoData | Pie(labels: seq<string>, shares: seq<Share>)

  /** The data of the skill pie chart (script.js:238-262). The guard looks
      only at the number of keys, so a total of 0 still yields a pie. */
  function PieChart(txs: seq<Transaction>): (pie: PieData)
    ensures pie.NoData? <==> SkillMaxima(txs) == []
    ensures pie.Pie? ==> pie.labels == SkillNames(SkillMaxima(txs)) && |pie.shares| == |pie.labels|
  {
    var maxima := SkillMaxima(txs);
    if |maxima| == 0 then NoData
    else
      var values := Values(maxima);
      SkillMaximaCorrect(txs);
      TotalBounds(values);
      Pie(SkillNames(maxima), Shares(values, Total(values)))
  }

  /** The sum of the slices' percentages. */
  function PercentSum(shares: seq<Share>): real
    requires forall j :: 0 <= j < |shares| ==> shares[j].Percent?
  {
    if shares == [] then 0.0 else PercentSum(shares[..|shares| - 1]) + shares[|shares| - 1].percent
  }

  /** The amount a percentage of `total` stands for. */
  function AmountOf(percent: real, total: int): real {
    percent * total as real / 100.0
  }

  lemma AmountOfSum(x: real, y: real, total: int)
    ensures AmountOf(x + y, total) == AmountOf(x, total) + AmountOf(y, total)
  {
    assert (x + y) * total as real == x * total as real + y * total as real;
  }

  /** A slice over a positive total stands for exactly its skill's value. */
  lemma ShareAmount(value: int, total: int)
    requires 0 <= value <= total && total > 0
    ensures AmountOf(ShareOf(value, total).percent, total) == value as real
  {
    var t := total as real;
    var q := value as real / t;
    assert q * t == value as real;
    assert q * 100.0 * t == q * t * 100.0;
  }

  lemma {:induction false} PercentSumAmount(shares: seq<Share>, values: seq<int>, total: int)
    requires |shares| == |values|
    requires forall j :: 0 <= j < |shares| ==> shares[j].Percent?
    requires forall j :: 0 <= j < |values| ==> AmountOf(shares[j].percent, total) == values[j] as real
    ensures AmountOf(PercentSum(shares), total) == Total(values) as real
    decreases |values|
  {
    if values != [] {
      var n := |values| - 1;
      PercentSumAmount(shares[..n], values[..n], total);
      AmountOfSum(PercentSum(shares[..n]), shares[n].percent, total);
    }
  }

  lemma CancelPositive(x: real, total: int)
    requires total > 0 && AmountOf(x, total) == total as real
    ensures x == 100.0
  {
    var t := total as real;
    var xt := x * t;
    assert xt / 100.0 == t;
    var d := x - 100.0;
    assert d * t == xt - 100.0 * t;
    assert d * t == 0.0;
    if d != 0.0 {
      ProductNonZero(d, t);
    }
  }

  lemma ProductNonZero(a: real, b: real)
    requires a != 0.0 && b > 0.0
    ensures a * b != 0.0
  {
    if a < 0.0 {
      assert a * b == -((-a) * b);
    }
  }

  lemma SharesAmount(values: seq<int>, total: int)
    requires total > 0
    requires forall j :: 0 <= j < |values| ==> 0 <= values[j] <= total
    ensures |Shares(values, total)| == |values|
    ensures forall j :: 0 <= j < |values| ==>
      Shares(values, total)[j].Percent? && AmountOf(Shares(values, total)[j].percent, total) == values[j] as real
    ensures AmountOf(PercentSum(Shares(values, total)), total) == Total(values) as real
  {
    var shares := Shares(values, total);
    forall j | 0 <= j < |values|
      ensures shares[j].Percent? && AmountOf(shares[j].percent, total) == values[j] as real
    {
      ShareAmount(values[j], total);
    }
    PercentSumAmount(shares, values, total);
  }

  /** Slices over a positive total are percentages that make 100 together. */
  lemma SharesMakeHundred(values: seq<int>)
    requires Total(values) > 0
    requires forall j :: 0 <= j < |values| ==> 0 <= values[j] <= Total(values)
    ensures forall j :: 0 <= j < |values| ==> Shares(values, Total(values))[j].Percent?
    ensures PercentSum(Shares(values, Total(values))) == 100.0
  {
    var total := Total(values);
    SharesAmount(values, total);
    CancelPositive(PercentSum(Shares(values, total)), total);
  }

  /** "No data available" is shown exactly when no transaction reports a known skill. */
  lemma NoDataIffNoSkill(txs: seq<Transaction>)
    ensures PieChart(txs) == NoData <==> forall i :: 0 <= i < |txs| ==> SkillOf(txs[i]) == None
  {
    var m := SkillMaxima(txs);
    SkillMaximaCorrect(txs);
    if |m| == 0 {
      forall i | 0 <= i < |txs| ensures SkillOf(txs[i]) == None {
        if SkillOf(txs[i]).Some? {
          assert Reports(txs, SkillOf(txs[i]).value);
          assert false;
        }
      }
    } else {
      assert SkillNames(m)[0] == m[0].skill;
      assert Reports(txs, m[0].skill);
    }
  }

  /** The labels are the reported known skills, each once, in order of first
      report, and there is one slice per label. */
  lemma PieLabels(txs: seq<Transaction>)
    requires PieChart(txs).Pie?
    ensures |PieChart(txs).shares| == |PieChart(txs).labels| <= 5
    ensures forall k :: k in PieChart(txs).labels <==> Reports(txs, k)
    ensures forall p, q :: 0 <= p < q < |PieChart(txs).labels| ==>
      Reports(txs, PieChart(txs).labels[p]) && Reports(txs, PieChart(txs).labels[q]) &&
      FirstIndex(txs, PieChart(txs).labels[p]) < FirstIndex(txs, PieChart(txs).labels[q])
  {
    var m := SkillMaxima(txs);
    SkillMaximaCorrect(txs);
    AtMostFiveSkills(txs);
    var labels := SkillNames(m);
    assert PieChart(txs).labels == labels;
    forall p, q | 0 <= p < q < |labels|
      ensures Reports(txs, labels[p]) && Reports(txs, labels[q]) && FirstIndex(txs, labels[p]) < FirstIndex(txs, labels[q])
    {
      assert labels[p] == m[p].skill && labels[q] == m[q].skill;
    }
  }

  /** With a positive total every slice is a percentage in [0, 100] that
      stands for its own skill's best amount, and the slices make 100. */
  lemma SharesOfPositiveTotal(txs: seq<Transaction>)
    requires PieChart(txs).Pie? && Total(Values(SkillMaxima(txs))) > 0
    ensures var pie := PieChart(txs); var total := Total(Values(SkillMaxima(txs)));
      |pie.shares| == |pie.labels| &&
      (forall j :: 0 <= j < |pie.shares| ==>
        pie.shares[j].Percent? && 0.0 <= pie.shares[j].percent <= 100.0 &&
        AmountOf(pie.shares[j].percent, total) == Best(txs, pie.labels[j]) as real) &&
      PercentSum(pie.shares) == 100.0
  {
    var m := SkillMaxima(txs);
    var values := Values(m);
    var total := Total(values);
    SkillMaximaCorrect(txs);
    TotalBounds(values);
    var pie := PieChart(txs);
    assert pie.labels == SkillNames(m) && pie.shares == Shares(values, total);
    forall j | 0 <= j < |m|
      ensures pie.labels[j] == m[j].skill && values[j] == Best(txs, m[j].skill)
      ensures 0.0 <= pie.shares[j].percent <= 100.0
    {
      assert values[j] == m[j].best;
      assert pie.shares[j] == ShareOf(values[j], total);
    }
    SharesAmount(values, total);
    SharesMakeHundred(values);
  }

  /** The guard's gap: when every reported amount is 0 or less, the keys are
      there but the total is 0, and every slice is NaN. */
  lemma ZeroTotalGivesNaN(txs: seq<Transaction>)
    requires exists i :: 0 <= i < |txs| && SkillOf(txs[i]).Some?
    requires forall i :: 0 <= i < |txs| && SkillOf(txs[i]).Some? ==> txs[i].amount <= 0
    ensures PieChart(txs).Pie?
    ensures forall j :: 0 <= j < |PieChart(txs).shares| ==> PieChart(txs).shares[j] == NotANumber
  {
    var m := SkillMaxima(txs);
    SkillMaximaCorrect(txs);
    NoDataIffNoSkill(txs);
    var values := Values(m);
    forall j | 0 <= j < |m| ensures values[j] == 0 {
      var b := Best(txs, m[j].skill);
    }
    TotalBounds(values);
  }

  lemma SkillOfKnown(tx: Transaction, k: string)
    requires k in KnownSkills && tx.kind == SkillPrefix + k
    ensures SkillOf(tx) == Some(k)
  {
    assert (SkillPrefix + k)[|SkillPrefix|..] == k;
  }

  /** A transaction naming a skill not yet recorded appends it with `max(0, amount)`. */
  lemma AppendNewSkill(txs: seq<Transaction>, t: Transaction, k: string)
    requires SkillOf(t) == Some(k) && k !in SkillNames(SkillMaxima(txs))
    ensures SkillMaxima(txs + [t]) == SkillMaxima(txs) + [Entry(k, Max(0, t.amount))]
  {
    StepSnoc(txs, t);
    RecordNew(SkillMaxima(txs), k, t.amount);
  }

  /** A transaction naming a recorded skill raises that entry in place to the larger amount. */
  lemma AppendKnownSkill(txs: seq<Transaction>, t: Transaction, j: nat)
    requires j < |SkillMaxima(txs)| && SkillOf(t) == Some(SkillMaxima(txs)[j].skill)
    ensures var m := SkillMaxima(txs);
      SkillMaxima(txs + [t]) == m[j := Entry(m[j].skill, Max(m[j].best, t.amount))]
  {
    StepSnoc(txs, t);
    RecordExisting(SkillMaxima(txs), j, t.amount);
  }

  lemma FirstGo(a: Transaction)
    requires SkillOf(a) == Some("go") && a.amount == 50
    ensures SkillMaxima([a]) == [Entry("go", 50)]
  {
    AppendNewSkill([], a, "go");
    assert [] + [a] == [a];
  }

  lemma SecondGo(a: Transaction, b: Transaction)
    requires SkillOf(a) == Some("go") && a.amount == 50
    requires SkillOf(b) == Some("go") && b.amount == 30
    ensures SkillMaxima([a, b]) == [Entry("go", 50)]
  {
    FirstGo(a);
    AppendKnownSkill([a], b, 0);
    assert [a] + [b] == [a, b];
  }

  lemma ExampleMaxima(p: seq<Transaction>, c: Transaction)
    requires SkillMaxima(p) == [Entry("go", 50)]
    requires SkillOf(c) == Some("html") && c.amount == 50
    ensures SkillMaxima(p + [c]) == [Entry("go", 50), Entry("html", 50)]
  {
    assert SkillNames([Entry("go", 50)]) == ["go"];
    AppendNewSkill(p, c, "html");
  }

  /** Two skills at 50 each split the chart evenly. */
  lemma EvenPie(txs: seq<Transaction>)
    requires SkillMaxima(txs) == [Entry("go", 50), Entry("html", 50)]
    ensures PieChart(txs) == Pie(["go", "html"], [Percent(50.0), Percent(50.0)])
  {
    var m := SkillMaxima(txs);
    assert SkillNames(m) == ["go", "html"];
    assert Values(m) == [50, 50];
    assert Total([50, 50]) == 100;
    assert ShareOf(50, 100) == Percent(50.0);
    assert Shares([50, 50], 100) == [Percent(50.0), Percent(50.0)];
  }

  /** A repeated skill keeps its maximum, not the sum: go 50 then 30 and html 50 give 50% each. */
  lemma MaxNotSum()
    ensures PieChart([Transaction("t1", 50, "skill_go"), Transaction("t2", 30, "skill_go"),
                      Transaction("t3", 50, "skill_html")])
            == Pie(["go", "html"], [Percent(50.0), Percent(50.0)])
  {
    var a := Transaction("t1", 50, "skill_go");
    var b := Transaction("t2", 30, "skill_go");
    var c := Transaction("t3", 50, "skill_html");
    assert "skill_go" == SkillPrefix + "go" && "skill_html" == SkillPrefix + "html";
    SkillOfKnown(a, "go");
    SkillOfKnown(b, "go");
    SkillOfKnown(c, "html");
    SecondGo(a, b);
    ExampleMaxima([a, b], c);
    assert [a, b] + [c] == [a, b, c];
    EvenPie([a, b, c]);
  }
}
