/**
 * The progress engine (lib/metrics.py): the plan in force for a student, the
 * completed electives and their split by orientation, the 5-of-8 rule, the
 * risk band, and the cohort and program aggregates. Every function reads a
 * snapshot of the tables; `now` stands for the clock.
 */
module Metrics {
  import opened Wrappers
  import opened Dates
  import opened Models
  import opened Counter
  import opened Seqs

  /** The default `elective_type`. */
  const Electiva: string := "electiva"
  /** The group name of electives without an orientation. */
  const SinOrientacion: string := "sin_orientacion"
  /** The default `required_count` and `target_count`. */
  const RequiredCount: int := 5

  // ---------------------------------------------------------------------
  // the plan in force

  /** `vigente_desde <= now` and (`vigente_hasta IS NULL` or `vigente_hasta >= now`). */
  predicate InForce(p: PlanVersion, now: Stamp) {
    StampLe(p.desde, now) && (p.hasta.None? || StampLe(now, p.hasta.value))
  }

  predicate Qualifies(p: PlanVersion, sid: nat, now: Stamp) {
    p.studentId == sid && InForce(p, now)
  }

  /** The position of the row `ORDER BY vigente_desde DESC ... first()`
      returns among the qualifying plans: one with the latest start, the
      first such in key order. */
  function LatestQualifying(ps: seq<PlanVersion>, sid: nat, now: Stamp): (r: Option<nat>)
    ensures r.Some? ==> r.value < |ps| && Qualifies(ps[r.value], sid, now)
    ensures r.Some? ==> forall j :: 0 <= j < |ps| && Qualifies(ps[j], sid, now) ==> StampLe(ps[j].desde, ps[r.value].desde)
    ensures r.Some? ==> forall j :: 0 <= j < r.value && Qualifies(ps[j], sid, now) ==> ps[j].desde != ps[r.value].desde
    ensures r.None? <==> forall j :: 0 <= j < |ps| ==> !Qualifies(ps[j], sid, now)
    decreases |ps|
  {
    if ps == [] then None
    else
      var r := LatestQualifying(ps[..|ps| - 1], sid, now);
      assert forall j :: 0 <= j < |ps| - 1 ==> ps[..|ps| - 1][j] == ps[j];
      var last := ps[|ps| - 1];
      if Qualifies(last, sid, now) && (r.None? || !StampLe(last.desde, ps[r.value].desde)) then
        Some(|ps| - 1)
      else
        r
  }

  /** `get_current_plan(student_id)`. */
  function CurrentPlan(t: Tables, sid: nat, now: Stamp): (r: Option<PlanVersion>)
    ensures r.Some? ==> r.value in t.plans && Qualifies(r.value, sid, now)
    ensures r.Some? ==> forall j :: 0 <= j < |t.plans| && Qualifies(t.plans[j], sid, now) ==> StampLe(t.plans[j].desde, r.value.desde)
    ensures r.None? <==> forall j :: 0 <= j < |t.plans| ==> !Qualifies(t.plans[j], sid, now)
  {
    match LatestQualifying(t.plans, sid, now)
    case None => None
    case Some(i) => Some(t.plans[i])
  }

  /** When exactly one plan of the student is in force, it is the current one. */
  lemma OnlyQualifyingIsCurrent(t: Tables, sid: nat, now: Stamp, i: nat)
    requires i < |t.plans| && Qualifies(t.plans[i], sid, now)
    requires forall j :: 0 <= j < |t.plans| && j != i ==> !Qualifies(t.plans[j], sid, now)
    ensures CurrentPlan(t, sid, now) == Some(t.plans[i])
  {
    var r := LatestQualifying(t.plans, sid, now);
    assert r.Some?;
    assert r.value == i;
  }

  // ---------------------------------------------------------------------
  // completed electives

  /** The join and filter of the elective queries: a completed enrollment of
      the student whose course exists and has the given `tipo_materia`. */
  predicate CountsAsElective(t: Tables, sid: nat, et: string, e: Enrollment) {
    e.studentId == sid && e.status == Completed
    && e.courseId in t.courses && t.courses[e.courseId].tipoMateria == Some(et)
  }

  function ElectiveEnrollments(t: Tables, sid: nat, et: string): seq<Enrollment> {
    Filter(t.enrollments, e => CountsAsElective(t, sid, et, e))
  }

  /** `count_electives_completed(student_id, elective_type)`. */
  function CountElectivesCompleted(t: Tables, sid: nat, et: string): (n: nat)
    ensures n <= |t.enrollments|
    ensures n == 0 <==> forall i :: 0 <= i < |t.enrollments| ==> !CountsAsElective(t, sid, et, t.enrollments[i])
  {
    FilterEmpty(t.enrollments, e => CountsAsElective(t, sid, et, e));
    |ElectiveEnrollments(t, sid, et)|
  }

  /** The orientation of the course of every counted enrollment, in order. */
  function Orientations(t: Tables, sid: nat, et: string): (os: seq<Option<string>>)
    ensures |os| == CountElectivesCompleted(t, sid, et)
  {
    var es := ElectiveEnrollments(t, sid, et);
    seq(|es|, i requires 0 <= i < |es| => t.courses[es[i].courseId].orientacion)
  }

  /** `orient or "sin_orientacion"`: NULL and the empty string both fall back. */
  function Label(o: Option<string>): (l: string)
    ensures l == SinOrientacion <==> o.None? || o.value == "" || o.value == SinOrientacion
    ensures o.Some? && o.value != "" ==> l == o.value
  {
    OrDefault(o, SinOrientacion)
  }

  function Labels(os: seq<Option<string>>): (ls: seq<string>)
    ensures |ls| == |os| && forall i :: 0 <= i < |os| ==> ls[i] == Label(os[i])
  {
    seq(|os|, i requires 0 <= i < |os| => Label(os[i]))
  }

  /** `elective_counts_by_orientation`, with groups that fall back to the
      same label added together: one entry per label, in the order labels
      first occur, each counting the completed electives with that label. */
  function ElectiveCountsByOrientation(t: Tables, sid: nat, et: string): (d: Tally<string>)
    ensures DistinctKeys(d) && AllPositive(d)
    ensures Total(d) == CountElectivesCompleted(t, sid, et)
  {
    var ls := Labels(Orientations(t, sid, et));
    TallyOfShape(ls);
    TallyOf(ls)
  }

  /** Each label counts exactly the completed electives that carry it. */
  lemma ByOrientationGet(t: Tables, sid: nat, et: string, k: string)
    ensures Get(ElectiveCountsByOrientation(t, sid, et), k) == Occurrences(Labels(Orientations(t, sid, et)), k)
  {
    TallyOfGet(Labels(Orientations(t, sid, et)), k);
  }

  /** The sum of the per-orientation counts is the number of completed
      electives, as `risk_score` reports it. */
  lemma ByOrientationTotal(t: Tables, sid: nat, et: string)
    ensures Total(ElectiveCountsByOrientation(t, sid, et)) == CountElectivesCompleted(t, sid, et)
    ensures ElectiveCountsByOrientation(t, sid, et) == [] <==> CountElectivesCompleted(t, sid, et) == 0
  {
    var d := ElectiveCountsByOrientation(t, sid, et);
    if d != [] {
      TotalPositive(d);
    }
  }

  lemma {:induction false} TotalPositive(d: Tally<string>)
    requires AllPositive(d) && d != []
    ensures Total(d) >= 1
    decreases |d|
  {
    if |d| > 1 {
      TotalPositive(d[..|d| - 1]);
    }
  }

  // ---------------------------------------------------------------------
  // the dictionary comprehension as written

  /** `{orient or "sin_orientacion": count for orient, count in rows}`: a
      later group whose label is already present overwrites its count. */
  function Relabel(g: Tally<Option<string>>): Tally<string>
    decreases |g|
  {
    if g == [] then [] else Put(Relabel(g[..|g| - 1]), Label(g[|g| - 1].0), g[|g| - 1].1)
  }

  /** `elective_counts_by_orientation` as written: SQL groups by the stored
      orientation, so NULL and "" are two groups, and the comprehension then
      keeps only one of their counts. */
  function ElectiveCountsAsWritten(t: Tables, sid: nat, et: string): (d: Tally<string>)
    ensures Total(d) <= CountElectivesCompleted(t, sid, et)
  {
    var os := Orientations(t, sid, et);
    TallyOfShape(os);
    RelabelTotal(TallyOf(os));
    Relabel(TallyOf(os))
  }

  /** `d[k] = n` adds at most `n` to the total. */
  lemma PutTotal(d: Tally<string>, k: string, n: nat)
    ensures Total(Put(d, k, n)) <= Total(d) + n
  {
    var i := Find(d, k);
    if i < 0 {
      assert (d + [(k, n)])[..|d|] == d;
    } else {
      TotalUpdate(d, i, (k, n));
    }
  }

  /** Overwriting never adds: the relabelled groups count at most the groups. */
  lemma {:induction false} RelabelTotal(g: Tally<Option<string>>)
    ensures Total(Relabel(g)) <= Total(g)
    decreases |g|
  {
    if g != [] {
      RelabelTotal(g[..|g| - 1]);
      PutTotal(Relabel(g[..|g| - 1]), Label(g[|g| - 1].0), g[|g| - 1].1);
    }
  }

  /** Two completed electives, one without orientation and one with an empty
      orientation: the comprehension reports one of them, so the total that
      `risk_score` derives from it is 1 while `count_electives_completed`
      is 2. */
  lemma MergedGroupsUndercount(t: Tables, sid: nat, et: string)
    requires Orientations(t, sid, et) == [None, Some("")]
    ensures CountElectivesCompleted(t, sid, et) == 2
    ensures Total(ElectiveCountsAsWritten(t, sid, et)) == 1
    ensures Total(ElectiveCountsByOrientation(t, sid, et)) == 2
  {
    TallyOfTwo(None, Some(""));
    RelabelMerges(None, Some(""));
    ByOrientationTotal(t, sid, et);
  }

  lemma TallyOfTwo<K>(a: K, b: K)
    requires a != b
    ensures TallyOf([a, b]) == [(a, 1), (b, 1)]
  {
    assert [a, b][..1] == [a] && [a][..0] == [];
    assert TallyOf([a]) == [(a, 1)];
  }

  /** Two groups with the same label leave one entry, holding the later count. */
  lemma RelabelMerges(a: Option<string>, b: Option<string>)
    requires Label(a) == Label(b)
    ensures Relabel([(a, 1), (b, 1)]) == [(Label(a), 1)]
    ensures Total([(Label(a), 1)]) == 1
  {
    var g: Tally<Option<string>> := [(a, 1), (b, 1)];
    assert g[..1] == [(a, 1)] && g[..1][..0] == [];
    assert Relabel(g[..1]) == [(Label(a), 1)];
    var one: Tally<string> := [(Label(a), 1)];
    assert one[..0] == [];
  }

  // ---------------------------------------------------------------------
  // where the comprehension as written agrees with the corrected counts

  /** An orientation whose label no other orientation shares: anything but
      the empty string and the literal "sin_orientacion". */
  predicate Clear(o: Option<string>) {
    o != Some("") && o != Some(SinOrientacion)
  }

  /** No counted elective has an orientation that falls back to the label of
      another group. */
  predicate Unambiguous(os: seq<Option<string>>) {
    forall i :: 0 <= i < |os| ==> Clear(os[i])
  }

  predicate ClearKeys(g: Tally<Option<string>>) {
    forall i :: 0 <= i < |g| ==> Clear(g[i].0)
  }

  /** The groups with their keys replaced by their labels, in place. */
  function LabelKeys(g: Tally<Option<string>>): (r: Tally<string>)
    ensures |r| == |g| && forall i :: 0 <= i < |g| ==> r[i] == (Label(g[i].0), g[i].1)
  {
    seq(|g|, i requires 0 <= i < |g| => (Label(g[i].0), g[i].1))
  }

  lemma {:induction false} FindLabelKeys(g: Tally<Option<string>>, k: Option<string>)
    requires ClearKeys(g) && Clear(k)
    ensures Find(LabelKeys(g), Label(k)) == Find(g, k)
    decreases |g|
  {
    if g != [] {
      assert LabelKeys(g)[1..] == LabelKeys(g[1..]);
      FindLabelKeys(g[1..], k);
    }
  }

  lemma BumpLabelKeys(g: Tally<Option<string>>, k: Option<string>, n: nat)
    requires ClearKeys(g) && Clear(k)
    ensures ClearKeys(Bump(g, k, n))
    ensures LabelKeys(Bump(g, k, n)) == Bump(LabelKeys(g), Label(k), n)
  {
    FindLabelKeys(g, k);
  }

  /** Labelling the orientations before or after counting them gives the
      same tally when no two orientations share a label. */
  lemma {:induction false} TallyOfLabels(os: seq<Option<string>>)
    requires Unambiguous(os)
    ensures ClearKeys(TallyOf(os))
    ensures TallyOf(Labels(os)) == LabelKeys(TallyOf(os))
    decreases |os|
  {
    if os != [] {
      var init := os[..|os| - 1];
      assert Labels(os)[..|os| - 1] == Labels(init);
      TallyOfLabels(init);
      BumpLabelKeys(TallyOf(init), os[|os| - 1], 1);
    }
  }

  /** With distinct keys no relabelled group overwrites another. */
  lemma {:induction false} RelabelDistinct(g: Tally<Option<string>>)
    requires ClearKeys(g) && DistinctKeys(g)
    ensures Relabel(g) == LabelKeys(g)
    decreases |g|
  {
    if g != [] {
      var init := g[..|g| - 1];
      RelabelDistinct(init);
      FindLabelKeys(init, g[|g| - 1].0);
      assert LabelKeys(init) + [(Label(g[|g| - 1].0), g[|g| - 1].1)] == LabelKeys(g);
    }
  }

  /** For a student none of whose completed electives has an empty or a
      literal "sin_orientacion" orientation, the comprehension as written
      gives the corrected counts, in the same order. */
  lemma AsWrittenAgrees(t: Tables, sid: nat, et: string)
    requires Unambiguous(Orientations(t, sid, et))
    ensures ElectiveCountsAsWritten(t, sid, et) == ElectiveCountsByOrientation(t, sid, et)
  {
    var os := Orientations(t, sid, et);
    TallyOfShape(os);
    TallyOfLabels(os);
    RelabelDistinct(TallyOf(os));
  }

  // ---------------------------------------------------------------------
  // the 5-of-8 rule

  datatype RuleResult = RuleResult(ok: bool, best: Option<string>, bestCount: nat)

  /** `check_rule_5_of_8` on the counts it obtains: no counts fail the rule;
      otherwise the best orientation is the first with the largest count, and
      the rule holds iff that count reaches `required`. */
  function RuleOf(d: Tally<string>, required: int): (r: RuleResult)
    ensures d == [] ==> r == RuleResult(false, None, 0)
    ensures d != [] ==> r.best.Some?
    ensures d != [] ==> exists i :: 0 <= i < |d| && d[i] == (r.best.value, r.bestCount)
                                    && forall j :: 0 <= j < i ==> d[j].1 < d[i].1
    ensures forall j :: 0 <= j < |d| ==> d[j].1 <= r.bestCount
    ensures r.ok <==> exists j :: 0 <= j < |d| && d[j].1 >= required
  {
    if d == [] then RuleResult(false, None, 0)
    else
      var i := ArgMax(d);
      RuleResult(d[i].1 >= required, Some(d[i].0), d[i].1)
  }

  /** `check_rule_5_of_8(student_id, elective_type, required_count)`. */
  function CheckRule5Of8(t: Tables, sid: nat, et: string, required: int): (r: RuleResult)
    ensures r.best.None? <==> CountElectivesCompleted(t, sid, et) == 0
    ensures r.best.None? ==> r == RuleResult(false, None, 0)
    ensures r.best.Some? ==> r.bestCount == Occurrences(Labels(Orientations(t, sid, et)), r.best.value)
  {
    ByOrientationTotal(t, sid, et);
    BestCountIsOccurrences(t, sid, et, required);
    RuleOf(ElectiveCountsByOrientation(t, sid, et), required)
  }

  /** The best count is the number of completed electives with the best label. */
  lemma BestCountIsOccurrences(t: Tables, sid: nat, et: string, required: int)
    ensures var r := RuleOf(ElectiveCountsByOrientation(t, sid, et), required);
      r.best.Some? ==> r.bestCount == Occurrences(Labels(Orientations(t, sid, et)), r.best.value)
  {
    var d := ElectiveCountsByOrientation(t, sid, et);
    var r := RuleOf(d, required);
    if r.best.Some? {
      var i :| 0 <= i < |d| && d[i] == (r.best.value, r.bestCount) && forall j :: 0 <= j < i ==> d[j].1 < d[i].1;
      assert Find(d, r.best.value) == i;
      ByOrientationGet(t, sid, et, r.best.value);
    }
  }

  /** The rule holds exactly when some orientation label carries at least
      `required` completed electives. */
  lemma RuleMeaning(t: Tables, sid: nat, et: string, required: int)
    requires required >= 1
    ensures CheckRule5Of8(t, sid, et, required).ok
        <==> exists k :: Occurrences(Labels(Orientations(t, sid, et)), k) >= required
  {
    var d := ElectiveCountsByOrientation(t, sid, et);
    var ls := Labels(Orientations(t, sid, et));
    if CheckRule5Of8(t, sid, et, required).ok {
      var j :| 0 <= j < |d| && d[j].1 >= required;
      assert Find(d, d[j].0) == j;
      ByOrientationGet(t, sid, et, d[j].0);
    }
    if exists k :: Occurrences(ls, k) >= required {
      var k :| Occurrences(ls, k) >= required;
      ByOrientationGet(t, sid, et, k);
      var j := Find(d, k);
      assert j >= 0 && d[j].1 >= required;
    }
  }

  // ---------------------------------------------------------------------
  // risk

  datatype Level = Low | Medium | High

  function LevelName(l: Level): string {
    match l
    case Low => "low"
    case Medium => "medium"
    case High => "high"
  }

  /** The band of a gap: none left is low, one or two is medium, more is high. */
  function Band(gap: int): (l: Level)
    requires gap >= 0
    ensures l == Low <==> gap == 0
    ensures l == Medium <==> 1 <= gap <= 2
    ensures l == High <==> gap > 2
  {
    if gap == 0 then Low else if gap <= 2 then Medium else High
  }

  datatype Risk = Risk(total: nat, gap: int, best: Option<string>, bestCount: nat, level: Level)

  /** `risk_score` on the counts it obtains. */
  function RiskOf(d: Tally<string>, target: int): (r: Risk)
    ensures d == [] ==> r == Risk(0, target, None, 0, High)
    ensures d != [] ==> r.total == Total(d)
    ensures d != [] ==> r.best == RuleOf(d, target).best && r.bestCount == RuleOf(d, target).bestCount
    ensures d != [] ==> r.gap >= 0 && r.gap >= target - r.bestCount && (r.gap == 0 || r.gap == target - r.bestCount)
    ensures d != [] ==> (r.level == Low <==> r.gap == 0) && (r.level == High <==> r.gap > 2)
  {
    if d == [] then Risk(0, target, None, 0, High)
    else
      var rule := RuleOf(d, target);
      var gap := if target - rule.bestCount > 0 then target - rule.bestCount else 0;
      Risk(Total(d), gap, rule.best, rule.bestCount, Band(gap))
  }

  /** `risk_score(student_id, elective_type, target_count)`. */
  function RiskScore(t: Tables, sid: nat, et: string, target: int): (r: Risk)
    ensures CountElectivesCompleted(t, sid, et) == 0 ==> r == Risk(0, target, None, 0, High)
    ensures r.level == Low <==> CheckRule5Of8(t, sid, et, target).ok
    ensures r.best == CheckRule5Of8(t, sid, et, target).best
  {
    ByOrientationTotal(t, sid, et);
    RiskOf(ElectiveCountsByOrientation(t, sid, et), target)
  }

  /** Low risk and meeting the rule with the same target coincide, with or
      without completed electives. */
  lemma LowRiskIffRule(d: Tally<string>, target: int)
    ensures RiskOf(d, target).level == Low <==> RuleOf(d, target).ok
  {
  }

  /** A gap of at most two is never high; with no completed electives the
      risk is high whatever the target, even one already met. */
  lemma RiskBands(t: Tables, sid: nat, et: string, target: int)
    ensures var r := RiskScore(t, sid, et, target);
      CountElectivesCompleted(t, sid, et) > 0 ==> (r.level == High <==> r.gap > 2) && r.total == CountElectivesCompleted(t, sid, et)
    ensures CountElectivesCompleted(t, sid, et) == 0 ==> RiskScore(t, sid, et, target) == Risk(0, target, None, 0, High)
  {
    ByOrientationTotal(t, sid, et);
  }

  // ---------------------------------------------------------------------
  // aggregates

  /** The dictionary of `aggregated_metrics_by_cohort/program`; `rate` is
      absent for an empty group, as the key is. Rates are exact quotients. */
  datatype Aggregate = Aggregate(total: nat, compliant: nat, avgCompleted: real, rate: Option<real>)

  predicate Complies(t: Tables, sid: nat, et: string) {
    CheckRule5Of8(t, sid, et, RequiredCount).ok
  }

  /** How many of the flags are set. */
  function TrueCount(bs: seq<bool>): (n: nat)
    ensures n <= |bs|
    ensures n == |bs| <==> forall i :: 0 <= i < |bs| ==> bs[i]
    ensures n == 0 <==> forall i :: 0 <= i < |bs| ==> !bs[i]
    decreases |bs|
  {
    if bs == [] then 0
    else
      var init := bs[..|bs| - 1];
      assert forall i :: 0 <= i < |init| ==> init[i] == bs[i];
      TrueCount(init) + (if bs[|bs| - 1] then 1 else 0)
  }

  /** Whether each student of the group meets the rule. */
  function Verdicts(t: Tables, ids: seq<nat>, et: string): (bs: seq<bool>)
    ensures |bs| == |ids| && forall i :: 0 <= i < |ids| ==> bs[i] == Complies(t, ids[i], et)
  {
    Holds(ids, Verdict(t, et))
  }

  function Verdict(t: Tables, et: string): nat -> bool {
    (id: nat) => Complies(t, id, et)
  }

  /** The flag of each id. */
  function Holds(ids: seq<nat>, v: nat -> bool): (bs: seq<bool>)
    ensures |bs| == |ids| && forall i :: 0 <= i < |ids| ==> bs[i] == v(ids[i])
  {
    seq(|ids|, i requires 0 <= i < |ids| => v(ids[i]))
  }

  /** `sum(1 for sid in student_ids if check_rule_5_of_8(sid, elective_type)[0])`. */
  function CompliantCount(t: Tables, ids: seq<nat>, et: string): (n: nat)
    ensures n <= |ids|
    ensures n == |ids| <==> forall i :: 0 <= i < |ids| ==> Complies(t, ids[i], et)
  {
    TrueCount(Verdicts(t, ids, et))
  }

  /** `sum(count_electives_completed(sid, elective_type) for sid in student_ids)`. */
  function CompletedSum(t: Tables, ids: seq<nat>, et: string): (n: nat)
    ensures n == 0 <==> forall i :: 0 <= i < |ids| ==> CountElectivesCompleted(t, ids[i], et) == 0
    decreases |ids|
  {
    if ids == [] then 0
    else
      var init := ids[..|ids| - 1];
      assert forall i :: 0 <= i < |init| ==> init[i] == ids[i];
      CompletedSum(t, init, et) + CountElectivesCompleted(t, ids[|ids| - 1], et)
  }

  /** The statistics of a group of students. */
  function AggregateOf(t: Tables, ids: seq<nat>, et: string): (a: Aggregate)
    ensures ids == [] ==> a == Aggregate(0, 0, 0.0, None)
    ensures a.total == |ids| && a.compliant == CompliantCount(t, ids, et)
    ensures ids != [] ==> a.rate.Some? && 0.0 <= a.rate.value <= 1.0
    ensures ids != [] ==> (a.rate == Some(1.0) <==> forall i :: 0 <= i < |ids| ==> Complies(t, ids[i], et))
    ensures ids != [] ==> a.rate == Some(Rate(a.compliant, |ids|))
    ensures ids != [] ==> a.avgCompleted == CompletedSum(t, ids, et) as real / |ids| as real
    ensures a.avgCompleted >= 0.0
  {
    if ids == [] then Aggregate(0, 0, 0.0, None)
    else
      var c := CompliantCount(t, ids, et);
      var m := Mean(CompletedSum(t, ids, et), |ids|);
      var r := Rate(c, |ids|);
      Aggregate(|ids|, c, m, Some(r))
  }

  /** `part / whole` for a part of a non-empty whole: a fraction in [0, 1]
      that is 1 exactly when the part is the whole. */
  function Rate(part: nat, whole: nat): (r: real)
    requires 0 < whole && part <= whole
    ensures 0.0 <= r <= 1.0
    ensures r * whole as real == part as real
    ensures r == 1.0 <==> part == whole
  {
    var r := part as real / whole as real;
    assert r * whole as real == part as real;
    r
  }

  /** `total / count`. */
  function Mean(total: nat, count: nat): (r: real)
    requires count > 0
    ensures r >= 0.0 && r * count as real == total as real
  {
    total as real / count as real
  }

  function StudentIds(s: seq<Student>): (ids: seq<nat>)
    ensures |ids| == |s| && forall i :: 0 <= i < |s| ==> ids[i] == s[i].id
  {
    seq(|s|, i requires 0 <= i < |s| => s[i].id)
  }

  /** The students of a cohort, and of a programme. */
  function InCohort(cohort: string): Student -> bool {
    (s: Student) => s.cohorte == Some(cohort)
  }

  function InProgram(program: string): Student -> bool {
    (s: Student) => s.programa == Some(program)
  }

  /** The students of a group whose id has the flag, and the students of a
      group that meet the rule. */
  function Both(p: Student -> bool, v: nat -> bool): Student -> bool {
    (s: Student) => p(s) && v(s.id)
  }

  function CompliantIn(t: Tables, p: Student -> bool, et: string): Student -> bool {
    Both(p, Verdict(t, et))
  }

  /** Counting the flags of a group's ids counts the group's students whose
      id has the flag. */
  lemma {:induction false} HoldsAmong(xs: seq<Student>, p: Student -> bool, v: nat -> bool)
    ensures TrueCount(Holds(StudentIds(Filter(xs, p)), v)) == Count(xs, Both(p, v))
    decreases |xs|
  {
    if xs != [] {
      var init := xs[..|xs| - 1];
      var x := xs[|xs| - 1];
      assert xs == init + [x];
      HoldsAmong(init, p, v);
      FilterAppend(init, x, Both(p, v));
      FilterAppend(init, x, p);
      HoldsSnoc(Filter(init, p), x, p, v);
    }
  }

  lemma HoldsSnoc(f: seq<Student>, x: Student, p: Student -> bool, v: nat -> bool)
    ensures TrueCount(Holds(StudentIds(f + (if p(x) then [x] else [])), v))
      == TrueCount(Holds(StudentIds(f), v)) + (if Both(p, v)(x) then 1 else 0)
  {
    if p(x) {
      var bs := Holds(StudentIds(f + [x]), v);
      assert bs[..|bs| - 1] == Holds(StudentIds(f), v);
    } else {
      assert f + [] == f;
    }
  }

  /** The compliant count of a group's ids counts the group's students that
      meet the rule. */
  lemma CompliantAmong(t: Tables, xs: seq<Student>, p: Student -> bool, et: string)
    ensures CompliantCount(t, StudentIds(Filter(xs, p)), et) == Count(xs, CompliantIn(t, p, et))
  {
    HoldsAmong(xs, p, Verdict(t, et));
  }

  /** `aggregated_metrics_by_cohort(cohort, elective_type)`. */
  function CohortMetrics(t: Tables, cohort: string, et: string): (a: Aggregate)
    ensures a == AggregateOf(t, StudentIds(Filter(t.students, InCohort(cohort))), et)
    ensures a.total == Count(t.students, InCohort(cohort))
    ensures a.compliant == Count(t.students, CompliantIn(t, InCohort(cohort), et))
    ensures a.total == 0 <==> forall i :: 0 <= i < |t.students| ==> t.students[i].cohorte != Some(cohort)
  {
    FilterEmpty(t.students, InCohort(cohort));
    CompliantAmong(t, t.students, InCohort(cohort), et);
    AggregateOf(t, StudentIds(Filter(t.students, InCohort(cohort))), et)
  }

  /** `aggregated_metrics_by_program(program, elective_type)`. */
  function ProgramMetrics(t: Tables, program: string, et: string): (a: Aggregate)
    ensures a == AggregateOf(t, StudentIds(Filter(t.students, InProgram(program))), et)
    ensures a.total == Count(t.students, InProgram(program))
    ensures a.compliant == Count(t.students, CompliantIn(t, InProgram(program), et))
    ensures a.total == 0 <==> forall i :: 0 <= i < |t.students| ==> t.students[i].programa != Some(program)
  {
    FilterEmpty(t.students, InProgram(program));
    CompliantAmong(t, t.students, InProgram(program), et);
    AggregateOf(t, StudentIds(Filter(t.students, InProgram(program))), et)
  }
}
