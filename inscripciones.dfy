/**
 * The enrollment page (pages/04_Inscripciones.py): the alerts about a
 * student's enrollments, the plan-against-enrollments comparison, the bulk
 * creation of enrollments from the planned items of the plan in force, and
 * the per-status summary.
 */
module Inscripciones {
  import opened Wrappers
  import opened Dates
  import opened Text
  import opened Models
  import opened Counter
  import opened Seqs
  import opened Metrics
  import opened Helpers
  import Rutas

  /** Electives of one orientation the rule alert aims at. */
  const RuleTarget: nat := 5

  /** `query(Enrollment).filter_by(student_id=...)`, in key order. */
  function StudentEnrollments(t: Tables, sid: nat): seq<Enrollment> {
    Filter(t.enrollments, (e: Enrollment) => e.studentId == sid)
  }

  function CourseIds(es: seq<Enrollment>): (ids: seq<string>)
    ensures |ids| == |es|
  {
    seq(|es|, i requires 0 <= i < |es| => es[i].courseId)
  }

  /** An alert of the page; the messages themselves are not modelled. */
  datatype Alert =
    | Duplicate(courseId: string, times: nat)
    | OffPlan(courseId: string)
    | RuleGap(best: nat, gap: nat)

  // ---------------------------------------------------------------------
  // alert 1: a course enrolled more than once

  /** The courses that occur more than once, with their counts, in order of
      first appearance. */
  function Repeated(es: seq<Enrollment>): seq<(string, nat)> {
    Filter(TallyOf(CourseIds(es)), (p: (string, nat)) => p.1 > 1)
  }

  /** The duplicate alerts with the count the message evidently means. */
  function DuplicateAlerts(es: seq<Enrollment>): (r: seq<Alert>)
    ensures |r| == |Repeated(es)|
    ensures forall i :: 0 <= i < |r| ==> r[i].Duplicate?
  {
    var rep := Repeated(es);
    seq(|rep|, i requires 0 <= i < |rep| => Duplicate(rep[i].0, rep[i].1))
  }

  /** There is an alert for a course exactly when it occurs at least twice,
      and the alert carries how often it occurs. */
  lemma DuplicateAlertsExact(es: seq<Enrollment>, c: string, n: nat)
    ensures Duplicate(c, n) in DuplicateAlerts(es) <==> n == Occurrences(CourseIds(es), c) >= 2
  {
    var ids := CourseIds(es);
    var d := TallyOf(ids);
    var rep := Repeated(es);
    var r := DuplicateAlerts(es);
    TallyOfShape(ids);
    TallyOfGet(ids, c);
    if Duplicate(c, n) in r {
      var i :| 0 <= i < |r| && r[i] == Duplicate(c, n);
      assert rep[i] in d;
      var j :| 0 <= j < |d| && d[j] == rep[i];
      assert Find(d, c) == j;
    }
    if n == Occurrences(ids, c) >= 2 {
      var j := Find(d, c);
      assert d[j] == (c, n);
      var i :| 0 <= i < |rep| && rep[i] == d[j];
      assert r[i] == Duplicate(c, n);
    }
  }

  /** No duplicate alert exactly when every course occurs at most once. */
  lemma NoDuplicateAlerts(es: seq<Enrollment>)
    ensures DuplicateAlerts(es) == [] <==> forall c :: Occurrences(CourseIds(es), c) <= 1
  {
    var r := DuplicateAlerts(es);
    if r != [] {
      DuplicateAlertsExact(es, r[0].courseId, r[0].times);
    }
    if exists c :: Occurrences(CourseIds(es), c) > 1 {
      var c :| Occurrences(CourseIds(es), c) > 1;
      DuplicateAlertsExact(es, c, Occurrences(CourseIds(es), c));
    }
  }

  /** As written the message counts with `list.count(<generator>)`, which
      compares every enrollment with the generator object and finds none. */
  function DuplicateAlertsAsWritten(es: seq<Enrollment>): (r: seq<Alert>)
    ensures |r| == |Repeated(es)|
  {
    var rep := Repeated(es);
    seq(|rep|, i requires 0 <= i < |rep| => Duplicate(rep[i].0, 0))
  }

  /** Every alert as written reports zero enrollments of a course that in
      fact occurs at least twice. */
  lemma AsWrittenReportsZero(es: seq<Enrollment>, i: nat)
    requires i < |DuplicateAlertsAsWritten(es)|
    ensures DuplicateAlertsAsWritten(es)[i].times == 0
    ensures Occurrences(CourseIds(es), DuplicateAlertsAsWritten(es)[i].courseId) >= 2
    ensures DuplicateAlertsAsWritten(es)[i] != DuplicateAlerts(es)[i]
  {
    var r := DuplicateAlerts(es);
    DuplicateAlertsExact(es, r[i].courseId, r[i].times);
  }

  // ---------------------------------------------------------------------
  // alert 2: a completed course outside the plan in force

  function PlanCourses(t: Tables, plan: PlanVersion): set<string> {
    Rutas.PlanCourseIds(t, plan.id)
  }

  predicate CompletedOutside(e: Enrollment, inPlan: set<string>) {
    e.status == Completed && e.courseId !in inPlan
  }

  /** One alert per completed enrollment whose course the plan lacks. */
  function OffPlanAlerts(es: seq<Enrollment>, inPlan: set<string>): (r: seq<Alert>)
    ensures forall i :: 0 <= i < |r| ==> r[i].OffPlan?
    decreases |es|
  {
    if es == [] then []
    else
      OffPlanAlerts(es[..|es| - 1], inPlan)
        + (if CompletedOutside(es[|es| - 1], inPlan) then [OffPlan(es[|es| - 1].courseId)] else [])
  }

  predicate CompletedOutsideAt(es: seq<Enrollment>, inPlan: set<string>, j: int, c: string) {
    0 <= j < |es| && CompletedOutside(es[j], inPlan) && es[j].courseId == c
  }

  /** The off-plan alerts name exactly the completed courses outside the plan. */
  lemma {:induction false} OffPlanExact(es: seq<Enrollment>, inPlan: set<string>, c: string)
    ensures OffPlan(c) in OffPlanAlerts(es, inPlan) <==> exists j :: CompletedOutsideAt(es, inPlan, j, c)
    decreases |es|
  {
    if es != [] {
      var init := es[..|es| - 1];
      var last := es[|es| - 1];
      OffPlanExact(init, inPlan, c);
      assert OffPlanAlerts(es, inPlan)
          == OffPlanAlerts(init, inPlan) + (if CompletedOutside(last, inPlan) then [OffPlan(last.courseId)] else []);
      if CompletedOutside(last, inPlan) && last.courseId == c {
        assert CompletedOutsideAt(es, inPlan, |es| - 1, c);
      }
      if exists j :: CompletedOutsideAt(init, inPlan, j, c) {
        var j :| CompletedOutsideAt(init, inPlan, j, c);
        assert CompletedOutsideAt(es, inPlan, j, c);
      }
      if exists j :: CompletedOutsideAt(es, inPlan, j, c) {
        var j :| CompletedOutsideAt(es, inPlan, j, c);
        if j < |init| {
          assert CompletedOutsideAt(init, inPlan, j, c);
        } else {
          assert OffPlanAlerts(es, inPlan)[|OffPlanAlerts(es, inPlan)| - 1] == OffPlan(c);
        }
      }
    }
  }

  // ---------------------------------------------------------------------
  // alert 3: the best orientation below five

  predicate IsElective(t: Tables, courseId: string) {
    courseId in t.courses && t.courses[courseId].tipoMateria == Some(Electiva)
  }

  /** `course.orientacion or "sin_orientacion"` for every elective course. */
  function ElectiveLabels(t: Tables, ids: seq<string>): (ls: seq<string>)
    ensures |ls| <= |ids|
    decreases |ids|
  {
    if ids == [] then []
    else
      var last := ids[|ids| - 1];
      ElectiveLabels(t, ids[..|ids| - 1])
        + (if IsElective(t, last) then [Label(t.courses[last].orientacion)] else [])
  }

  /** The planned items of the plan, in key order. */
  function PlannedItems(t: Tables, plan: PlanVersion): seq<PlanItem> {
    Filter(t.items, (i: PlanItem) => i.planId == plan.id && i.estado == PlanState.Planned)
  }

  function ItemCourseIds(items: seq<PlanItem>): (ids: seq<string>)
    ensures |ids| == |items|
  {
    seq(|items|, i requires 0 <= i < |items| => items[i].courseId)
  }

  /** The courses the rule alert counts: completed enrollments, then the
      planned items of the plan in force. */
  function RuleCourses(t: Tables, es: seq<Enrollment>, plan: PlanVersion): seq<string> {
    CourseIds(Filter(es, (e: Enrollment) => e.status == Completed)) + ItemCourseIds(PlannedItems(t, plan))
  }

  /** The alert when there is some elective and no orientation reaches five. */
  function RuleAlert(d: Tally<string>): (r: seq<Alert>)
    ensures |r| <= 1
  {
    if d == [] then []
    else
      var best := RuleOf(d, RuleTarget).bestCount;
      if best < RuleTarget then [RuleGap(best, RuleTarget - best)] else []
  }

  /** The rule alert appears exactly when some elective is counted and every
      orientation label occurs fewer than five times; its gap is what the
      best orientation lacks. */
  lemma RuleAlertExact(ls: seq<string>)
    ensures RuleAlert(TallyOf(ls)) != [] <==> ls != [] && forall k :: Occurrences(ls, k) < RuleTarget
    ensures RuleAlert(TallyOf(ls)) != [] ==> var a := RuleAlert(TallyOf(ls))[0];
      a.RuleGap? && a.best + a.gap == RuleTarget && exists k :: Occurrences(ls, k) == a.best
  {
    TallyOfShape(ls);
    if ls != [] {
      var b := BestIsMax(ls);
      if RuleAlert(TallyOf(ls)) == [] {
        assert Occurrences(ls, b) >= RuleTarget;
      }
    }
  }

  /** The best count of the tally of `ls` is the largest number of
      occurrences of any label, reached by the label it returns. */
  lemma BestIsMax(ls: seq<string>) returns (b: string)
    requires ls != []
    ensures var r := RuleOf(TallyOf(ls), RuleTarget);
      (forall k :: Occurrences(ls, k) <= r.bestCount) && Occurrences(ls, b) == r.bestCount
  {
    b := BestReached(ls);
    forall k ensures Occurrences(ls, k) <= RuleOf(TallyOf(ls), RuleTarget).bestCount {
      BestBounds(ls, k);
    }
  }

  lemma BestReached(ls: seq<string>) returns (b: string)
    requires ls != []
    ensures Occurrences(ls, b) == RuleOf(TallyOf(ls), RuleTarget).bestCount
  {
    var d := TallyOf(ls);
    TallyOfShape(ls);
    var r := RuleOf(d, RuleTarget);
    var i :| 0 <= i < |d| && d[i] == (r.best.value, r.bestCount) && forall j :: 0 <= j < i ==> d[j].1 < d[i].1;
    b := d[i].0;
    assert Find(d, b) == i;
    TallyOfGet(ls, b);
  }

  lemma BestBounds(ls: seq<string>, k: string)
    ensures Occurrences(ls, k) <= RuleOf(TallyOf(ls), RuleTarget).bestCount
  {
    var d := TallyOf(ls);
    TallyOfGet(ls, k);
    var f := Find(d, k);
    if f >= 0 {
      assert d[f].1 <= RuleOf(d, RuleTarget).bestCount;
    }
  }

  // ---------------------------------------------------------------------
  // all alerts

  /** The alerts in the page's order; the last two need a plan in force. */
  function AlertsOf(t: Tables, sid: nat, now: Stamp): seq<Alert> {
    var es := StudentEnrollments(t, sid);
    DuplicateAlerts(es)
      + match CurrentPlan(t, sid, now)
        case None => []
        case Some(p) => OffPlanAlerts(es, PlanCourses(t, p)) + RuleAlert(TallyOf(ElectiveLabels(t, RuleCourses(t, es, p))))
  }

  /** "Sin alertas detectadas" is shown exactly when no course is enrolled
      twice and, with a plan in force, every completed course is in it and
      either no elective is counted or some orientation reaches five. */
  lemma NoAlertsIff(t: Tables, sid: nat, now: Stamp)
    ensures var es := StudentEnrollments(t, sid);
      AlertsOf(t, sid, now) == [] <==>
        (forall c :: Occurrences(CourseIds(es), c) <= 1)
        && (CurrentPlan(t, sid, now).Some? ==>
             var p := CurrentPlan(t, sid, now).value;
             var ls := ElectiveLabels(t, RuleCourses(t, es, p));
             (forall j :: 0 <= j < |es| ==> !CompletedOutside(es[j], PlanCourses(t, p)))
             && (ls == [] || exists k :: Occurrences(ls, k) >= RuleTarget))
  {
    var es := StudentEnrollments(t, sid);
    NoDuplicateAlerts(es);
    if CurrentPlan(t, sid, now).Some? {
      var p := CurrentPlan(t, sid, now).value;
      var inPlan := PlanCourses(t, p);
      RuleAlertExact(ElectiveLabels(t, RuleCourses(t, es, p)));
      var off := OffPlanAlerts(es, inPlan);
      if off != [] {
        OffPlanExact(es, inPlan, off[0].courseId);
      }
      if exists j :: 0 <= j < |es| && CompletedOutside(es[j], inPlan) {
        var j :| 0 <= j < |es| && CompletedOutside(es[j], inPlan);
        OffPlanExact(es, inPlan, es[j].courseId);
        assert CompletedOutsideAt(es, inPlan, j, es[j].courseId);
      }
    }
  }

  method DuplicateLoop(es: seq<Enrollment>) returns (alerts: seq<Alert>)
    ensures alerts == DuplicateAlerts(es)
  {
    var rep := Repeated(es);
    alerts := [];
    for k := 0 to |rep|
      invariant alerts == DuplicateAlerts(es)[..k]
    {
      alerts := alerts + [Duplicate(rep[k].0, rep[k].1)];
    }
  }

  method OffPlanLoop(es: seq<Enrollment>, inPlan: set<string>) returns (off: seq<Alert>)
    ensures off == OffPlanAlerts(es, inPlan)
  {
    off := [];
    for k := 0 to |es|
      invariant off == OffPlanAlerts(es[..k], inPlan)
    {
      assert es[..k + 1][..k] == es[..k];
      if es[k].status == Completed && es[k].courseId !in inPlan {
        off := off + [OffPlan(es[k].courseId)];
      }
    }
    assert es[..|es|] == es;
  }

  /** The loop that fills `orientation_counts` from the counted courses. */
  method RuleCounts(t: Tables, ids: seq<string>) returns (counts: Tally<string>)
    ensures counts == TallyOf(ElectiveLabels(t, ids))
  {
    counts := [];
    for k := 0 to |ids|
      invariant counts == TallyOf(ElectiveLabels(t, ids[..k]))
    {
      assert ids[..k + 1][..k] == ids[..k];
      assert ElectiveLabels(t, ids[..k + 1]) == ElectiveLabels(t, ids[..k])
          + (if IsElective(t, ids[k]) then [Label(t.courses[ids[k]].orientacion)] else []);
      if IsElective(t, ids[k]) {
        var orient := Label(t.courses[ids[k]].orientacion);
        ghost var ls := ElectiveLabels(t, ids[..k]);
        assert (ls + [orient])[..|ls|] == ls;
        assert TallyOf(ls + [orient]) == Bump(TallyOf(ls), orient, 1);
        counts := Bump(counts, orient, 1);
      } else {
        assert ElectiveLabels(t, ids[..k + 1]) == ElectiveLabels(t, ids[..k]);
      }
    }
    assert ids[..|ids|] == ids;
  }

  /** The alert section. */
  method Alerts(t: Tables, sid: nat, now: Stamp) returns (alerts: seq<Alert>)
    ensures alerts == AlertsOf(t, sid, now)
  {
    var es := StudentEnrollments(t, sid);
    alerts := DuplicateLoop(es);
    var current := CurrentPlan(t, sid, now);
    if current.Some? {
      var plan := current.value;
      var off := OffPlanLoop(es, PlanCourses(t, plan));
      var counts := RuleCounts(t, RuleCourses(t, es, plan));
      var gap := RuleCheck(counts);
      alerts := alerts + off + gap;
    }
  }

  /** The 5-of-8 check of the alert section on the counts of one student. */
  method RuleCheck(counts: Tally<string>) returns (alerts: seq<Alert>)
    ensures alerts == RuleAlert(counts)
  {
    alerts := [];
    if counts != [] {
      var best := RuleOf(counts, RuleTarget).bestCount;
      if best < RuleTarget {
        alerts := [RuleGap(best, RuleTarget - best)];
      }
    }
  }

  // ---------------------------------------------------------------------
  // the plan against the enrollments

  /** What the comparison shows about a course: "N/A" when it is unknown. */
  datatype CourseInfo = Unknown | Info(materia: Option<string>, tipo: Option<string>, orientacion: Option<string>)

  /** The plan column: the item's state, or "NO EN PLAN". */
  datatype PlanMark = InPlan(estado: PlanState) | NotInPlan

  datatype CompareRow = CompareRow(courseId: string, info: CourseInfo, plan: PlanMark,
                                   status: Option<Status>, nota: Option<real>)

  function InfoOf(t: Tables, courseId: string): CourseInfo {
    if courseId in t.courses then
      var c := t.courses[courseId];
      Info(c.materia, c.tipoMateria, c.orientacion)
    else Unknown
  }

  /** `nota_numerica or "-"`: a missing grade and a grade of 0 both show "-". */
  function Shown(g: Option<real>): (r: Option<real>)
    ensures r.Some? <==> g.Some? && g.value != 0.0
    ensures r.Some? ==> r == g
  {
    if g.Some? && g.value != 0.0 then g else None
  }

  /** `next(e for e in enrollments if e.course_id == ...)`. */
  function FirstFor(es: seq<Enrollment>, courseId: string): (r: Option<nat>)
    ensures r.Some? ==> r.value < |es| && es[r.value].courseId == courseId
                        && forall j :: 0 <= j < r.value ==> es[j].courseId != courseId
    ensures r.None? ==> forall j :: 0 <= j < |es| ==> es[j].courseId != courseId
    decreases |es|
  {
    if es == [] then None
    else if es[0].courseId == courseId then Some(0)
    else
      var r := FirstFor(es[1..], courseId);
      if r.None? then None else Some(r.value + 1)
  }

  function ItemRow(t: Tables, es: seq<Enrollment>, item: PlanItem): CompareRow {
    var m := FirstFor(es, item.courseId);
    CompareRow(item.courseId, InfoOf(t, item.courseId), InPlan(item.estado),
      if m.Some? then Some(es[m.value].status) else None,
      if m.Some? then Shown(es[m.value].grade) else None)
  }

  function ExtraRow(t: Tables, e: Enrollment): CompareRow {
    CompareRow(e.courseId, InfoOf(t, e.courseId), NotInPlan, Some(e.status), Shown(e.grade))
  }

  function ItemRows(t: Tables, es: seq<Enrollment>, items: seq<PlanItem>): (rows: seq<CompareRow>)
    ensures |rows| == |items|
  {
    seq(|items|, i requires 0 <= i < |items| => ItemRow(t, es, items[i]))
  }

  function Outside(es: seq<Enrollment>, inPlan: set<string>): seq<Enrollment> {
    Filter(es, (e: Enrollment) => e.courseId !in inPlan)
  }

  function ExtraRows(t: Tables, es: seq<Enrollment>): (rows: seq<CompareRow>)
    ensures |rows| == |es|
  {
    seq(|es|, i requires 0 <= i < |es| => ExtraRow(t, es[i]))
  }

  /** The table: one row per item of the plan, then one per enrollment whose
      course the plan lacks. */
  function ComparisonOf(t: Tables, es: seq<Enrollment>, plan: PlanVersion): seq<CompareRow> {
    var items := Rutas.ItemsOf(t, plan.id);
    ItemRows(t, es, items) + ExtraRows(t, Outside(es, PlanCourses(t, plan)))
  }

  /** The comparison has a row for every item and every off-plan enrollment;
      every enrollment's course appears; an item row shows the first
      enrollment of its course, and an item with none shows no status. */
  lemma ComparisonCovers(t: Tables, es: seq<Enrollment>, plan: PlanVersion)
    ensures var rows := ComparisonOf(t, es, plan);
      var items := Rutas.ItemsOf(t, plan.id);
      |rows| == |items| + Count(es, (e: Enrollment) => e.courseId !in PlanCourses(t, plan))
      && (forall i :: 0 <= i < |rows| ==> (rows[i].plan.InPlan? <==> i < |items|))
      && (forall j :: 0 <= j < |es| ==> exists i :: 0 <= i < |rows| && rows[i].courseId == es[j].courseId)
      && (forall i :: 0 <= i < |items| ==> (rows[i].status.None? <==> forall j :: 0 <= j < |es| ==> es[j].courseId != items[i].courseId))
  {
    ComparisonParts(t, es, plan);
    var rows := ComparisonOf(t, es, plan);
    forall j | 0 <= j < |es| ensures exists i :: 0 <= i < |rows| && rows[i].courseId == es[j].courseId {
      ComparisonHasCourse(t, es, plan, j);
    }
  }

  lemma ComparisonParts(t: Tables, es: seq<Enrollment>, plan: PlanVersion)
    ensures var rows := ComparisonOf(t, es, plan);
      var items := Rutas.ItemsOf(t, plan.id);
      |rows| == |items| + Count(es, (e: Enrollment) => e.courseId !in PlanCourses(t, plan))
      && (forall i :: 0 <= i < |rows| ==> (rows[i].plan.InPlan? <==> i < |items|))
      && (forall i :: 0 <= i < |items| ==> (rows[i].status.None? <==> forall j :: 0 <= j < |es| ==> es[j].courseId != items[i].courseId))
  {
  }

  lemma ComparisonHasCourse(t: Tables, es: seq<Enrollment>, plan: PlanVersion, j: nat)
    requires j < |es|
    ensures var rows := ComparisonOf(t, es, plan);
      exists i :: 0 <= i < |rows| && rows[i].courseId == es[j].courseId
  {
    var rows := ComparisonOf(t, es, plan);
    var items := Rutas.ItemsOf(t, plan.id);
    var inPlan := PlanCourses(t, plan);
    var out := Outside(es, inPlan);
    assert rows == ItemRows(t, es, items) + ExtraRows(t, out);
    if es[j].courseId in inPlan {
      var it :| it in items && it.courseId == es[j].courseId;
      var i :| 0 <= i < |items| && items[i] == it;
      assert rows[i].courseId == items[i].courseId;
    } else {
      assert es[j] in out;
      var i :| 0 <= i < |out| && out[i] == es[j];
      assert rows[|items| + i].courseId == out[i].courseId;
    }
  }

  /** The two loops that fill `comparison_data`. */
  method Comparison(t: Tables, es: seq<Enrollment>, plan: PlanVersion) returns (rows: seq<CompareRow>)
    ensures rows == ComparisonOf(t, es, plan)
  {
    var items := Rutas.ItemsOf(t, plan.id);
    rows := [];
    for k := 0 to |items|
      invariant rows == ItemRows(t, es, items[..k])
    {
      rows := rows + [ItemRow(t, es, items[k])];
    }
    assert items[..|items|] == items;
    var inPlan := PlanCourses(t, plan);
    var out := Outside(es, inPlan);
    var extra := [];
    for k := 0 to |out|
      invariant extra == ExtraRows(t, out[..k])
    {
      extra := extra + [ExtraRow(t, out[k])];
    }
    assert out[..|out|] == out;
    rows := rows + extra;
  }

  // ---------------------------------------------------------------------
  // creating enrollments from the plan

  predicate Enrolled(es: seq<Enrollment>, courseId: string) {
    exists j :: 0 <= j < |es| && es[j].courseId == courseId
  }

  /** The planned items of the plan whose course the student has no
      enrollment of. */
  function PendingItems(t: Tables, sid: nat, plan: PlanVersion): seq<PlanItem> {
    var es := StudentEnrollments(t, sid);
    Filter(t.items, (i: PlanItem) => i.planId == plan.id && i.estado == PlanState.Planned && !Enrolled(es, i.courseId))
  }

  /** The row an `Enrollment(status="planned", ...)` insert adds. */
  function NewEnrollment(t: Tables, sid: nat, courseId: string, now: Stamp): (e: Enrollment)
    ensures e.id !in EnrollmentIds(t.enrollments)
  {
    Enrollment(NextId(EnrollmentIds(t.enrollments)), sid, courseId, Status.Planned, None, None, now, None)
  }

  /** One insert and its log entry. */
  function CreateFromItem(t: Tables, sid: nat, item: PlanItem, now: Stamp, user: string): Tables {
    var e := NewEnrollment(t, sid, item.courseId, now);
    Logged(t.(enrollments := t.enrollments + [e]), now,
      LogArgs("Enrollment", NatToString(e.id), Some("creacion"), None,
        Some(Txt(item.courseId + " (planned)")), Some("Creado desde plan_version"), Some(user)))
  }

  /** The inserts for a list of items, one after the other. */
  function CreateAll(t: Tables, sid: nat, items: seq<PlanItem>, now: Stamp, user: string): (r: Tables)
    ensures |r.enrollments| == |t.enrollments| + |items|
    ensures |r.logs| == |t.logs| + |items|
    ensures r.students == t.students && r.items == t.items && r.plans == t.plans
    decreases |items|
  {
    if items == [] then t
    else CreateFromItem(CreateAll(t, sid, items[..|items| - 1], now, user), sid, items[|items| - 1], now, user)
  }

  /** The loop over the items: one insert and one log entry each. */
  method CreateEach(db: Database, sid: nat, items: seq<PlanItem>, now: Stamp, user: string) returns (created: nat)
    modifies db
    ensures created == |items|
    ensures db.Snapshot() == CreateAll(old(db.Snapshot()), sid, items, now, user)
  {
    ghost var t0 := db.Snapshot();
    created := 0;
    for k := 0 to |items|
      invariant created == k
      invariant db.Snapshot() == CreateAll(t0, sid, items[..k], now, user)
    {
      assert items[..k + 1][..k] == items[..k];
      var item := items[k];
      var e := NewEnrollment(db.Snapshot(), sid, item.courseId, now);
      db.enrollments := db.enrollments + [e];
      created := created + 1;
      LogChange(db, now, LogArgs("Enrollment", NatToString(e.id), Some("creacion"), None,
        Some(Txt(item.courseId + " (planned)")), Some("Creado desde plan_version"), Some(user)));
    }
    assert items[..|items|] == items;
  }

  /** "Crear todas las inscripciones planned": creates one enrollment per
      pending item and reports how many. */
  method BulkCreate(db: Database, sid: nat, plan: PlanVersion, now: Stamp, user: string) returns (created: nat)
    modifies db
    ensures created == |PendingItems(old(db.Snapshot()), sid, plan)|
    ensures db.Snapshot() == CreateAll(old(db.Snapshot()), sid, PendingItems(old(db.Snapshot()), sid, plan), now, user)
  {
    var pending := PendingItems(db.Snapshot(), sid, plan);
    created := CreateEach(db, sid, pending, now, user);
  }

  /** "Crear todas las inscripciones planned" as the page runs it: inside the
      page's session the loop flushes the first insert and then calls
      `log_change`, which opens a second session. On SQLite the flushed
      insert holds the write lock, so the second session's commit is refused
      ("database is locked"); the error ends the run and the page's session
      closes without committing. Nothing is stored and nothing is reported;
      `locked` says whether the refusal happened. */
  method BulkCreateAsWritten(db: Database, sid: nat, plan: PlanVersion, now: Stamp, user: string) returns (created: nat, locked: bool)
    ensures locked <==> PendingItems(db.Snapshot(), sid, plan) != []
    ensures created == 0
  {
    var pending := PendingItems(db.Snapshot(), sid, plan);
    created, locked := 0, false;
    if pending != [] {
      // the insert flushed by the page's session, never committed
      var staged := db.enrollments + [NewEnrollment(db.Snapshot(), sid, pending[0].courseId, now)];
      // the log entry's commit in the second session is refused
      locked := staged != [];
    }
  }

  /** Whenever there is something to create, the bulk creation as written
      leaves every pending item pending, while the intended one leaves none. */
  lemma LockedLeavesPending(t: Tables, sid: nat, plan: PlanVersion, now: Stamp, user: string)
    requires PendingItems(t, sid, plan) != []
    ensures PendingItems(CreateAll(t, sid, PendingItems(t, sid, plan), now, user), sid, plan) != PendingItems(t, sid, plan)
  {
    NothingPendingAfter(t, sid, plan, now, user);
  }

  /** A new enrollment of the student in the course: planned, registered
      at `now`, with no grade and no status date. */
  predicate PlannedFor(e: Enrollment, sid: nat, courseId: string, now: Stamp) {
    e.studentId == sid && e.courseId == courseId && e.status == Status.Planned
    && e.grade.None? && e.fechaEstado.None? && e.registro == now
  }

  /** `after` is `before` followed by one new planned enrollment per item. */
  predicate AppendedFor(before: seq<Enrollment>, after: seq<Enrollment>, sid: nat, items: seq<PlanItem>, now: Stamp) {
    |after| == |before| + |items| && after[..|before|] == before
    && forall i :: 0 <= i < |items| ==> PlannedFor(after[|before| + i], sid, items[i].courseId, now)
  }

  lemma AppendedStep(before: seq<Enrollment>, mid: seq<Enrollment>, e: Enrollment, sid: nat, items: seq<PlanItem>, now: Stamp)
    requires items != []
    requires AppendedFor(before, mid, sid, items[..|items| - 1], now)
    requires PlannedFor(e, sid, items[|items| - 1].courseId, now)
    ensures AppendedFor(before, mid + [e], sid, items, now)
  {
    var after := mid + [e];
    assert after[..|before|] == mid[..|before|];
    forall i | 0 <= i < |items| ensures PlannedFor(after[|before| + i], sid, items[i].courseId, now) {
      if i < |items| - 1 {
        assert after[|before| + i] == mid[|before| + i];
        assert items[..|items| - 1][i] == items[i];
      }
    }
  }

  /** The inserts append one planned enrollment of the student per item, in
      item order, and no other table but the log changes. */
  lemma {:induction false} CreateAllShape(t: Tables, sid: nat, items: seq<PlanItem>, now: Stamp, user: string)
    ensures AppendedFor(t.enrollments, CreateAll(t, sid, items, now, user).enrollments, sid, items, now)
    ensures CreateAll(t, sid, items, now, user).(enrollments := t.enrollments, logs := t.logs) == t
    ensures |CreateAll(t, sid, items, now, user).logs| == |t.logs| + |items|
    decreases |items|
  {
    if items != [] {
      var init := items[..|items| - 1];
      CreateAllShape(t, sid, init, now, user);
      var t1 := CreateAll(t, sid, init, now, user);
      AppendedStep(t.enrollments, t1.enrollments, NewEnrollment(t1, sid, items[|items| - 1].courseId, now), sid, items, now);
    }
  }

  /** A row of the student in a table shows up in the student's query. */
  lemma StudentRowEnrolled(all: seq<Enrollment>, sid: nat, m: nat)
    requires m < |all| && all[m].studentId == sid
    ensures Enrolled(Filter(all, (x: Enrollment) => x.studentId == sid), all[m].courseId)
  {
    var es := Filter(all, (x: Enrollment) => x.studentId == sid);
    var j :| 0 <= j < |es| && es[j] == all[m];
  }

  /** A course the student was enrolled in, or that one of the items names,
      has an enrollment of the student after the inserts. */
  lemma EnrolledAfter(t: Tables, sid: nat, items: seq<PlanItem>, now: Stamp, user: string, c: string)
    requires Enrolled(StudentEnrollments(t, sid), c) || exists k :: 0 <= k < |items| && items[k].courseId == c
    ensures Enrolled(StudentEnrollments(CreateAll(t, sid, items, now, user), sid), c)
  {
    CreateAllShape(t, sid, items, now, user);
    EnrolledAppended(t.enrollments, CreateAll(t, sid, items, now, user).enrollments, sid, items, now, c);
  }

  lemma EnrolledAppended(before: seq<Enrollment>, after: seq<Enrollment>, sid: nat, items: seq<PlanItem>, now: Stamp, c: string)
    requires AppendedFor(before, after, sid, items, now)
    requires Enrolled(Filter(before, (e: Enrollment) => e.studentId == sid), c) || exists k :: 0 <= k < |items| && items[k].courseId == c
    ensures Enrolled(Filter(after, (e: Enrollment) => e.studentId == sid), c)
  {
    if Enrolled(Filter(before, (e: Enrollment) => e.studentId == sid), c) {
      var es := Filter(before, (e: Enrollment) => e.studentId == sid);
      var j :| 0 <= j < |es| && es[j].courseId == c;
      var m :| 0 <= m < |before| && before[m] == es[j];
      assert after[..|before|][m] == after[m];
      StudentRowEnrolled(after, sid, m);
    } else {
      var k :| 0 <= k < |items| && items[k].courseId == c;
      assert PlannedFor(after[|before| + k], sid, items[k].courseId, now);
      StudentRowEnrolled(after, sid, |before| + k);
    }
  }

  /** After the bulk creation no item of the plan is pending any more. */
  lemma NothingPendingAfter(t: Tables, sid: nat, plan: PlanVersion, now: Stamp, user: string)
    ensures PendingItems(CreateAll(t, sid, PendingItems(t, sid, plan), now, user), sid, plan) == []
  {
    var pending := PendingItems(t, sid, plan);
    var t' := CreateAll(t, sid, pending, now, user);
    CreateAllShape(t, sid, pending, now, user);
    assert t'.items == t.items;
    var es' := StudentEnrollments(t', sid);
    forall i | 0 <= i < |t.items| && t.items[i].planId == plan.id && t.items[i].estado == PlanState.Planned
      ensures Enrolled(es', t.items[i].courseId)
    {
      var it := t.items[i];
      if !Enrolled(StudentEnrollments(t, sid), it.courseId) {
        assert it in pending;
        var k :| 0 <= k < |pending| && pending[k] == it;
      }
      EnrolledAfter(t, sid, pending, now, user, it.courseId);
    }
    FilterEmpty(t'.items, (i: PlanItem) => i.planId == plan.id && i.estado == PlanState.Planned && !Enrolled(es', i.courseId));
  }

  // ---------------------------------------------------------------------
  // the per-status summary

  function Statuses(es: seq<Enrollment>): (ss: seq<Status>)
    ensures |ss| == |es|
  {
    seq(|es|, i requires 0 <= i < |es| => es[i].status)
  }

  /** The loop that fills `status_counts`: one entry per status present,
      each with the number of enrollments in it. */
  method StatusCounts(es: seq<Enrollment>) returns (d: Tally<Status>)
    ensures DistinctKeys(d) && AllPositive(d) && Total(d) == |es|
    ensures forall s :: Get(d, s) == Occurrences(Statuses(es), s)
  {
    var ss := Statuses(es);
    d := [];
    for k := 0 to |es|
      invariant d == TallyOf(ss[..k])
    {
      assert ss[..k + 1][..k] == ss[..k];
      d := Bump(d, es[k].status, 1);
    }
    assert ss[..|es|] == ss;
    TallyOfShape(ss);
    forall s ensures Get(d, s) == Occurrences(ss, s) {
      TallyOfGet(ss, s);
    }
  }
}
