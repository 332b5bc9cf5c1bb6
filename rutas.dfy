/**
 * The route page (pages/03_Rutas.py): the overview of the plan in force,
 * the check that its planned electives can reach the goal in one
 * orientation, the creation of the first version, closing a version and
 * opening its successor, a new version when none is in force, the catalog
 * filter for adding a course, and the per-version summary.
 */
module Rutas {
  import opened Wrappers
  import opened Dates
  import opened Text
  import opened Models
  import opened Counter
  import opened Seqs
  import opened Metrics
  import opened Helpers

  /** The number of planned items a complete plan has. */
  const PlanGoal: nat := 8
  /** Electives of one orientation the route aims at. */
  const OrientationGoal: nat := 5

  // ---------------------------------------------------------------------
  // the plans and items of a student

  function ItemsOf(t: Tables, planId: nat): seq<PlanItem> {
    Filter(t.items, (i: PlanItem) => i.planId == planId)
  }

  function PlannedCount(items: seq<PlanItem>): nat {
    Count(items, (i: PlanItem) => i.estado == PlanState.Planned)
  }

  function BackupCount(items: seq<PlanItem>): nat {
    Count(items, (i: PlanItem) => i.estado == Backup)
  }

  /** Every item is planned or backup, so the two counts make up the list. */
  lemma {:induction false} CountsCoverItems(items: seq<PlanItem>)
    ensures PlannedCount(items) + BackupCount(items) == |items|
    decreases |items|
  {
    if items != [] {
      CountsCoverItems(items[..|items| - 1]);
    }
  }

  /** The query of the page's plan list: the student's plans by `version_num`. */
  function StudentPlans(t: Tables, sid: nat): seq<PlanVersion> {
    SortDesc(Filter(t.plans, (p: PlanVersion) => p.studentId == sid), (p: PlanVersion) => -p.versionNum)
  }

  /** The list holds every plan of the student once and no other, in
      ascending version order. */
  lemma StudentPlansOrdered(t: Tables, sid: nat)
    ensures var ps := StudentPlans(t, sid);
      (forall i, j :: 0 <= i < j < |ps| ==> ps[i].versionNum <= ps[j].versionNum)
      && multiset(ps) == multiset(Filter(t.plans, (p: PlanVersion) => p.studentId == sid))
  {
    var sel := Filter(t.plans, (p: PlanVersion) => p.studentId == sid);
    SortDescCorrect(sel, (p: PlanVersion) => -p.versionNum);
  }

  /** `str(x)` of an optional text column: "None" when it is missing. */
  function OptText(o: Option<string>): string {
    if o.None? then "None" else o.value
  }

  /** The subject name the delete log quotes, "N/A" for an unknown course. */
  function CourseName(t: Tables, courseId: string): string {
    if courseId in t.courses then OptText(t.courses[courseId].materia) else "N/A"
  }

  /** Removing an item from a plan: the row goes, and the log records its subject. */
  function RemoveItem(t: Tables, item: PlanItem, now: Stamp, user: string): (r: Tables)
    ensures |r.items| <= |t.items| && |r.logs| == |t.logs| + 1
    ensures r.plans == t.plans && r.enrollments == t.enrollments && r.students == t.students
  {
    Logged(t.(items := Filter(t.items, (i: PlanItem) => i.id != item.id)), now,
      LogArgs("StudentPlanItem", IdText(item.id), Some("eliminacion"),
        Some(Txt("Materia " + CourseName(t, item.courseId))), None, Some("Eliminado del plan"), Some(user)))
  }

  method DeleteItem(db: Database, item: PlanItem, now: Stamp, user: string)
    requires item in db.items
    modifies db
    ensures db.Snapshot() == RemoveItem(old(db.Snapshot()), item, now, user)
  {
    var gone := "Materia " + CourseName(db.Snapshot(), item.courseId);
    db.items := Filter(db.items, (i: PlanItem) => i.id != item.id);
    LogChange(db, now, LogArgs("StudentPlanItem", IdText(item.id), Some("eliminacion"),
      Some(Txt(gone)), None, Some("Eliminado del plan"), Some(user)));
  }

  /** The delete removes exactly the rows with that id and touches no
      other table but the log. */
  lemma RemoveItemExact(t: Tables, item: PlanItem, now: Stamp, user: string, x: PlanItem)
    ensures x in RemoveItem(t, item, now, user).items <==> x in t.items && x.id != item.id
    ensures RemoveItem(t, item, now, user).plans == t.plans
    ensures RemoveItem(t, item, now, user).enrollments == t.enrollments
    ensures |RemoveItem(t, item, now, user).logs| == |t.logs| + 1
  {
    FilterMember(t.items, (i: PlanItem) => i.id != item.id, x);
  }

  /** `max([p.version_num for p in plans])`. */
  function MaxVersion(ps: seq<PlanVersion>): (m: int)
    requires ps != []
    ensures forall i :: 0 <= i < |ps| ==> ps[i].versionNum <= m
    ensures exists i :: 0 <= i < |ps| && ps[i].versionNum == m
    decreases |ps|
  {
    if |ps| == 1 then ps[0].versionNum
    else
      var m := MaxVersion(ps[..|ps| - 1]);
      assert forall i :: 0 <= i < |ps| - 1 ==> ps[..|ps| - 1][i] == ps[i];
      if ps[|ps| - 1].versionNum > m then ps[|ps| - 1].versionNum else m
  }

  // ---------------------------------------------------------------------
  // the overview of the plan in force

  datatype Overview = Overview(plan: PlanVersion, planned: nat, backup: nat, complete: bool)

  /** The metrics the page shows for the plan in force, if there is one. */
  function CurrentOverview(t: Tables, sid: nat, now: Stamp): (o: Option<Overview>)
    ensures o.Some? <==> CurrentPlan(t, sid, now).Some?
    ensures o.Some? ==> o.value.plan == CurrentPlan(t, sid, now).value
    ensures o.Some? ==> o.value.planned + o.value.backup == |ItemsOf(t, o.value.plan.id)|
    ensures o.Some? ==> (o.value.complete <==> o.value.planned >= PlanGoal)
  {
    match CurrentPlan(t, sid, now)
    case None => None
    case Some(p) =>
      var items := ItemsOf(t, p.id);
      CountsCoverItems(items);
      Some(Overview(p, PlannedCount(items), BackupCount(items), PlannedCount(items) >= PlanGoal))
  }

  // ---------------------------------------------------------------------
  // can the planned electives reach the orientation goal?

  /** A planned item of the plan whose course, joined on `course_id`, is an elective. */
  predicate PlannedElective(t: Tables, planId: nat, i: PlanItem) {
    i.planId == planId && i.estado == PlanState.Planned
    && i.courseId in t.courses && t.courses[i.courseId].tipoMateria == Some(Electiva)
  }

  function PlannedElectives(t: Tables, planId: nat): seq<PlanItem> {
    Filter(t.items, (i: PlanItem) => PlannedElective(t, planId, i))
  }

  /** The orientation label of every planned elective, in query order. */
  function PlannedLabels(t: Tables, planId: nat): (ls: seq<string>)
    ensures |ls| == |PlannedElectives(t, planId)|
  {
    var rows := PlannedElectives(t, planId);
    seq(|rows|, k requires 0 <= k < |rows| => Label(t.courses[rows[k].courseId].orientacion))
  }

  /** The loop that fills `orientation_counts`. */
  method OrientationCounts(t: Tables, planId: nat) returns (d: Tally<string>)
    ensures d == TallyOf(PlannedLabels(t, planId))
    ensures DistinctKeys(d) && AllPositive(d) && Total(d) == |PlannedElectives(t, planId)|
  {
    var rows := PlannedElectives(t, planId);
    var ls := PlannedLabels(t, planId);
    d := [];
    for k := 0 to |rows|
      invariant d == TallyOf(ls[..k])
    {
      var course := t.courses[rows[k].courseId];
      var orient := Label(course.orientacion);
      assert ls[..k + 1][..k] == ls[..k];
      d := Bump(d, orient, 1);
    }
    assert ls[..|rows|] == ls;
    TallyOfShape(ls);
  }

  /** What the page says about the best orientation of the planned electives. */
  datatype Outlook =
    | NoneYet
    | Reachable(name: string, count: nat)
    | Short(name: string, count: nat, gap: int)
    | AtRisk(name: string, count: nat, gap: int)

  /** The rating of the first largest count: five or more is reachable,
      three or four is short by the gap to five, fewer is at risk. */
  function OutlookOf(d: Tally<string>): (o: Outlook)
    ensures d == [] <==> o.NoneYet?
    ensures d != [] ==> var best := RuleOf(d, OrientationGoal);
      !o.NoneYet? && o.name == best.best.value && o.count == best.bestCount
      && (o.Reachable? <==> best.bestCount >= 5)
      && (o.Short? <==> 3 <= best.bestCount <= 4)
      && (o.AtRisk? <==> best.bestCount < 3)
      && (!o.Reachable? ==> o.gap == 5 - best.bestCount)
  {
    if d == [] then NoneYet
    else
      var best := RuleOf(d, OrientationGoal);
      var name := best.best.value;
      if best.bestCount >= 5 then Reachable(name, best.bestCount)
      else if best.bestCount >= 3 then Short(name, best.bestCount, 5 - best.bestCount)
      else AtRisk(name, best.bestCount, 5 - best.bestCount)
  }

  /** The goal is reachable exactly when some orientation already has five
      planned electives. */
  lemma ReachableIffFive(t: Tables, planId: nat)
    ensures OutlookOf(TallyOf(PlannedLabels(t, planId))).Reachable?
        <==> exists k :: Occurrences(PlannedLabels(t, planId), k) >= 5
  {
    var ls := PlannedLabels(t, planId);
    var d := TallyOf(ls);
    TallyOfShape(ls);
    if OutlookOf(d).Reachable? {
      var j :| 0 <= j < |d| && d[j].1 >= 5;
      assert Find(d, d[j].0) == j;
      TallyOfGet(ls, d[j].0);
    }
    if exists k :: Occurrences(ls, k) >= 5 {
      var k :| Occurrences(ls, k) >= 5;
      TallyOfGet(ls, k);
      assert d[Find(d, k)].1 >= 5;
    }
  }

  // ---------------------------------------------------------------------
  // new versions

  function IdText(id: nat): string {
    NatToString(id)
  }

  /** The row a `PlanVersion(...)` insert adds: the next id, open-ended, from `now`. */
  function NewPlan(t: Tables, sid: nat, version: int, now: Stamp, comentario: string): (p: PlanVersion)
    ensures p.id !in PlanIds(t.plans)
    ensures p.studentId == sid && p.versionNum == version && p.desde == now && p.hasta.None?
  {
    PlanVersion(NextId(PlanIds(t.plans)), sid, version, now, None, Some(comentario))
  }

  function AddPlanLogged(t: Tables, p: PlanVersion, now: Stamp, motivo: string, user: string): Tables {
    var t1 := t.(plans := t.plans + [p]);
    Logged(t1, now, LogArgs("PlanVersion", IdText(p.id), Some("creacion"), None,
      Some(Txt("v" + IntToString(p.versionNum))), Some(motivo), Some(user)))
  }

  /** A student without plans gets version 1: the insert and its log entry. */
  function FirstVersion(t: Tables, sid: nat, now: Stamp, comentario: string, user: string): Tables {
    AddPlanLogged(t, NewPlan(t, sid, 1, now, comentario), now, "Nuevo plan del estudiante", user)
  }

  /** Creating version 1. */
  method CreateFirstVersion(db: Database, sid: nat, now: Stamp, comentario: string, user: string)
    requires forall j :: 0 <= j < |db.plans| ==> db.plans[j].studentId != sid
    modifies db
    ensures db.Snapshot() == FirstVersion(old(db.Snapshot()), sid, now, comentario, user)
  {
    var p := NewPlan(db.Snapshot(), sid, 1, now, comentario);
    db.plans := db.plans + [p];
    LogChange(db, now, LogArgs("PlanVersion", IdText(p.id), Some("creacion"), None,
      Some(Txt("v" + IntToString(p.versionNum))), Some("Nuevo plan del estudiante"), Some(user)));
  }

  /** A plan added at `now` is in force at `now`; when it is the student's
      only plan in force, it becomes the current plan. */
  lemma AddedPlanIsCurrent(t: Tables, p: PlanVersion, now: Stamp, motivo: string, user: string)
    requires p.desde == now && p.hasta.None?
    requires forall j :: 0 <= j < |t.plans| ==> !Qualifies(t.plans[j], p.studentId, now)
    ensures CurrentPlan(AddPlanLogged(t, p, now, motivo, user), p.studentId, now) == Some(p)
  {
    var t' := AddPlanLogged(t, p, now, motivo, user);
    assert t'.plans == t.plans + [p];
    OnlyQualifyingIsCurrent(t', p.studentId, now, |t.plans|);
  }

  /** Version 1 is the current plan of the student from the moment it is made. */
  lemma FirstVersionIsCurrent(t: Tables, sid: nat, now: Stamp, comentario: string, user: string)
    requires forall j :: 0 <= j < |t.plans| ==> t.plans[j].studentId != sid
    ensures CurrentPlan(FirstVersion(t, sid, now, comentario, user), sid, now) == Some(NewPlan(t, sid, 1, now, comentario))
    ensures NewPlan(t, sid, 1, now, comentario).versionNum == 1
  {
    AddedPlanIsCurrent(t, NewPlan(t, sid, 1, now, comentario), now, "Nuevo plan del estudiante", user);
  }

  /** `plan.vigente_hasta = now` on the row with the given id. */
  function CloseIn(ps: seq<PlanVersion>, id: nat, now: Stamp): (r: seq<PlanVersion>)
    ensures |r| == |ps|
    ensures forall i :: 0 <= i < |ps| ==> r[i] == if ps[i].id == id then ps[i].(hasta := Some(now)) else ps[i]
  {
    seq(|ps|, i requires 0 <= i < |ps| => if ps[i].id == id then ps[i].(hasta := Some(now)) else ps[i])
  }

  /** Closing as the page is written: the close is committed, then the log
      call raises a `TypeError` because `motivo` arrives twice, so no log
      entry and no successor follow. */
  function CloseAsWritten(t: Tables, cur: PlanVersion, now: Stamp): (r: Tables)
    ensures |r.plans| == |t.plans| && r.logs == t.logs && r.items == t.items
    ensures forall j :: 0 <= j < |r.plans| && r.plans[j].id == cur.id ==> r.plans[j].hasta == Some(now)
  {
    t.(plans := CloseIn(t.plans, cur.id, now))
  }

  /** As written, a student whose only open plan is closed is left without
      any plan in force once `now` has passed, and without a new version. */
  lemma CloseAsWrittenLeavesNoPlan(t: Tables, cur: PlanVersion, now: Stamp, later: Stamp)
    requires forall j :: 0 <= j < |t.plans| && t.plans[j].studentId == cur.studentId ==> t.plans[j].id == cur.id
    requires !StampLe(later, now)
    ensures |CloseAsWritten(t, cur, now).plans| == |t.plans|
    ensures CloseAsWritten(t, cur, now).logs == t.logs
    ensures CurrentPlan(CloseAsWritten(t, cur, now), cur.studentId, later).None?
  {
    var ps := CloseAsWritten(t, cur, now).plans;
    forall j | 0 <= j < |ps| ensures !Qualifies(ps[j], cur.studentId, later) {
      if ps[j].studentId == cur.studentId {
        assert ps[j].hasta == Some(now);
      }
    }
  }

  /** The close and successor step the page evidently means: close the plan
      in force, log the close, add version `max + 1` from `now`, log it. */
  function CloseAndSucceed(t: Tables, sid: nat, cur: PlanVersion, now: Stamp, user: string): (r: Tables)
    requires exists j :: 0 <= j < |t.plans| && t.plans[j].studentId == sid
    ensures |r.plans| == |t.plans| + 1 && |r.logs| == |t.logs| + 2 && r.items == t.items
    ensures r.plans[..|t.plans|] == CloseIn(t.plans, cur.id, now)
    ensures var p := r.plans[|t.plans|];
      p.studentId == sid && p.desde == now && p.hasta.None? && p.id !in PlanIds(t.plans)
  {
    var closed := t.(plans := CloseIn(t.plans, cur.id, now));
    assert PlanIds(closed.plans) == PlanIds(t.plans);
    var t1 := Logged(closed, now, LogArgs("PlanVersion", IdText(cur.id), Some("vigente_hasta"), None,
      Some(Day(now.date)), Some("Cerrada para crear nueva versión"), Some(user)));
    var next := MaxVersion(StudentPlans(t, sid)) + 1;
    AddPlanLogged(t1, NewPlan(t1, sid, next, now, "Plan v" + IntToString(next) + " (nueva versión)"), now,
      "Nueva versión tras cerrar anterior", user)
  }

  /** The intended close and successor step on the database. */
  method CloseAndReplace(db: Database, sid: nat, cur: PlanVersion, now: Stamp, user: string)
    requires exists j :: 0 <= j < |db.plans| && db.plans[j].studentId == sid
    modifies db
    ensures db.Snapshot() == CloseAndSucceed(old(db.Snapshot()), sid, cur, now, user)
  {
    var next := MaxVersion(StudentPlans(db.Snapshot(), sid)) + 1;
    db.plans := CloseIn(db.plans, cur.id, now);
    LogChange(db, now, LogArgs("PlanVersion", IdText(cur.id), Some("vigente_hasta"), None,
      Some(Day(now.date)), Some("Cerrada para crear nueva versión"), Some(user)));
    var p := NewPlan(db.Snapshot(), sid, next, now, "Plan v" + IntToString(next) + " (nueva versión)");
    db.plans := db.plans + [p];
    LogChange(db, now, LogArgs("PlanVersion", IdText(p.id), Some("creacion"), None,
      Some(Txt("v" + IntToString(next))), Some("Nueva versión tras cerrar anterior"), Some(user)));
  }

  lemma StudentPlansNonEmpty(t: Tables, sid: nat, j: nat)
    requires j < |t.plans| && t.plans[j].studentId == sid
    ensures StudentPlans(t, sid) != []
    ensures forall i :: 0 <= i < |t.plans| && t.plans[i].studentId == sid ==> t.plans[i] in StudentPlans(t, sid)
  {
    var sel := Filter(t.plans, (p: PlanVersion) => p.studentId == sid);
    StudentPlansOrdered(t, sid);
    assert t.plans[j] in sel;
    forall i | 0 <= i < |t.plans| && t.plans[i].studentId == sid ensures t.plans[i] in StudentPlans(t, sid) {
      assert t.plans[i] in multiset(sel);
    }
  }

  /** After the intended step the closed plan ends at `now`, and the
      successor is open-ended with a number above every version the
      student had. */
  lemma SuccessorExceeds(t: Tables, sid: nat, cur: PlanVersion, now: Stamp, user: string)
    requires exists j :: 0 <= j < |t.plans| && t.plans[j].studentId == sid
    ensures var t' := CloseAndSucceed(t, sid, cur, now, user);
      var succ := t'.plans[|t'.plans| - 1];
      |t'.plans| == |t.plans| + 1 && succ.studentId == sid && succ.hasta.None? && succ.desde == now
      && (forall i :: 0 <= i < |t.plans| && t.plans[i].studentId == sid ==> t.plans[i].versionNum < succ.versionNum)
      && (forall i :: 0 <= i < |t.plans| && t.plans[i].id == cur.id ==> t'.plans[i].hasta == Some(now))
  {
    var j :| 0 <= j < |t.plans| && t.plans[j].studentId == sid;
    StudentPlansNonEmpty(t, sid, j);
  }

  /** From `now` on, the student always has a plan in force again. */
  lemma SuccessorInForce(t: Tables, sid: nat, cur: PlanVersion, now: Stamp, user: string, later: Stamp)
    requires exists j :: 0 <= j < |t.plans| && t.plans[j].studentId == sid
    requires StampLe(now, later)
    ensures CurrentPlan(CloseAndSucceed(t, sid, cur, now, user), sid, later).Some?
  {
    SuccessorExceeds(t, sid, cur, now, user);
    var t' := CloseAndSucceed(t, sid, cur, now, user);
    assert Qualifies(t'.plans[|t'.plans| - 1], sid, later);
  }

  /** A new version when plans exist but none is in force: `max + 1`. */
  function NextVersion(t: Tables, sid: nat, now: Stamp, comentario: string, user: string): Tables
    requires exists j :: 0 <= j < |t.plans| && t.plans[j].studentId == sid
  {
    var next := MaxVersion(StudentPlans(t, sid)) + 1;
    AddPlanLogged(t, NewPlan(t, sid, next, now, comentario), now, "Nueva versión", user)
  }

  method CreateNextVersion(db: Database, sid: nat, now: Stamp, comentario: string, user: string)
    requires exists j :: 0 <= j < |db.plans| && db.plans[j].studentId == sid
    requires CurrentPlan(db.Snapshot(), sid, now).None?
    modifies db
    ensures db.Snapshot() == NextVersion(old(db.Snapshot()), sid, now, comentario, user)
  {
    var t := db.Snapshot();
    var next := MaxVersion(StudentPlans(t, sid)) + 1;
    var p := NewPlan(t, sid, next, now, comentario);
    db.plans := db.plans + [p];
    LogChange(db, now, LogArgs("PlanVersion", IdText(p.id), Some("creacion"), None,
      Some(Txt("v" + IntToString(p.versionNum))), Some("Nueva versión"), Some(user)));
  }

  /** The new version exceeds every existing one, so distinct version
      numbers stay distinct, and it becomes the plan in force. */
  lemma NextVersionProperties(t: Tables, sid: nat, now: Stamp, comentario: string, user: string)
    requires exists j :: 0 <= j < |t.plans| && t.plans[j].studentId == sid
    requires CurrentPlan(t, sid, now).None?
    ensures var t' := NextVersion(t, sid, now, comentario, user);
      var p := t'.plans[|t'.plans| - 1];
      |t'.plans| == |t.plans| + 1 && t'.plans[..|t.plans|] == t.plans
      && (forall i :: 0 <= i < |t.plans| && t.plans[i].studentId == sid ==> t.plans[i].versionNum < p.versionNum)
      && CurrentPlan(t', sid, now) == Some(p)
  {
    var j :| 0 <= j < |t.plans| && t.plans[j].studentId == sid;
    var next := NextAboveAll(t, sid, j);
    var p := NewPlan(t, sid, next, now, comentario);
    AddedPlanIsCurrent(t, p, now, "Nueva versión", user);
    var t' := NextVersion(t, sid, now, comentario, user);
    AddedPlanShape(t, p, now, "Nueva versión", user);
    assert t'.plans[|t'.plans| - 1] == p;
  }

  lemma AddedPlanShape(t: Tables, p: PlanVersion, now: Stamp, motivo: string, user: string)
    ensures var ps := AddPlanLogged(t, p, now, motivo, user).plans;
      |ps| == |t.plans| + 1 && ps[..|t.plans|] == t.plans && ps[|t.plans|] == p
  {
    assert AddPlanLogged(t, p, now, motivo, user).plans == t.plans + [p];
  }

  /** `max + 1` lies above the version of every plan of the student. */
  lemma NextAboveAll(t: Tables, sid: nat, j: nat) returns (next: int)
    requires j < |t.plans| && t.plans[j].studentId == sid
    ensures StudentPlans(t, sid) != [] && next == MaxVersion(StudentPlans(t, sid)) + 1
    ensures forall i :: 0 <= i < |t.plans| && t.plans[i].studentId == sid ==> t.plans[i].versionNum < next
  {
    StudentPlansNonEmpty(t, sid, j);
    var ps := StudentPlans(t, sid);
    next := MaxVersion(ps) + 1;
    forall i | 0 <= i < |t.plans| && t.plans[i].studentId == sid ensures t.plans[i].versionNum < next {
      var k :| 0 <= k < |ps| && ps[k] == t.plans[i];
    }
  }

  // ---------------------------------------------------------------------
  // adding a course: the catalog filter

  /** The selections of the form; the empty string means no filter. */
  datatype CourseFilter = CourseFilter(programa: string, tipo: string, anio: string, orientacion: string, search: string)

  /** `str(c.anio)`, which is "None" for a missing year. */
  function YearText(y: Option<int>): string {
    if y.None? then "None" else IntToString(y.value)
  }

  /** The course ids already in the plan. */
  function PlanCourseIds(t: Tables, planId: nat): set<string> {
    set i | i in ItemsOf(t, planId) :: i.courseId
  }

  /** `[c for c in all_courses if c.course_id not in existing_ids]`. */
  function AvailableCourses(catalog: seq<Course>, existing: set<string>): seq<Course> {
    Filter(catalog, (c: Course) => c.courseId !in existing)
  }

  predicate SearchHit(c: Course, search: string)
    requires c.materia.Some?
  {
    Contains(Lower(c.materia.value), Lower(search))
  }

  /** The four equality filters, each applied only when selected. */
  predicate Passes(c: Course, f: CourseFilter) {
    (f.programa == "" || c.programa == Some(f.programa))
    && (f.tipo == "" || c.tipoMateria == Some(f.tipo))
    && (f.anio == "" || YearText(c.anio) == f.anio)
    && (f.orientacion == "" || c.orientacion == Some(f.orientacion))
  }

  /** Every filter, and the case-insensitive subject search when there is one. */
  predicate Matches(c: Course, f: CourseFilter) {
    Passes(c, f) && (f.search == "" || (c.materia.Some? && SearchHit(c, f.search)))
  }

  /** The four equality filters in the page's order, each applied only
      when a value is selected; they keep exactly the courses passing all four. */
  function EqualityFilters(cs: seq<Course>, f: CourseFilter): (g: seq<Course>)
    ensures forall x :: x in g <==> x in cs && Passes(x, f)
  {
    var a := if f.programa != "" then Filter(cs, (c: Course) => c.programa == Some(f.programa)) else cs;
    var b := if f.tipo != "" then Filter(a, (c: Course) => c.tipoMateria == Some(f.tipo)) else a;
    var e := if f.anio != "" then Filter(b, (c: Course) => YearText(c.anio) == f.anio) else b;
    var g := if f.orientacion != "" then Filter(e, (c: Course) => c.orientacion == Some(f.orientacion)) else e;
    ChainMembers(cs, f);
    g
  }

  /** The filters, then the subject search. A search that meets a course
      without a subject name fails (`None.lower()`), which is `None` here. */
  function ApplyFilters(cs: seq<Course>, f: CourseFilter): (r: Option<seq<Course>>)
    ensures r.None? <==> f.search != "" && exists c :: c in cs && c.materia.None? && Passes(c, f)
  {
    var g := EqualityFilters(cs, f);
    if f.search == "" then Some(g)
    else if exists c :: c in g && c.materia.None? then None
    else Some(Filter(g, (c: Course) => c.materia.Some? && SearchHit(c, f.search)))
  }

  /** The chain of equality filters keeps exactly the courses passing all four. */
  lemma ChainMembers(cs: seq<Course>, f: CourseFilter)
    ensures var a := if f.programa != "" then Filter(cs, (c: Course) => c.programa == Some(f.programa)) else cs;
      var b := if f.tipo != "" then Filter(a, (c: Course) => c.tipoMateria == Some(f.tipo)) else a;
      var e := if f.anio != "" then Filter(b, (c: Course) => YearText(c.anio) == f.anio) else b;
      var g := if f.orientacion != "" then Filter(e, (c: Course) => c.orientacion == Some(f.orientacion)) else e;
      forall x :: x in g <==> x in cs && Passes(x, f)
  {
    var a := if f.programa != "" then Filter(cs, (c: Course) => c.programa == Some(f.programa)) else cs;
    var b := if f.tipo != "" then Filter(a, (c: Course) => c.tipoMateria == Some(f.tipo)) else a;
    var e := if f.anio != "" then Filter(b, (c: Course) => YearText(c.anio) == f.anio) else b;
    var g := if f.orientacion != "" then Filter(e, (c: Course) => c.orientacion == Some(f.orientacion)) else e;
    forall x ensures x in g <==> x in cs && Passes(x, f) {
      FilterMember(cs, (c: Course) => c.programa == Some(f.programa), x);
      FilterMember(a, (c: Course) => c.tipoMateria == Some(f.tipo), x);
      FilterMember(b, (c: Course) => YearText(c.anio) == f.anio, x);
      FilterMember(e, (c: Course) => c.orientacion == Some(f.orientacion), x);
    }
  }

  /** The courses offered for adding: not yet in the plan, passing every
      selected filter, with the case-insensitive subject search. */
  lemma OfferedCourses(catalog: seq<Course>, existing: set<string>, f: CourseFilter, c: Course)
    requires ApplyFilters(AvailableCourses(catalog, existing), f).Some?
    ensures c in ApplyFilters(AvailableCourses(catalog, existing), f).value
        <==> c in catalog && c.courseId !in existing && Matches(c, f)
  {
    var av := AvailableCourses(catalog, existing);
    FilterMember(catalog, (x: Course) => x.courseId !in existing, c);
    if f.search != "" {
      FilterMember(EqualityFilters(av, f), (x: Course) => x.materia.Some? && SearchHit(x, f.search), c);
    }
  }

  // ---------------------------------------------------------------------
  // the summary table

  datatype SummaryRow = SummaryRow(version: int, desde: Date, hasta: Option<Date>,
                                   planned: nat, backup: nat, total: nat, vigente: bool)

  /** One row of the summary: "Vigente" when the plan has no end. */
  function RowOf(t: Tables, p: PlanVersion): (r: SummaryRow)
    ensures r.planned + r.backup == r.total && r.total == |ItemsOf(t, p.id)|
    ensures r.vigente <==> p.hasta.None?
    ensures r.version == p.versionNum && r.desde == p.desde.date
  {
    var items := ItemsOf(t, p.id);
    CountsCoverItems(items);
    SummaryRow(p.versionNum, p.desde.date, if p.hasta.Some? then Some(p.hasta.value.date) else None,
      PlannedCount(items), BackupCount(items), |items|, p.hasta.None?)
  }

  /** The rows of a list of plans, one per plan in list order. */
  function RowsOf(t: Tables, ps: seq<PlanVersion>): (rows: seq<SummaryRow>)
    ensures |rows| == |ps|
  {
    seq(|ps|, i requires 0 <= i < |ps| => RowOf(t, ps[i]))
  }

  /** The loop that builds `summary_data`, one row per plan in version order. */
  method Summary(t: Tables, sid: nat) returns (rows: seq<SummaryRow>)
    ensures rows == RowsOf(t, StudentPlans(t, sid))
  {
    var plans := StudentPlans(t, sid);
    rows := [];
    for k := 0 to |plans|
      invariant rows == RowsOf(t, plans[..k])
    {
      assert plans[..k + 1] == plans[..k] + [plans[k]];
      rows := rows + [RowOf(t, plans[k])];
    }
    assert plans[..|plans|] == plans;
  }
}
