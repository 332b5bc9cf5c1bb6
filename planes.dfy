/**
 * The plan and enrollment page (pages/03_Planes.py): versioned plans with a
 * suggested version number, plan items, the guarded creation of an
 * enrollment, the status and grade edit with one log entry per changed
 * field, and the per-student enrollment summary.
 */
module Planes {
  import opened Wrappers
  import opened Dates
  import opened Text
  import opened Models
  import opened Helpers
  import Seqs
  import Metrics
  import Rutas

  // ---------------------------------------------------------------------
  // versioned plans

  /** `query(PlanVersion).filter_by(student_id=sid).all()`. */
  function PlansOf(t: Tables, sid: nat): seq<PlanVersion> {
    Seqs.Filter(t.plans, (p: PlanVersion) => p.studentId == sid)
  }

  /** The default of "Número de Versión": one more than the number of plans
      the student has. */
  function SuggestedVersion(t: Tables, sid: nat): (v: int)
    ensures v >= 1
  {
    |PlansOf(t, sid)| + 1
  }

  /** When the student's versions are numbered within 1..n, n being the
      number of plans, the suggestion is a number no plan of the student
      uses yet. */
  lemma SuggestionIsFresh(t: Tables, sid: nat)
    requires forall j :: 0 <= j < |PlansOf(t, sid)| ==> 1 <= PlansOf(t, sid)[j].versionNum <= |PlansOf(t, sid)|
    ensures forall j :: 0 <= j < |t.plans| && t.plans[j].studentId == sid ==> t.plans[j].versionNum != SuggestedVersion(t, sid)
  {
    forall j | 0 <= j < |t.plans| && t.plans[j].studentId == sid
      ensures t.plans[j].versionNum != SuggestedVersion(t, sid)
    {
      Seqs.FilterMember(t.plans, (p: PlanVersion) => p.studentId == sid, t.plans[j]);
      var k :| 0 <= k < |PlansOf(t, sid)| && PlansOf(t, sid)[k] == t.plans[j];
    }
  }

  /** Nothing keeps version numbers apart: a student whose only plan is v2
      is offered v2 again. */
  lemma SuggestionCanRepeat()
    ensures var p := PlanVersion(1, 7, 2, StartOfDay(Date(2024, 3, 1)), None, None);
      var t := Tables(map[], [], [], [], [p], [], [], []);
      SuggestedVersion(t, 7) == p.versionNum
  {
    var p := PlanVersion(1, 7, 2, StartOfDay(Date(2024, 3, 1)), None, None);
    var t := Tables(map[], [], [], [], [p], [], [], []);
    assert [p][..0] == [];
    assert PlansOf(t, 7) == [p];
  }

  /** A date picked on the page, stored in a DateTime column: midnight. */
  function DayStamp(d: Option<Date>): (s: Option<Stamp>)
    ensures s.Some? <==> d.Some?
    ensures d.Some? ==> s.value.date == d.value && s.value.micros == 0
  {
    if d.Some? then Some(StartOfDay(d.value)) else None
  }

  /** The row "Crear Plan" inserts. */
  function PlanRow(t: Tables, sid: nat, version: int, desde: Date, hasta: Option<Date>, comentario: string): (p: PlanVersion)
    ensures p.id !in PlanIds(t.plans)
    ensures p.studentId == sid && p.versionNum == version && p.comentario == Some(comentario)
  {
    PlanVersion(NextId(PlanIds(t.plans)), sid, version, StartOfDay(desde), DayStamp(hasta), Some(comentario))
  }

  /** "Crear Plan": the insert commits, then the log entry records "v" and
      the version number, without a motivo. */
  function CreatePlanSpec(t: Tables, sid: nat, version: int, desde: Date, hasta: Option<Date>, comentario: string,
                          now: Stamp, user: string): Tables
  {
    var p := PlanRow(t, sid, version, desde, hasta, comentario);
    Logged(t.(plans := t.plans + [p]), now,
      LogArgs("PlanVersion", NatToString(p.id), Some("creacion"), None, Some(Txt("v" + IntToString(version))), None, Some(user)))
  }

  /** Creating a plan adds exactly that row and one log entry, keeps every
      other table and the database's constraints and references, and raises
      the next suggestion by one. */
  lemma CreatePlanEffect(t: Tables, sid: nat, version: int, desde: Date, hasta: Option<Date>, comentario: string,
                         now: Stamp, user: string)
    requires Constraints(t) && References(t) && IsStudent(t, sid)
    ensures var t' := CreatePlanSpec(t, sid, version, desde, hasta, comentario, now, user);
      t'.plans == t.plans + [PlanRow(t, sid, version, desde, hasta, comentario)]
      && |t'.logs| == |t.logs| + 1 && t'.logs[..|t.logs|] == t.logs
      && t'.logs[|t.logs|].nuevo == Some(Txt("v" + IntToString(version)))
      && t'.students == t.students && t'.items == t.items && t'.enrollments == t.enrollments
      && SuggestedVersion(t', sid) == SuggestedVersion(t, sid) + 1
  {
    var p := PlanRow(t, sid, version, desde, hasta, comentario);
    var t1 := t.(plans := t.plans + [p]);
    LoggedAppendsOne(t1, now, LogArgs("PlanVersion", NatToString(p.id), Some("creacion"), None,
      Some(Txt("v" + IntToString(version))), None, Some(user)));
    Seqs.FilterAppend(t.plans, p, (p: PlanVersion) => p.studentId == sid);
  }

  /** Creating a plan for a student keeps the database's constraints and
      references. */
  lemma CreatePlanKeepsReferences(t: Tables, sid: nat, version: int, desde: Date, hasta: Option<Date>, comentario: string,
                                  now: Stamp, user: string)
    requires Constraints(t) && References(t) && IsStudent(t, sid)
    ensures var t' := CreatePlanSpec(t, sid, version, desde, hasta, comentario, now, user);
      Constraints(t') && References(t')
  {
    var p := PlanRow(t, sid, version, desde, hasta, comentario);
    var t1 := t.(plans := t.plans + [p]);
    LoggedAppendsOne(t1, now, LogArgs("PlanVersion", NatToString(p.id), Some("creacion"), None,
      Some(Txt("v" + IntToString(version))), None, Some(user)));
    AppendPlanKeepsReferences(t, p);
    LogsOnlyKeepReferences(t1, CreatePlanSpec(t, sid, version, desde, hasta, comentario, now, user));
  }

  lemma AppendPlanKeepsReferences(t: Tables, p: PlanVersion)
    requires Constraints(t) && References(t) && p.id !in PlanIds(t.plans) && IsStudent(t, p.studentId)
    ensures Constraints(t.(plans := t.plans + [p])) && References(t.(plans := t.plans + [p]))
  {
    var t1 := t.(plans := t.plans + [p]);
    assert PlanIds(t1.plans) == PlanIds(t.plans) + [p.id];
    DistinctAppend(PlanIds(t.plans), p.id);
    forall i | 0 <= i < |t1.items| ensures IsPlan(t1, t1.items[i].planId) {
      assert IsPlan(t, t.items[i].planId);
      var m :| 0 <= m < |t.plans| && t.plans[m].id == t.items[i].planId;
      assert t1.plans[m] == t.plans[m];
    }
    forall i | 0 <= i < |t1.plans| ensures IsStudent(t1, t1.plans[i].studentId) {
    }
  }

  lemma AppendItemKeepsReferences(t: Tables, i: PlanItem)
    requires Constraints(t) && References(t) && i.id !in ItemIds(t.items) && IsPlan(t, i.planId) && i.courseId in t.courses
    ensures Constraints(t.(items := t.items + [i])) && References(t.(items := t.items + [i]))
  {
    assert ItemIds(t.items + [i]) == ItemIds(t.items) + [i.id];
    DistinctAppend(ItemIds(t.items), i.id);
  }

  lemma AppendEnrollmentKeepsReferences(t: Tables, e: Enrollment)
    requires Constraints(t) && References(t) && e.id !in EnrollmentIds(t.enrollments)
    requires IsStudent(t, e.studentId) && e.courseId in t.courses
    ensures Constraints(t.(enrollments := t.enrollments + [e])) && References(t.(enrollments := t.enrollments + [e]))
  {
    assert EnrollmentIds(t.enrollments + [e]) == EnrollmentIds(t.enrollments) + [e.id];
    DistinctAppend(EnrollmentIds(t.enrollments), e.id);
  }

  /** A fresh key appended to distinct keys keeps them distinct. */
  lemma DistinctAppend(ids: seq<nat>, x: nat)
    requires Distinct(ids) && x !in ids
    ensures Distinct(ids + [x])
  {
  }

  /** A plan whose "vigente hasta" is its start day ends at that day's
      midnight, the instant it starts: it is in force at no other moment. */
  lemma SameDayPlanExpires(t: Tables, sid: nat, version: int, d: Date, comentario: string, now: Stamp)
    requires Metrics.InForce(PlanRow(t, sid, version, d, Some(d), comentario), now)
    ensures now == StartOfDay(d)
  {
    DateLeTotal(d, now.date);
  }

  /** "Crear Plan" on the database. */
  method CreatePlan(db: Database, sid: nat, version: int, desde: Date, hasta: Option<Date>, comentario: string,
                    now: Stamp, user: string)
    modifies db
    ensures db.Snapshot() == CreatePlanSpec(old(db.Snapshot()), sid, version, desde, hasta, comentario, now, user)
  {
    var p := PlanRow(db.Snapshot(), sid, version, desde, hasta, comentario);
    db.plans := db.plans + [p];
    LogChange(db, now, LogArgs("PlanVersion", NatToString(p.id), Some("creacion"), None,
      Some(Txt("v" + IntToString(version))), None, Some(user)));
  }

  // ---------------------------------------------------------------------
  // plan items

  /** The row "Agregar Item" inserts; the note text is stored as typed. */
  function ItemRow(t: Tables, planId: nat, courseId: string, prioridad: int, estado: PlanState, nota: string): (i: PlanItem)
    ensures i.id !in ItemIds(t.items)
    ensures i.planId == planId && i.courseId == courseId && i.estado == estado
  {
    PlanItem(NextId(ItemIds(t.items)), planId, courseId, Some(prioridad), estado, Some(nota))
  }

  /** "Agregar Item": the insert commits, then the log entry records the
      subject's name ("None" when the course has none). */
  function AddItemSpec(t: Tables, planId: nat, courseId: string, prioridad: int, estado: PlanState, nota: string,
                       now: Stamp, user: string): Tables
    requires courseId in t.courses
  {
    var i := ItemRow(t, planId, courseId, prioridad, estado, nota);
    Logged(t.(items := t.items + [i]), now,
      LogArgs("StudentPlanItem", NatToString(i.id), Some("creacion"), None,
        Some(Txt(Rutas.OptText(t.courses[courseId].materia))), None, Some(user)))
  }

  /** Adding an item appends it to the plan's items and raises the plan's
      planned or backup count, whichever its state is, by one. */
  lemma AddItemCounts(t: Tables, planId: nat, courseId: string, prioridad: int, estado: PlanState, nota: string,
                      now: Stamp, user: string)
    requires courseId in t.courses
    ensures var t' := AddItemSpec(t, planId, courseId, prioridad, estado, nota, now, user);
      var before := Rutas.ItemsOf(t, planId);
      var after := Rutas.ItemsOf(t', planId);
      after == before + [ItemRow(t, planId, courseId, prioridad, estado, nota)]
      && Rutas.PlannedCount(after) == Rutas.PlannedCount(before) + (if estado == PlanState.Planned then 1 else 0)
      && Rutas.BackupCount(after) == Rutas.BackupCount(before) + (if estado == Backup then 1 else 0)
  {
    var i := ItemRow(t, planId, courseId, prioridad, estado, nota);
    Seqs.FilterAppend(t.items, i, (i: PlanItem) => i.planId == planId);
    var before := Rutas.ItemsOf(t, planId);
    Seqs.FilterAppend(before, i, (i: PlanItem) => i.estado == PlanState.Planned);
    Seqs.FilterAppend(before, i, (i: PlanItem) => i.estado == Backup);
  }

  /** Adding an item to an existing plan, for a catalogued course, keeps
      the database's constraints and references. */
  lemma AddItemKeepsReferences(t: Tables, planId: nat, courseId: string, prioridad: int, estado: PlanState, nota: string,
                               now: Stamp, user: string)
    requires Constraints(t) && References(t) && IsPlan(t, planId) && courseId in t.courses
    ensures var t' := AddItemSpec(t, planId, courseId, prioridad, estado, nota, now, user);
      Constraints(t') && References(t')
  {
    var i := ItemRow(t, planId, courseId, prioridad, estado, nota);
    var t1 := t.(items := t.items + [i]);
    LoggedAppendsOne(t1, now, LogArgs("StudentPlanItem", NatToString(i.id), Some("creacion"), None,
      Some(Txt(Rutas.OptText(t.courses[courseId].materia))), None, Some(user)));
    AppendItemKeepsReferences(t, i);
    LogsOnlyKeepReferences(t1, AddItemSpec(t, planId, courseId, prioridad, estado, nota, now, user));
  }

  /** "Agregar Item" on the database. */
  method AddItem(db: Database, planId: nat, courseId: string, prioridad: int, estado: PlanState, nota: string,
                 now: Stamp, user: string)
    requires courseId in db.courses
    modifies db
    ensures db.Snapshot() == AddItemSpec(old(db.Snapshot()), planId, courseId, prioridad, estado, nota, now, user)
  {
    var i := ItemRow(db.Snapshot(), planId, courseId, prioridad, estado, nota);
    var materia := db.courses[courseId].materia;
    db.items := db.items + [i];
    LogChange(db, now, LogArgs("StudentPlanItem", NatToString(i.id), Some("creacion"), None,
      Some(Txt(Rutas.OptText(materia))), None, Some(user)));
  }

  // ---------------------------------------------------------------------
  // creating an enrollment

  /** The student's enrollments in the course, which `one_or_none` reads:
      no constraint keeps the pair unique, so there may be several. */
  function Matching(t: Tables, sid: nat, courseId: string): seq<Enrollment> {
    Seqs.Filter(t.enrollments, (e: Enrollment) => e.studentId == sid && e.courseId == courseId)
  }

  /** `nota if nota else None`: an empty grade and a grade of 0.0 are both
      stored as NULL. */
  function InitialGrade(nota: Option<real>): (g: Option<real>)
    ensures g.None? <==> nota.None? || nota.value == 0.0
    ensures g.Some? ==> g == nota
  {
    if nota.Some? && nota.value != 0.0 then nota else None
  }

  /** The row "Crear Inscripción" inserts: registered now, and stamped now
      exactly when it is created as completed. */
  function EnrollmentRow(t: Tables, sid: nat, courseId: string, status: Status, nota: Option<real>, now: Stamp): (e: Enrollment)
    ensures e.id !in EnrollmentIds(t.enrollments)
    ensures e.studentId == sid && e.courseId == courseId && e.status == status && e.registro == now
    ensures e.fechaEstado == (if status == Completed then Some(now) else None)
    ensures e.grade == InitialGrade(nota) && e.nota.None?
  {
    Enrollment(NextId(EnrollmentIds(t.enrollments)), sid, courseId, status, None, InitialGrade(nota), now,
      if status == Completed then Some(now) else None)
  }

  /** What "Crear Inscripción" reports: the student already has the course,
      the lookup found several rows and raised, or the enrollment was
      created. */
  datatype CreateOutcome = AlreadyEnrolled | MultipleFound | Created(enrollment: Enrollment)

  function EnrollArgs(t: Tables, e: Enrollment, user: string): LogArgs
    requires e.courseId in t.courses
  {
    LogArgs("Enrollment", NatToString(e.id), Some("creacion"), None,
      Some(Txt(Rutas.OptText(t.courses[e.courseId].materia) + " - " + StatusName(e.status))), None, Some(user))
  }

  function CreateEnrollmentSpec(t: Tables, sid: nat, courseId: string, status: Status, nota: Option<real>,
                                now: Stamp, user: string): (CreateOutcome, Tables)
    requires courseId in t.courses
  {
    var m := Matching(t, sid, courseId);
    if |m| == 1 then (AlreadyEnrolled, t)
    else if |m| > 1 then (MultipleFound, t)
    else
      var e := EnrollmentRow(t, sid, courseId, status, nota, now);
      (Created(e), Logged(t.(enrollments := t.enrollments + [e]), now, EnrollArgs(t, e, user)))
  }

  /** An enrollment is created exactly when the student has none in the
      course; then it is the only one, so the same request a second time is
      refused. */
  lemma CreateEnrollmentExact(t: Tables, sid: nat, courseId: string, status: Status, nota: Option<real>,
                              now: Stamp, now2: Stamp, user: string)
    requires courseId in t.courses
    ensures var (r, t') := CreateEnrollmentSpec(t, sid, courseId, status, nota, now, user);
      (r.Created? <==> forall j :: 0 <= j < |t.enrollments| ==> !(t.enrollments[j].studentId == sid && t.enrollments[j].courseId == courseId))
      && (!r.Created? ==> t' == t)
      && (r.Created? ==> Matching(t', sid, courseId) == [r.enrollment])
      && (r.Created? ==> CreateEnrollmentSpec(t', sid, courseId, status, nota, now2, user).0 == AlreadyEnrolled)
  {
    var p := (e: Enrollment) => e.studentId == sid && e.courseId == courseId;
    Seqs.FilterEmpty(t.enrollments, p);
    var (r, t') := CreateEnrollmentSpec(t, sid, courseId, status, nota, now, user);
    if r.Created? {
      Seqs.FilterAppend(t.enrollments, r.enrollment, p);
    }
  }

  /** Creating an enrollment for a student and a catalogued course keeps
      the database's constraints and references. */
  lemma CreateEnrollmentKeepsReferences(t: Tables, sid: nat, courseId: string, status: Status, nota: Option<real>,
                                        now: Stamp, user: string)
    requires Constraints(t) && References(t) && IsStudent(t, sid) && courseId in t.courses
    ensures Constraints(CreateEnrollmentSpec(t, sid, courseId, status, nota, now, user).1)
    ensures References(CreateEnrollmentSpec(t, sid, courseId, status, nota, now, user).1)
  {
    var (r, t') := CreateEnrollmentSpec(t, sid, courseId, status, nota, now, user);
    if r.Created? {
      var e := r.enrollment;
      var t1 := t.(enrollments := t.enrollments + [e]);
      LoggedAppendsOne(t1, now, EnrollArgs(t, e, user));
      AppendEnrollmentKeepsReferences(t, e);
      LogsOnlyKeepReferences(t1, t');
    }
  }

  /** "Crear Inscripción" on the database. */
  method CreateEnrollment(db: Database, sid: nat, courseId: string, status: Status, nota: Option<real>,
                          now: Stamp, user: string) returns (r: CreateOutcome)
    requires courseId in db.courses
    modifies db
    ensures (r, db.Snapshot()) == CreateEnrollmentSpec(old(db.Snapshot()), sid, courseId, status, nota, now, user)
  {
    var t := db.Snapshot();
    var existing := Matching(t, sid, courseId);
    if |existing| == 1 {
      r := AlreadyEnrolled;
    } else if |existing| > 1 {
      r := MultipleFound;
    } else {
      var e := EnrollmentRow(t, sid, courseId, status, nota, now);
      db.enrollments := db.enrollments + [e];
      LogChange(db, now, EnrollArgs(t, e, user));
      r := Created(e);
    }
  }

  // ---------------------------------------------------------------------
  // editing an enrollment

  /** `session.get(Enrollment, id)`: the position of the row with that key. */
  function EnrollmentIndex(es: seq<Enrollment>, id: nat): (i: int)
    ensures -1 <= i < |es|
    ensures i >= 0 ==> es[i].id == id
    ensures i < 0 ==> forall j :: 0 <= j < |es| ==> es[j].id != id
    decreases |es|
  {
    if es == [] then -1
    else if es[0].id == id then 0
    else
      var r := EnrollmentIndex(es[1..], id);
      if r < 0 then -1 else r + 1
  }

  /** The values of the edit form: the status select box, and the grade box,
      which starts at the stored grade or 0.0 and always holds a number. */
  datatype Edit = Edit(status: Status, grade: real)

  function StatusArgs(e: Enrollment, s: Status, user: string): LogArgs {
    LogArgs("Enrollment", NatToString(e.id), Some("status"), Some(Txt(StatusName(e.status))), Some(Txt(StatusName(s))),
      None, Some(user))
  }

  function GradeArgs(e: Enrollment, g: real, user: string): LogArgs {
    LogArgs("Enrollment", NatToString(e.id), Some("nota_numerica"), if e.grade.Some? then Some(Number(e.grade.value)) else None,
      Some(Number(g)), None, Some(user))
  }

  /** The enrollment once the edit commits: the form's status and grade, and
      the time of the save when the new status is completed. */
  function Edited(e: Enrollment, ed: Edit, now: Stamp): (e': Enrollment)
    ensures e'.status == ed.status && e'.grade == Some(ed.grade)
    ensures e'.fechaEstado == (if ed.status == Completed then Some(now) else e.fechaEstado)
    ensures e'.(status := e.status, grade := e.grade, fechaEstado := e.fechaEstado) == e
  {
    e.(status := ed.status, grade := Some(ed.grade), fechaEstado := if ed.status == Completed then Some(now) else e.fechaEstado)
  }

  /** "Actualizar": a changed status is logged, then a changed grade (a
      stored NULL differs from every number), each in its own commit; the
      row's changes commit last. */
  function UpdateEnrollmentSpec(t: Tables, id: nat, ed: Edit, now: Stamp, user: string): (r: Tables)
    ensures EnrollmentIndex(t.enrollments, id) < 0 ==> r == t
    ensures |r.enrollments| == |t.enrollments| && |t.logs| <= |r.logs| <= |t.logs| + 2
    ensures r.students == t.students && r.plans == t.plans && r.items == t.items
  {
    var i := EnrollmentIndex(t.enrollments, id);
    if i < 0 then t
    else
      var e := t.enrollments[i];
      var t1 := if ed.status != e.status then Logged(t, now, StatusArgs(e, ed.status, user)) else t;
      var t2 := if Some(ed.grade) != e.grade then Logged(t1, now, GradeArgs(e, ed.grade, user)) else t1;
      t2.(enrollments := t.enrollments[i := Edited(e, ed, now)])
  }

  /** The edit changes only that enrollment, logs one entry per changed
      field (status before grade), and keeps the database's constraints. */
  lemma UpdateEnrollmentEffect(t: Tables, id: nat, ed: Edit, now: Stamp, user: string)
    requires EnrollmentIndex(t.enrollments, id) >= 0
    ensures var i := EnrollmentIndex(t.enrollments, id);
      var e := t.enrollments[i];
      var t' := UpdateEnrollmentSpec(t, id, ed, now, user);
      var n := (if ed.status != e.status then 1 else 0) + (if Some(ed.grade) != e.grade then 1 else 0);
      t'.enrollments == t.enrollments[i := Edited(e, ed, now)]
      && |t'.logs| == |t.logs| + n && t'.logs[..|t.logs|] == t.logs
      && (ed.status != e.status ==> t'.logs[|t.logs|].campo == Some("status"))
      && (Some(ed.grade) != e.grade ==> t'.logs[|t'.logs| - 1].campo == Some("nota_numerica"))
      && t'.(logs := t.logs, enrollments := t.enrollments) == t
  {
    var i := EnrollmentIndex(t.enrollments, id);
    var e := t.enrollments[i];
    var t1 := if ed.status != e.status then Logged(t, now, StatusArgs(e, ed.status, user)) else t;
    LoggedAppendsOne(t, now, StatusArgs(e, ed.status, user));
    LoggedAppendsOne(t1, now, GradeArgs(e, ed.grade, user));
  }

  /** The edit keeps the database's constraints and references. */
  lemma UpdateEnrollmentKeepsReferences(t: Tables, id: nat, ed: Edit, now: Stamp, user: string)
    requires Constraints(t) && References(t)
    ensures Constraints(UpdateEnrollmentSpec(t, id, ed, now, user))
    ensures References(UpdateEnrollmentSpec(t, id, ed, now, user))
  {
    var i := EnrollmentIndex(t.enrollments, id);
    if i >= 0 {
      var e := t.enrollments[i];
      var t1 := if ed.status != e.status then Logged(t, now, StatusArgs(e, ed.status, user)) else t;
      LoggedAppendsOne(t, now, StatusArgs(e, ed.status, user));
      var t2 := if Some(ed.grade) != e.grade then Logged(t1, now, GradeArgs(e, ed.grade, user)) else t1;
      LoggedAppendsOne(t1, now, GradeArgs(e, ed.grade, user));
      LogsOnlyKeepReferences(t, t1);
      LogsOnlyKeepReferences(t1, t2);
      ReplaceEnrollmentKeepsReferences(t2, i, Edited(e, ed, now));
    }
  }

  /** Tables that differ only in the change log satisfy the same references. */
  lemma LogsOnlyKeepReferences(t: Tables, t': Tables)
    requires References(t) && t'.(logs := t.logs) == t
    ensures References(t')
  {
    assert t'.courses == t.courses && t'.sources == t.sources && t'.students == t.students;
    assert t'.meetings == t.meetings && t'.plans == t.plans && t'.items == t.items && t'.enrollments == t.enrollments;
  }

  /** Rewriting an enrollment's non-key columns keeps the constraints and
      the references. */
  lemma ReplaceEnrollmentKeepsReferences(t: Tables, i: nat, e: Enrollment)
    requires Constraints(t) && References(t) && i < |t.enrollments|
    requires e.id == t.enrollments[i].id && e.studentId == t.enrollments[i].studentId && e.courseId == t.enrollments[i].courseId
    ensures Constraints(t.(enrollments := t.enrollments[i := e]))
    ensures References(t.(enrollments := t.enrollments[i := e]))
  {
    var t' := t.(enrollments := t.enrollments[i := e]);
    assert EnrollmentIds(t'.enrollments) == EnrollmentIds(t.enrollments);
    forall j | 0 <= j < |t'.enrollments|
      ensures IsStudent(t', t'.enrollments[j].studentId) && t'.enrollments[j].courseId in t'.courses
    {
      assert t'.enrollments[j].studentId == t.enrollments[j].studentId;
      assert t'.enrollments[j].courseId == t.enrollments[j].courseId;
    }
  }

  /** Saving the same form again logs nothing more, but a completed
      enrollment is stamped anew with the time of the second save. */
  lemma UpdateAgainRestamps(t: Tables, id: nat, ed: Edit, now: Stamp, now2: Stamp, user: string)
    requires EnrollmentIndex(t.enrollments, id) >= 0
    ensures var i := EnrollmentIndex(t.enrollments, id);
      var t' := UpdateEnrollmentSpec(t, id, ed, now, user);
      var t'' := UpdateEnrollmentSpec(t', id, ed, now2, user);
      t''.logs == t'.logs
      && EnrollmentIndex(t'.enrollments, id) == i
      && (ed.status == Completed ==> t''.enrollments[i].fechaEstado == Some(now2))
      && (ed.status != Completed ==> t''.enrollments == t'.enrollments)
  {
    var i := EnrollmentIndex(t.enrollments, id);
    var t' := UpdateEnrollmentSpec(t, id, ed, now, user);
    UpdateEnrollmentEffect(t, id, ed, now, user);
    SameKeysSameIndex(t.enrollments, t'.enrollments, id);
  }

  /** Lists with the same keys at every position find a key at the same
      position. */
  lemma {:induction false} SameKeysSameIndex(es: seq<Enrollment>, es': seq<Enrollment>, id: nat)
    requires |es| == |es'| && forall j :: 0 <= j < |es| ==> es[j].id == es'[j].id
    ensures EnrollmentIndex(es', id) == EnrollmentIndex(es, id)
    decreases |es|
  {
    if es != [] && es[0].id != id {
      SameKeysSameIndex(es[1..], es'[1..], id);
    }
  }

  /** "Actualizar" on the database. */
  method UpdateEnrollment(db: Database, id: nat, ed: Edit, now: Stamp, user: string)
    modifies db
    ensures db.Snapshot() == UpdateEnrollmentSpec(old(db.Snapshot()), id, ed, now, user)
  {
    var i := EnrollmentIndex(db.enrollments, id);
    if i >= 0 {
      var e := db.enrollments[i];
      var cur := e;
      if ed.status != e.status {
        LogChange(db, now, StatusArgs(e, ed.status, user));
        cur := cur.(status := ed.status);
      }
      if Some(ed.grade) != e.grade {
        LogChange(db, now, GradeArgs(e, ed.grade, user));
        cur := cur.(grade := Some(ed.grade));
      }
      if ed.status == Completed {
        cur := cur.(fechaEstado := Some(now));
      }
      db.enrollments := db.enrollments[i := cur];
    }
  }

  // ---------------------------------------------------------------------
  // summary

  predicate IsCompleted(e: Enrollment) {
    e.status == Completed
  }

  /** The grade a comprehension over `nota_numerica` adds: a NULL grade is
      skipped, which adds nothing. */
  function GradeOf(e: Enrollment): real {
    if e.grade.Some? then e.grade.value else 0.0
  }

  /** `sum(e.nota_numerica for e in enrollments if e.nota_numerica)`. */
  function GradeSum(es: seq<Enrollment>): real
    decreases |es|
  {
    if es == [] then 0.0 else GradeSum(es[..|es| - 1]) + GradeOf(es[|es| - 1])
  }

  /** The sum of the grades of the completed enrollments only. */
  function CompletedGradeSum(es: seq<Enrollment>): real
    decreases |es|
  {
    if es == [] then 0.0
    else CompletedGradeSum(es[..|es| - 1]) + (if IsCompleted(es[|es| - 1]) then GradeOf(es[|es| - 1]) else 0.0)
  }

  function CompletedCount(es: seq<Enrollment>): nat {
    Seqs.Count(es, IsCompleted)
  }

  /** "Promedio" as written: the grades of all the student's enrollments,
      whatever their status, divided by the number of completed ones;
      "N/A" (`None`) when none is completed. */
  function PromedioAsWritten(es: seq<Enrollment>): (r: Option<real>)
    ensures r.None? <==> CompletedCount(es) == 0
  {
    var c := CompletedCount(es);
    if c > 0 then Some(GradeSum(es) / c as real) else None
  }

  /** "Promedio" as intended: the mean grade of the completed enrollments. */
  function Promedio(es: seq<Enrollment>): (r: Option<real>)
    ensures r.None? <==> CompletedCount(es) == 0
  {
    var c := CompletedCount(es);
    if c > 0 then Some(CompletedGradeSum(es) / c as real) else None
  }

  /** One completed course graded 80 and one failed course graded 40: the
      page shows 120, more than any grade the student completed with. */
  lemma PromedioAsWrittenOverstates(a: Enrollment, b: Enrollment)
    requires a.status == Completed && a.grade == Some(80.0)
    requires b.status == Status.Failed && b.grade == Some(40.0)
    ensures PromedioAsWritten([a, b]) == Some(120.0)
    ensures Promedio([a, b]) == Some(80.0)
  {
    PairCounts(a, b);
    PairSums(a, b);
  }

  lemma PairCounts(a: Enrollment, b: Enrollment)
    requires IsCompleted(a) && !IsCompleted(b)
    ensures CompletedCount([a, b]) == 1
  {
    assert [] + [a] == [a] && [a] + [b] == [a, b];
    Seqs.FilterAppend([], a, IsCompleted);
    Seqs.FilterAppend([a], b, IsCompleted);
  }

  lemma PairSums(a: Enrollment, b: Enrollment)
    requires IsCompleted(a) && !IsCompleted(b)
    ensures GradeSum([a, b]) == GradeOf(a) + GradeOf(b)
    ensures CompletedGradeSum([a, b]) == GradeOf(a)
  {
    assert [a, b][..1] == [a] && [a][..0] == [];
    assert GradeSum([a]) == GradeOf(a);
    assert CompletedGradeSum([a]) == GradeOf(a);
  }

  /** `n` copies of `x` added up. */
  function Times(x: real, n: nat): real
    decreases n
  {
    if n == 0 then 0.0 else Times(x, n - 1) + x
  }

  lemma {:induction false} TimesIsProduct(x: real, n: nat)
    ensures Times(x, n) == x * n as real
    decreases n
  {
    if n > 0 {
      TimesIsProduct(x, n - 1);
      assert x * n as real == x * (n - 1) as real + x;
    }
  }

  /** The completed grades stay within bounds that hold for each of them. */
  lemma {:induction false} CompletedSumBounds(es: seq<Enrollment>, lo: real, hi: real)
    requires forall j :: 0 <= j < |es| && IsCompleted(es[j]) ==> lo <= GradeOf(es[j]) <= hi
    ensures Times(lo, CompletedCount(es)) <= CompletedGradeSum(es) <= Times(hi, CompletedCount(es))
    decreases |es|
  {
    if es != [] {
      var init := es[..|es| - 1];
      var x := es[|es| - 1];
      assert forall j :: 0 <= j < |init| ==> init[j] == es[j];
      CompletedSumBounds(init, lo, hi);
      CompletedCountStep(es);
      var c := CompletedCount(init);
      if IsCompleted(x) {
        assert CompletedCount(es) == c + 1;
        assert Times(lo, c + 1) == Times(lo, c) + lo;
        assert Times(hi, c + 1) == Times(hi, c) + hi;
      } else {
        assert CompletedCount(es) == c;
      }
    }
  }

  lemma CompletedCountStep(es: seq<Enrollment>)
    requires es != []
    ensures CompletedCount(es) == CompletedCount(es[..|es| - 1]) + if IsCompleted(es[|es| - 1]) then 1 else 0
  {
    assert es == es[..|es| - 1] + [es[|es| - 1]];
    Seqs.FilterAppend(es[..|es| - 1], es[|es| - 1], IsCompleted);
  }

  /** When every completed enrollment has a grade between `lo` and `hi`,
      so does the intended average. */
  lemma PromedioWithinGrades(es: seq<Enrollment>, lo: real, hi: real)
    requires forall j :: 0 <= j < |es| && IsCompleted(es[j]) ==> lo <= GradeOf(es[j]) <= hi
    requires CompletedCount(es) > 0
    ensures lo <= Promedio(es).value <= hi
  {
    CompletedSumBounds(es, lo, hi);
    TimesIsProduct(lo, CompletedCount(es));
    TimesIsProduct(hi, CompletedCount(es));
    DivBounds(CompletedGradeSum(es), CompletedCount(es) as real, lo, hi);
  }

  lemma DivBounds(s: real, c: real, lo: real, hi: real)
    requires c > 0.0 && lo * c <= s <= hi * c
    ensures lo <= s / c <= hi
  {
  }

  /** One row of "Resumen de Inscripciones". */
  datatype StatsRow = StatsRow(estudiante: string, total: nat, completadas: nat, promedio: Option<real>)

  function EnrollmentsOf(t: Tables, sid: nat): seq<Enrollment> {
    Seqs.Filter(t.enrollments, (e: Enrollment) => e.studentId == sid)
  }

  /** The row of one student: the name, the number of enrollments, the
      number of completed ones and, with the intended average, the mean grade
      of the completed ones. */
  function StatsRowOf(t: Tables, s: Student): (r: StatsRow)
    ensures r.completadas <= r.total == |EnrollmentsOf(t, s.id)|
    ensures r.promedio.None? <==> r.completadas == 0
    ensures r.completadas == Seqs.Count(EnrollmentsOf(t, s.id), IsCompleted)
    ensures r.promedio.Some? ==> r.promedio.value == CompletedGradeSum(EnrollmentsOf(t, s.id)) / r.completadas as real
  {
    var es := EnrollmentsOf(t, s.id);
    StatsRow(s.nombre + " " + s.apellido, |es|, CompletedCount(es), Promedio(es))
  }

  /** When every completed enrollment of the student is graded between `lo`
      and `hi`, the average the row shows lies between them too. */
  lemma StatsRowWithinGrades(t: Tables, s: Student, lo: real, hi: real)
    requires forall e :: e in t.enrollments && e.studentId == s.id && IsCompleted(e) ==> lo <= GradeOf(e) <= hi
    ensures StatsRowOf(t, s).promedio.Some? ==> lo <= StatsRowOf(t, s).promedio.value <= hi
  {
    var es := EnrollmentsOf(t, s.id);
    if CompletedCount(es) > 0 {
      forall j | 0 <= j < |es| && IsCompleted(es[j]) ensures lo <= GradeOf(es[j]) <= hi {
        assert es[j] in multiset(es);
        Seqs.FilterMultiset(t.enrollments, (e: Enrollment) => e.studentId == s.id, es[j]);
      }
      PromedioWithinGrades(es, lo, hi);
    }
  }

  /** The rows for the listed students, in order. */
  function StatsRows(t: Tables, ss: seq<Student>): (rs: seq<StatsRow>)
    ensures |rs| == |ss|
    ensures forall k :: 0 <= k < |ss| ==> rs[k] == StatsRowOf(t, ss[k])
  {
    seq(|ss|, k requires 0 <= k < |ss| => StatsRowOf(t, ss[k]))
  }

  /** The summary loop: one row per student, in table order. */
  method Stats(t: Tables) returns (rows: seq<StatsRow>)
    ensures rows == StatsRows(t, t.students)
  {
    rows := [];
    for k := 0 to |t.students|
      invariant |rows| == k
      invariant forall j :: 0 <= j < k ==> rows[j] == StatsRowOf(t, t.students[j])
    {
      rows := rows + [StatsRowOf(t, t.students[k])];
    }
  }
}
