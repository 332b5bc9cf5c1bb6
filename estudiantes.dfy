/**
 * The student page (pages/02_Estudiantes.py): the field-by-field update
 * with one log entry per changed field, the delete, the guarded manual
 * creation, and the bulk import of a student file.
 */
module Estudiantes {
  import opened Wrappers
  import opened Dates
  import opened Text
  import opened Models
  import opened Helpers
  import Seqs

  /** `session.get(Student, id)`: the position of the student with that key. */
  function IndexOf(ss: seq<Student>, id: nat): (i: int)
    ensures -1 <= i < |ss|
    ensures i >= 0 ==> ss[i].id == id && forall j :: 0 <= j < i ==> ss[j].id != id
    ensures i < 0 ==> forall j :: 0 <= j < |ss| ==> ss[j].id != id
    decreases |ss|
  {
    if ss == [] then -1
    else if ss[0].id == id then 0
    else
      var r := IndexOf(ss[1..], id);
      if r < 0 then -1 else r + 1
  }

  /** Some student other than the one at position `i` has this email. */
  predicate EmailTakenBesides(ss: seq<Student>, i: int, email: string) {
    exists j :: 0 <= j < |ss| && j != i && ss[j].email == email
  }

  // ---------------------------------------------------------------------
  // update

  /** The values of the edit form; programa comes from a select box and
      cohorte from a text box, so both are always strings. */
  datatype Form = Form(nombre: string, apellido: string, email: string, programa: string, cohorte: string)

  /** One logged field change: its name, the old value and the new one. */
  datatype Change = Change(campo: string, anterior: Option<string>, nuevo: string)

  /** The form's values on the student. */
  function Apply(s: Student, f: Form): Student {
    s.(nombre := f.nombre, apellido := f.apellido, email := f.email,
       programa := Some(f.programa), cohorte := Some(f.cohorte))
  }

  /** The change of field `n` of the form, in the page's order nombre,
      apellido, email, programa, cohorte; empty when the field is unchanged.
      The stored programa and cohorte may be NULL, which differs from every
      form value. */
  function FieldChange(s: Student, f: Form, n: nat): seq<Change> {
    if n == 0 then (if s.nombre != f.nombre then [Change("nombre", Some(s.nombre), f.nombre)] else [])
    else if n == 1 then (if s.apellido != f.apellido then [Change("apellido", Some(s.apellido), f.apellido)] else [])
    else if n == 2 then (if s.email != f.email then [Change("email", Some(s.email), f.email)] else [])
    else if n == 3 then (if s.programa != Some(f.programa) then [Change("programa", s.programa, f.programa)] else [])
    else if n == 4 then (if s.cohorte != Some(f.cohorte) then [Change("cohorte", s.cohorte, f.cohorte)] else [])
    else []
  }

  /** The changes of the first `k` fields. */
  function ChangesUpTo(s: Student, f: Form, k: nat): seq<Change>
    decreases k
  {
    if k == 0 then [] else ChangesUpTo(s, f, k - 1) + FieldChange(s, f, k - 1)
  }

  /** The changes the update logs, in the page's field order. */
  function Changes(s: Student, f: Form): seq<Change> {
    ChangesUpTo(s, f, 5)
  }

  predicate Logs(cs: seq<Change>, campo: string) {
    exists k :: 0 <= k < |cs| && cs[k].campo == campo
  }

  lemma LogsAppend(a: seq<Change>, b: seq<Change>, campo: string)
    ensures Logs(a + b, campo) <==> Logs(a, campo) || Logs(b, campo)
  {
    if Logs(a, campo) {
      var k :| 0 <= k < |a| && a[k].campo == campo;
      assert (a + b)[k].campo == campo;
    }
    if Logs(a + b, campo) {
      var k :| 0 <= k < |a + b| && (a + b)[k].campo == campo;
      if k >= |a| {
        assert b[k - |a|].campo == campo;
      }
    }
    if Logs(b, campo) {
      var k :| 0 <= k < |b| && b[k].campo == campo;
      assert (a + b)[|a| + k].campo == campo;
    }
  }

  /** Field `n` is logged under its own name only, exactly when it changes. */
  lemma FieldChangeLogs(s: Student, f: Form, n: nat, campo: string)
    ensures Logs(FieldChange(s, f, n), campo) <==>
      (n == 0 && campo == "nombre" && s.nombre != f.nombre)
      || (n == 1 && campo == "apellido" && s.apellido != f.apellido)
      || (n == 2 && campo == "email" && s.email != f.email)
      || (n == 3 && campo == "programa" && s.programa != Some(f.programa))
      || (n == 4 && campo == "cohorte" && s.cohorte != Some(f.cohorte))
  {
    var c := FieldChange(s, f, n);
    if c != [] {
      assert |c| == 1 && Logs(c, c[0].campo);
    }
  }

  /** A field is logged exactly when the form changes it; nothing is logged
      exactly when the form changes nothing. */
  lemma ChangesExact(s: Student, f: Form, campo: string)
    ensures var cs := Changes(s, f);
      (Logs(cs, campo) <==>
        (campo == "nombre" && s.nombre != f.nombre)
        || (campo == "apellido" && s.apellido != f.apellido)
        || (campo == "email" && s.email != f.email)
        || (campo == "programa" && s.programa != Some(f.programa))
        || (campo == "cohorte" && s.cohorte != Some(f.cohorte)))
      && |cs| <= 5
      && (cs == [] <==> Apply(s, f) == s)
  {
    var k := 0;
    while k < 5
      invariant k <= 5
      invariant |ChangesUpTo(s, f, k)| <= k
      invariant Logs(ChangesUpTo(s, f, k), campo) <==> exists n :: 0 <= n < k && Logs(FieldChange(s, f, n), campo)
    {
      LogsAppend(ChangesUpTo(s, f, k), FieldChange(s, f, k), campo);
      k := k + 1;
    }
    forall n | 0 <= n < 5 {
      FieldChangeLogs(s, f, n, campo);
    }
    if Logs(Changes(s, f), campo) {
      var n :| 0 <= n < 5 && Logs(FieldChange(s, f, n), campo);
      FieldChangeLogs(s, f, n, campo);
    }
  }

  function ChangeArgs(id: nat, c: Change, user: string): LogArgs {
    LogArgs("Student", NatToString(id), Some(c.campo), if c.anterior.Some? then Some(Txt(c.anterior.value)) else None,
      Some(Txt(c.nuevo)), None, Some(user))
  }

  /** One log entry per change, in order. */
  function LogChanges(t: Tables, now: Stamp, id: nat, cs: seq<Change>, user: string): Tables
    decreases |cs|
  {
    if cs == [] then t else Logged(LogChanges(t, now, id, cs[..|cs| - 1], user), now, ChangeArgs(id, cs[|cs| - 1], user))
  }

  lemma {:induction false} LogChangesShape(t: Tables, now: Stamp, id: nat, cs: seq<Change>, user: string)
    ensures LogChanges(t, now, id, cs, user).(logs := t.logs) == t
    ensures |LogChanges(t, now, id, cs, user).logs| == |t.logs| + |cs|
    ensures LogChanges(t, now, id, cs, user).logs[..|t.logs|] == t.logs
    decreases |cs|
  {
    if cs != [] {
      var t1 := LogChanges(t, now, id, cs[..|cs| - 1], user);
      LogChangesShape(t, now, id, cs[..|cs| - 1], user);
      LoggedAppendsOne(t1, now, ChangeArgs(id, cs[|cs| - 1], user));
    }
  }

  /** "Actualizar Estudiante": the logs are written first, each in its own
      commit; the field changes then commit unless the new email belongs to
      another student, which the unique key refuses. An unknown id changes
      nothing. */
  function UpdateSpec(t: Tables, id: nat, f: Form, now: Stamp, user: string): (r: Tables)
    ensures IndexOf(t.students, id) < 0 ==> r == t
    ensures IndexOf(t.students, id) >= 0 ==> |r.logs| == |t.logs| + |Changes(t.students[IndexOf(t.students, id)], f)|
    ensures |r.students| == |t.students| && r.plans == t.plans && r.enrollments == t.enrollments
  {
    var i := IndexOf(t.students, id);
    if i < 0 then t
    else
      LogChangesShape(t, now, id, Changes(t.students[i], f), user);
      var t1 := LogChanges(t, now, id, Changes(t.students[i], f), user);
      if EmailTakenBesides(t.students, i, f.email) then t1
      else t1.(students := t.students[i := Apply(t.students[i], f)])
  }

  /** The update logs one entry per changed field and, when it commits,
      gives the student exactly the form's values and keeps every other
      student and the email uniqueness. */
  lemma UpdateEffect(t: Tables, id: nat, f: Form, now: Stamp, user: string)
    requires IndexOf(t.students, id) >= 0
    ensures var i := IndexOf(t.students, id);
      var t' := UpdateSpec(t, id, f, now, user);
      |t'.logs| == |t.logs| + |Changes(t.students[i], f)|
      && t'.logs[..|t.logs|] == t.logs
      && |t'.students| == |t.students|
      && (forall j :: 0 <= j < |t.students| && j != i ==> t'.students[j] == t.students[j])
      && (t'.students[i] == Apply(t.students[i], f) <==> !EmailTakenBesides(t.students, i, f.email) || Apply(t.students[i], f) == t.students[i])
      && (EmailsUnique(t.students) ==> EmailsUnique(t'.students))
      && t'.plans == t.plans && t'.enrollments == t.enrollments
  {
    var i := IndexOf(t.students, id);
    var s := t.students[i];
    LogChangesShape(t, now, id, Changes(s, f), user);
  }

  /** Saving the same form a second time logs nothing and changes nothing. */
  lemma UpdateTwiceIsOnce(t: Tables, id: nat, f: Form, now: Stamp, now2: Stamp, user: string)
    requires IndexOf(t.students, id) >= 0
    requires !EmailTakenBesides(t.students, IndexOf(t.students, id), f.email)
    ensures var t' := UpdateSpec(t, id, f, now, user);
      UpdateSpec(t', id, f, now2, user) == t'
  {
    var i := IndexOf(t.students, id);
    var s := t.students[i];
    LogChangesShape(t, now, id, Changes(s, f), user);
    var a := Apply(s, f);
    var t' := UpdateSpec(t, id, f, now, user);
    assert t'.students == t.students[i := a];
    KeysKeepIndex(t.students, t'.students, i, id);
    ApplyTwice(s, f);
    assert LogChanges(t', now2, id, Changes(a, f), user) == t';
    EmailTakenAfterReplace(t.students, i, a, f.email);
    assert t'.students[i := Apply(a, f)] == t'.students;
  }

  /** A student already holding the form's values has nothing to change. */
  lemma ApplyTwice(s: Student, f: Form)
    ensures Changes(Apply(s, f), f) == [] && Apply(Apply(s, f), f) == Apply(s, f)
  {
    ChangesExact(Apply(s, f), f, "");
  }

  /** Replacing student `i` leaves the other students' emails as they were. */
  lemma EmailTakenAfterReplace(ss: seq<Student>, i: nat, a: Student, email: string)
    requires i < |ss|
    ensures EmailTakenBesides(ss[i := a], i, email) == EmailTakenBesides(ss, i, email)
  {
    if EmailTakenBesides(ss, i, email) {
      var j :| 0 <= j < |ss| && j != i && ss[j].email == email;
      assert ss[i := a][j] == ss[j];
    }
  }

  /** Replacing one student by a record with the same key keeps the position
      of every key. */
  lemma KeysKeepIndex(ss: seq<Student>, ss': seq<Student>, i: nat, id: nat)
    requires i < |ss| == |ss'| && IndexOf(ss, id) == i
    requires forall j :: 0 <= j < |ss| && j != i ==> ss'[j] == ss[j]
    requires ss'[i].id == id
    ensures IndexOf(ss', id) == i
  {
  }

  /** The update as the page performs it on the database. */
  method UpdateStudent(db: Database, id: nat, f: Form, now: Stamp, user: string)
    modifies db
    ensures db.Snapshot() == UpdateSpec(old(db.Snapshot()), id, f, now, user)
  {
    ghost var t0 := db.Snapshot();
    var i := IndexOf(db.students, id);
    if i >= 0 {
      var s := UpdateFields(db, id, db.students[i], f, now, user);
      LogChangesShape(t0, now, id, Changes(t0.students[i], f), user);
      var taken := exists j :: 0 <= j < |db.students| && j != i && db.students[j].email == f.email;
      if !taken {
        db.students := db.students[i := s];
      }
    }
  }

  /** The field-by-field part: log and set each field the form changes. */
  method UpdateFields(db: Database, id: nat, s0: Student, f: Form, now: Stamp, user: string) returns (s: Student)
    modifies db
    ensures s == Apply(s0, f)
    ensures db.Snapshot() == LogChanges(old(db.Snapshot()), now, id, Changes(s0, f), user)
  {
    ghost var t0 := db.Snapshot();
    s := UpdateNames(db, t0, id, s0, f, now, user);
    s := UpdateEmail(db, t0, id, s0, s, f, now, user);
    s := UpdateStudies(db, t0, id, s0, s, f, now, user);
  }

  /** The nombre and apellido steps. */
  method UpdateNames(db: Database, ghost t0: Tables, id: nat, s0: Student, f: Form, now: Stamp, user: string) returns (s: Student)
    requires db.Snapshot() == t0
    modifies db
    ensures s == s0.(nombre := f.nombre, apellido := f.apellido)
    ensures db.Snapshot() == LogChanges(t0, now, id, ChangesUpTo(s0, f, 2), user)
  {
    s := s0;
    ChangesStep(s0, f, 0);
    if s.nombre != f.nombre {
      LogStep(db, t0, id, ChangesUpTo(s0, f, 0), Change("nombre", Some(s.nombre), f.nombre), now, user);
      assert ChangesUpTo(s0, f, 0) + [Change("nombre", Some(s.nombre), f.nombre)] == ChangesUpTo(s0, f, 1);
      s := s.(nombre := f.nombre);
    } else {
      assert ChangesUpTo(s0, f, 1) == ChangesUpTo(s0, f, 0);
    }
    ChangesStep(s0, f, 1);
    if s.apellido != f.apellido {
      LogStep(db, t0, id, ChangesUpTo(s0, f, 1), Change("apellido", Some(s.apellido), f.apellido), now, user);
      assert ChangesUpTo(s0, f, 1) + [Change("apellido", Some(s.apellido), f.apellido)] == ChangesUpTo(s0, f, 2);
      s := s.(apellido := f.apellido);
    } else {
      assert ChangesUpTo(s0, f, 2) == ChangesUpTo(s0, f, 1);
    }
  }

  /** The email step. */
  method UpdateEmail(db: Database, ghost t0: Tables, id: nat, s0: Student, s1: Student, f: Form, now: Stamp, user: string)
    returns (s: Student)
    requires s1 == s0.(nombre := f.nombre, apellido := f.apellido)
    requires db.Snapshot() == LogChanges(t0, now, id, ChangesUpTo(s0, f, 2), user)
    modifies db
    ensures s == s0.(nombre := f.nombre, apellido := f.apellido, email := f.email)
    ensures db.Snapshot() == LogChanges(t0, now, id, ChangesUpTo(s0, f, 3), user)
  {
    s := s1;
    ChangesStep(s0, f, 2);
    if s.email != f.email {
      LogStep(db, t0, id, ChangesUpTo(s0, f, 2), Change("email", Some(s.email), f.email), now, user);
      assert ChangesUpTo(s0, f, 2) + [Change("email", Some(s.email), f.email)] == ChangesUpTo(s0, f, 3);
      s := s.(email := f.email);
    } else {
      assert ChangesUpTo(s0, f, 3) == ChangesUpTo(s0, f, 2);
    }
  }

  /** The programa and cohorte steps. */
  method UpdateStudies(db: Database, ghost t0: Tables, id: nat, s0: Student, s1: Student, f: Form, now: Stamp, user: string)
    returns (s: Student)
    requires s1 == s0.(nombre := f.nombre, apellido := f.apellido, email := f.email)
    requires db.Snapshot() == LogChanges(t0, now, id, ChangesUpTo(s0, f, 3), user)
    modifies db
    ensures s == Apply(s0, f)
    ensures db.Snapshot() == LogChanges(t0, now, id, ChangesUpTo(s0, f, 5), user)
  {
    s := s1;
    ChangesStep(s0, f, 3);
    if s.programa != Some(f.programa) {
      LogStep(db, t0, id, ChangesUpTo(s0, f, 3), Change("programa", s.programa, f.programa), now, user);
      assert ChangesUpTo(s0, f, 3) + [Change("programa", s.programa, f.programa)] == ChangesUpTo(s0, f, 4);
      s := s.(programa := Some(f.programa));
    } else {
      assert ChangesUpTo(s0, f, 4) == ChangesUpTo(s0, f, 3);
    }
    ChangesStep(s0, f, 4);
    if s.cohorte != Some(f.cohorte) {
      LogStep(db, t0, id, ChangesUpTo(s0, f, 4), Change("cohorte", s.cohorte, f.cohorte), now, user);
      assert ChangesUpTo(s0, f, 4) + [Change("cohorte", s.cohorte, f.cohorte)] == ChangesUpTo(s0, f, 5);
      s := s.(cohorte := Some(f.cohorte));
    } else {
      assert ChangesUpTo(s0, f, 5) == ChangesUpTo(s0, f, 4);
    }
  }

  lemma ChangesStep(s: Student, f: Form, k: nat)
    ensures ChangesUpTo(s, f, k + 1) == ChangesUpTo(s, f, k) + FieldChange(s, f, k)
  {
  }

  /** Logs one more change: the database goes from the log of `cs` to the
      log of `cs + [c]`. */
  method LogStep(db: Database, ghost t0: Tables, id: nat, ghost cs: seq<Change>, c: Change, now: Stamp, user: string)
    requires db.Snapshot() == LogChanges(t0, now, id, cs, user)
    modifies db
    ensures db.Snapshot() == LogChanges(t0, now, id, cs + [c], user)
  {
    assert (cs + [c])[..|cs|] == cs;
    LogChange(db, now, ChangeArgs(id, c, user));
  }

  // ---------------------------------------------------------------------
  // delete

  function DeleteArgs(id: nat, user: string): LogArgs {
    LogArgs("Student", NatToString(id), Some("status"), Some(Txt("activo")), Some(Txt("eliminado")), Some("Soft delete"), Some(user))
  }

  predicate HasPlansOrEnrollments(t: Tables, id: nat) {
    (exists j :: 0 <= j < |t.plans| && t.plans[j].studentId == id)
    || (exists j :: 0 <= j < |t.enrollments| && t.enrollments[j].studentId == id)
  }

  function WithoutStudent(ss: seq<Student>, id: nat): seq<Student> {
    if ss == [] then []
    else WithoutStudent(ss[..|ss| - 1], id) + (if ss[|ss| - 1].id == id then [] else [ss[|ss| - 1]])
  }

  /** `meeting.student_id = NULL` for the student's meetings. */
  function Orphaned(ms: seq<Meeting>, id: nat): (r: seq<Meeting>)
    ensures |r| == |ms|
  {
    seq(|ms|, i requires 0 <= i < |ms| => if ms[i].studentId == Some(id) then ms[i].(studentId := None) else ms[i])
  }

  /** The delete as written: the log entry commits first; then deleting the
      student through the ORM sets the `student_id` of its loaded plans and
      enrollments to NULL, which their NOT NULL columns refuse, so for such
      a student the commit fails and only the log entry remains. */
  function DeleteAsWritten(t: Tables, id: nat, now: Stamp, user: string): (r: Tables)
    ensures IndexOf(t.students, id) < 0 ==> r == t
    ensures IndexOf(t.students, id) >= 0 ==> |r.logs| == |t.logs| + 1
    ensures HasPlansOrEnrollments(t, id) ==> r.students == t.students
    ensures r.plans == t.plans && r.items == t.items && r.enrollments == t.enrollments
  {
    if IndexOf(t.students, id) < 0 then t
    else
      var t1 := Logged(t, now, DeleteArgs(id, user));
      if HasPlansOrEnrollments(t, id) then t1
      else t1.(students := WithoutStudent(t.students, id), meetings := Orphaned(t.meetings, id))
  }

  /** As written, a student with a plan is still there after "Eliminar",
      while the log already says "eliminado". */
  lemma DeleteAsWrittenKeepsStudent(t: Tables, id: nat, now: Stamp, user: string, j: nat)
    requires IndexOf(t.students, id) >= 0
    requires j < |t.plans| && t.plans[j].studentId == id
    ensures DeleteAsWritten(t, id, now, user).students == t.students
    ensures var logs := DeleteAsWritten(t, id, now, user).logs;
      |logs| == |t.logs| + 1 && logs[|logs| - 1].nuevo == Some(Txt("eliminado"))
  {
  }

  /** The delete the foreign keys declare (`ondelete="CASCADE"` for plans,
      their items and enrollments, `SET NULL` for meetings). */
  function DeleteCascade(t: Tables, id: nat, now: Stamp, user: string): Tables {
    if IndexOf(t.students, id) < 0 then t
    else
      var t1 := Logged(t, now, DeleteArgs(id, user));
      var gonePlans := set p | p in t.plans && p.studentId == id :: p.id;
      t1.(students := WithoutStudent(t.students, id),
          meetings := Orphaned(t.meetings, id),
          plans := Seqs.Filter(t.plans, (p: PlanVersion) => p.studentId != id),
          items := Seqs.Filter(t.items, (i: PlanItem) => i.planId !in gonePlans),
          enrollments := Seqs.Filter(t.enrollments, (e: Enrollment) => e.studentId != id))
  }

  lemma {:induction false} WithoutStudentExact(ss: seq<Student>, id: nat, x: Student)
    ensures x in WithoutStudent(ss, id) <==> x in ss && x.id != id
    decreases |ss|
  {
    if ss != [] {
      WithoutStudentExact(ss[..|ss| - 1], id, x);
      assert ss == ss[..|ss| - 1] + [ss[|ss| - 1]];
    }
  }

  lemma StillStudent(ss: seq<Student>, id: nat, other: nat)
    requires other != id
    requires exists i :: 0 <= i < |ss| && ss[i].id == other
    ensures exists i :: 0 <= i < |WithoutStudent(ss, id)| && WithoutStudent(ss, id)[i].id == other
  {
    var i :| 0 <= i < |ss| && ss[i].id == other;
    WithoutStudentExact(ss, id, ss[i]);
  }

  /** The intended delete removes the student, its plans and its
      enrollments. */
  lemma DeleteCascadeRemoves(t: Tables, id: nat, now: Stamp, user: string)
    requires IndexOf(t.students, id) >= 0
    ensures var t' := DeleteCascade(t, id, now, user);
      (forall j :: 0 <= j < |t'.students| ==> t'.students[j].id != id)
      && (forall j :: 0 <= j < |t'.plans| ==> t'.plans[j].studentId != id)
      && (forall j :: 0 <= j < |t'.enrollments| ==> t'.enrollments[j].studentId != id)
  {
    var t' := DeleteCascade(t, id, now, user);
    forall j | 0 <= j < |t'.students| ensures t'.students[j].id != id {
      WithoutStudentExact(t.students, id, t'.students[j]);
    }
  }

  /** What the cascade keeps: the other students, the plans and enrollments
      of other students, the items of the plans that remain, every meeting
      with the student's reference cleared, and the catalog. */
  ghost predicate CascadeOf(t: Tables, t': Tables, id: nat) {
    (forall x :: x in t'.students <==> x in t.students && x.id != id)
    && (forall p :: p in t'.plans <==> p in t.plans && p.studentId != id)
    && (forall e :: e in t'.enrollments <==> e in t.enrollments && e.studentId != id)
    && (forall it :: it in t'.items ==>
          (it in t.items && forall k :: 0 <= k < |t.plans| && t.plans[k].id == it.planId ==> t.plans[k].studentId != id))
    && |t'.meetings| == |t.meetings|
    && (forall j :: 0 <= j < |t.meetings| ==>
          (t'.meetings[j].studentId == if t.meetings[j].studentId == Some(id) then None else t.meetings[j].studentId))
    && t'.courses == t.courses && t'.sources == t.sources
  }

  /** The intended delete is such a cascade. */
  lemma DeleteCascadeIsCascade(t: Tables, id: nat, now: Stamp, user: string)
    requires IndexOf(t.students, id) >= 0
    ensures CascadeOf(t, DeleteCascade(t, id, now, user), id)
  {
    var t' := DeleteCascade(t, id, now, user);
    var gonePlans := set p | p in t.plans && p.studentId == id :: p.id;
    var keepPlan := (p: PlanVersion) => p.studentId != id;
    var keepItem := (i: PlanItem) => i.planId !in gonePlans;
    var keepEnrollment := (e: Enrollment) => e.studentId != id;
    assert t'.plans == Seqs.Filter(t.plans, keepPlan);
    assert t'.items == Seqs.Filter(t.items, keepItem);
    assert t'.enrollments == Seqs.Filter(t.enrollments, keepEnrollment);
    forall x ensures x in t'.students <==> x in t.students && x.id != id {
      WithoutStudentExact(t.students, id, x);
    }
    forall p ensures p in t'.plans <==> p in t.plans && p.studentId != id {
      Seqs.FilterMember(t.plans, keepPlan, p);
    }
    forall e ensures e in t'.enrollments <==> e in t.enrollments && e.studentId != id {
      Seqs.FilterMember(t.enrollments, keepEnrollment, e);
    }
    forall it | it in t'.items
      ensures forall k :: 0 <= k < |t.plans| && t.plans[k].id == it.planId ==> t.plans[k].studentId != id
    {
      Seqs.FilterMember(t.items, keepItem, it);
      forall k | 0 <= k < |t.plans| && t.plans[k].id == it.planId ensures t.plans[k].studentId != id {
        assert t.plans[k] in t.plans;
      }
    }
  }

  /** A cascade keeps every foreign key of the remaining rows satisfied. */
  lemma CascadeKeepsReferences(t: Tables, t': Tables, id: nat)
    requires References(t) && CascadeOf(t, t', id)
    ensures References(t')
  {
    forall j | 0 <= j < |t'.plans| ensures IsStudent(t', t'.plans[j].studentId) {
      var p := t'.plans[j];
      var k :| 0 <= k < |t.plans| && t.plans[k] == p;
      KeptStudent(t, t', id, p.studentId);
    }
    forall j | 0 <= j < |t'.enrollments| ensures IsStudent(t', t'.enrollments[j].studentId) {
      var e := t'.enrollments[j];
      assert e in t'.enrollments;
      var k :| 0 <= k < |t.enrollments| && t.enrollments[k] == e;
      KeptStudent(t, t', id, e.studentId);
    }
    forall j | 0 <= j < |t'.meetings| && t'.meetings[j].studentId.Some?
      ensures IsStudent(t', t'.meetings[j].studentId.value)
    {
      KeptStudent(t, t', id, t'.meetings[j].studentId.value);
    }
    CascadeKeepsItems(t, t', id);
  }

  lemma KeptStudent(t: Tables, t': Tables, id: nat, other: nat)
    requires CascadeOf(t, t', id)
    requires other != id && IsStudent(t, other)
    ensures IsStudent(t', other)
  {
    var i :| 0 <= i < |t.students| && t.students[i].id == other;
    var x := t.students[i];
    assert x in t'.students;
    var k :| 0 <= k < |t'.students| && t'.students[k] == x;
  }

  lemma CascadeKeepsItems(t: Tables, t': Tables, id: nat)
    requires References(t) && CascadeOf(t, t', id)
    ensures forall j :: 0 <= j < |t'.items| ==> IsPlan(t', t'.items[j].planId) && t'.items[j].courseId in t'.courses
  {
    forall j | 0 <= j < |t'.items| ensures IsPlan(t', t'.items[j].planId) {
      var it := t'.items[j];
      assert it in t'.items;
      var k :| 0 <= k < |t.items| && t.items[k] == it;
      var m :| 0 <= m < |t.plans| && t.plans[m].id == it.planId;
      assert t.plans[m] in t'.plans;
      var n :| 0 <= n < |t'.plans| && t'.plans[n] == t.plans[m];
    }
  }

  /** The intended delete keeps every foreign key of the remaining rows
      satisfied. */
  lemma DeleteCascadeKeepsReferences(t: Tables, id: nat, now: Stamp, user: string)
    requires References(t)
    requires IndexOf(t.students, id) >= 0
    ensures References(DeleteCascade(t, id, now, user))
  {
    DeleteCascadeIsCascade(t, id, now, user);
    CascadeKeepsReferences(t, DeleteCascade(t, id, now, user), id);
  }

  method DeleteStudent(db: Database, id: nat, now: Stamp, user: string)
    modifies db
    ensures db.Snapshot() == DeleteCascade(old(db.Snapshot()), id, now, user)
  {
    var t := db.Snapshot();
    if IndexOf(db.students, id) >= 0 {
      LogChange(db, now, DeleteArgs(id, user));
      var gonePlans := set p | p in t.plans && p.studentId == id :: p.id;
      db.students := WithoutStudent(t.students, id);
      db.meetings := Orphaned(t.meetings, id);
      db.plans := Seqs.Filter(t.plans, (p: PlanVersion) => p.studentId != id);
      db.items := Seqs.Filter(t.items, (i: PlanItem) => i.planId !in gonePlans);
      db.enrollments := Seqs.Filter(t.enrollments, (e: Enrollment) => e.studentId != id);
    }
  }

  // ---------------------------------------------------------------------
  // manual creation

  datatype CreateOutcome = Refused | Rejected | Created(student: Student)

  /** "Crear Estudiante": refused without nombre or email; the insert fails
      on an email in use; otherwise the student is added and logged. The
      cohorte text is stored as typed, even when empty. */
  function CreateSpec(t: Tables, f: Form, now: Stamp, user: string): (r: (CreateOutcome, Tables))
    ensures r.0.Refused? <==> f.nombre == "" || f.email == ""
    ensures r.0.Rejected? <==> f.nombre != "" && f.email != "" && EmailTakenBesides(t.students, -1, f.email)
    ensures !r.0.Created? ==> r.1 == t
    ensures r.0.Created? ==>
      r.1.students == t.students + [r.0.student] && |r.1.logs| == |t.logs| + 1
      && r.0.student.id !in StudentIds(t.students) && r.0.student.email == f.email && r.0.student.nombre == f.nombre
  {
    if f.nombre == "" || f.email == "" then (Refused, t)
    else if EmailTakenBesides(t.students, -1, f.email) then (Rejected, t)
    else
      var s := Student(NextId(StudentIds(t.students)), f.nombre, f.apellido, f.email, Some(f.programa), Some(f.cohorte), None);
      var t1 := t.(students := t.students + [s]);
      (Created(s), Logged(t1, now, LogArgs("Student", NatToString(s.id), Some("creacion"), None,
        Some(Txt("nuevo estudiante")), None, Some(user))))
  }

  /** A successful creation keeps emails unique. */
  lemma CreateKeepsEmailsUnique(t: Tables, f: Form, now: Stamp, user: string)
    requires EmailsUnique(t.students)
    ensures EmailsUnique(CreateSpec(t, f, now, user).1.students)
  {
    var r := CreateSpec(t, f, now, user);
    if r.0.Created? {
      var ss := r.1.students;
      forall i, j | 0 <= i < j < |ss| ensures ss[i].email != ss[j].email {
        if j == |t.students| {
          assert !EmailTakenBesides(t.students, -1, f.email);
          assert t.students[i].email != f.email;
        }
      }
    }
  }

  // ---------------------------------------------------------------------
  // bulk import

  /** A cell of the uploaded file: empty (NaN) or a value with its `str()`. */
  datatype Cell = Blank | Value(text: string)

  /** One row of the file, under lower-cased column names. */
  datatype FileRow = FileRow(email: Cell, nombre: Cell, apellido: Cell, programa: Cell)

  /** The stripped texts the loop works with. */
  datatype Fields = Fields(email: string, nombre: string, apellido: string, programa: string)

  /** `str(cell).strip()` as written: an empty cell is NaN, whose text is "nan". */
  function CellAsWritten(c: Cell): string {
    Strip(if c.Blank? then "nan" else c.text)
  }

  function FieldsAsWritten(r: FileRow): Fields {
    Fields(CellAsWritten(r.email), CellAsWritten(r.nombre), CellAsWritten(r.apellido), CellAsWritten(r.programa))
  }

  /** The reading the defaults of `row.get` evidently mean: an empty cell is
      the empty string, and an empty programa is "MBA". */
  function CellIntended(c: Cell, default: string): string {
    if c.Blank? then default else Strip(c.text)
  }

  function FieldsIntended(r: FileRow): Fields {
    Fields(CellIntended(r.email, ""), CellIntended(r.nombre, ""), CellIntended(r.apellido, ""), CellIntended(r.programa, "MBA"))
  }

  /** The importer's required columns. */
  const RequiredColumns: seq<string> := ["nombre", "apellido", "email", "programa"]

  /** The required columns absent from the file, compared in lower case, in
      the order of the list. */
  function MissingColumns(cols: seq<string>): (m: seq<string>)
    ensures forall k :: 0 <= k < |m| ==> m[k] in RequiredColumns
  {
    Seqs.Filter(RequiredColumns, (c: string) => c !in Lowered(cols))
  }

  function Lowered(cols: seq<string>): (ls: seq<string>)
    ensures |ls| == |cols|
    ensures forall j :: 0 <= j < |cols| ==> ls[j] == Lower(cols[j])
  {
    seq(|cols|, j requires 0 <= j < |cols| => Lower(cols[j]))
  }

  /** A required column is reported exactly when no column of the file
      matches it case-insensitively. */
  lemma MissingExact(cols: seq<string>, name: string)
    requires name in RequiredColumns
    ensures name in MissingColumns(cols) <==> forall j :: 0 <= j < |cols| ==> Lower(cols[j]) != name
  {
    Seqs.FilterMember(RequiredColumns, (c: string) => c !in Lowered(cols), name);
    if name in Lowered(cols) {
      var j :| 0 <= j < |cols| && Lowered(cols)[j] == name;
    }
    if exists j :: 0 <= j < |cols| && Lower(cols[j]) == name {
      var j :| 0 <= j < |cols| && Lower(cols[j]) == name;
      assert Lowered(cols)[j] == name;
    }
  }

  datatype RowError = EmptyField(row: nat) | EmailExists(row: nat, email: string)

  datatype ImportResult = ImportResult(t: Tables, created: nat, errors: seq<RowError>)

  predicate EmailInUse(ss: seq<Student>, email: string) {
    exists j :: 0 <= j < |ss| && ss[j].email == email
  }

  /** The student a row inserts. */
  function RowStudent(ss: seq<Student>, f: Fields): (s: Student)
    ensures s.id !in StudentIds(ss)
  {
    Student(NextId(StudentIds(ss)), f.nombre, f.apellido, f.email, Some(f.programa), None, None)
  }

  /** One iteration: an empty email or nombre is an error, so is an email in
      use (including one inserted by an earlier row, since each insert is
      flushed), otherwise the student is inserted. */
  function ImportRow(r: ImportResult, idx: nat, f: Fields): (r': ImportResult)
    ensures r'.created + |r'.errors| == r.created + |r.errors| + 1
    ensures r'.t.(students := r.t.students) == r.t
    ensures (f.email == "" || f.nombre == "") ==> r' == r.(errors := r.errors + [EmptyField(idx)])
    ensures f.email != "" && f.nombre != "" && EmailInUse(r.t.students, f.email)
            ==> r' == r.(errors := r.errors + [EmailExists(idx, f.email)])
    ensures f.email != "" && f.nombre != "" && !EmailInUse(r.t.students, f.email)
            ==> (r'.created == r.created + 1 && r'.errors == r.errors
                 && r'.t.students == r.t.students + [RowStudent(r.t.students, f)])
  {
    if f.email == "" || f.nombre == "" then r.(errors := r.errors + [EmptyField(idx)])
    else if EmailInUse(r.t.students, f.email) then r.(errors := r.errors + [EmailExists(idx, f.email)])
    else ImportResult(r.t.(students := r.t.students + [RowStudent(r.t.students, f)]), r.created + 1, r.errors)
  }

  /** The loop over the rows, one iteration per row in file order. */
  function ImportRun(t: Tables, rows: seq<Fields>): ImportResult
    decreases |rows|
  {
    if rows == [] then ImportResult(t, 0, [])
    else ImportRow(ImportRun(t, rows[..|rows| - 1]), |rows| - 1, rows[|rows| - 1])
  }

  /** Every row yields one insert or one error; only students are added,
      each with an email and a nombre, and emails stay unique. */
  lemma {:induction false} ImportAccounting(t: Tables, rows: seq<Fields>)
    ensures var r := ImportRun(t, rows);
      r.created + |r.errors| == |rows|
      && |r.t.students| == |t.students| + r.created
      && r.t.students[..|t.students|] == t.students
      && r.t.(students := t.students) == t
      && (forall j :: |t.students| <= j < |r.t.students| ==> r.t.students[j].email != "" && r.t.students[j].nombre != "")
      && (EmailsUnique(t.students) ==> EmailsUnique(r.t.students))
    decreases |rows|
  {
    if rows != [] {
      var r0 := ImportRun(t, rows[..|rows| - 1]);
      ImportAccounting(t, rows[..|rows| - 1]);
      var f := rows[|rows| - 1];
      if f.email != "" && f.nombre != "" && !EmailInUse(r0.t.students, f.email) {
        var ss := r0.t.students + [RowStudent(r0.t.students, f)];
        assert ss[..|t.students|] == r0.t.students[..|t.students|];
        if EmailsUnique(r0.t.students) {
          forall i, j | 0 <= i < j < |ss| ensures ss[i].email != ss[j].email {
            if j == |r0.t.students| {
              assert ss[i] == r0.t.students[i];
            }
          }
        }
      }
    }
  }

  lemma ImportOne(t: Tables, f: Fields)
    ensures ImportRun(t, [f]) == ImportRow(ImportResult(t, 0, []), 0, f)
  {
    assert [f][..0] == [];
  }

  /** A file that repeats an unused email imports it once and reports the
      second row as existing. */
  lemma SameEmailTwice(t: Tables, f: Fields)
    requires f.email != "" && f.nombre != "" && !EmailInUse(t.students, f.email)
    ensures ImportRun(t, [f, f]).created == 1
    ensures ImportRun(t, [f, f]).errors == [EmailExists(1, f.email)]
  {
    assert [f, f][..1] == [f];
    ImportOne(t, f);
    var r1 := ImportRun(t, [f]);
    assert r1.t.students == t.students + [RowStudent(t.students, f)];
    assert r1.t.students[|t.students|].email == f.email;
  }

  /** The import loop on the database. */
  method ImportStudents(db: Database, rows: seq<Fields>) returns (created: nat, errors: seq<RowError>)
    modifies db
    ensures ImportRun(old(db.Snapshot()), rows) == ImportResult(db.Snapshot(), created, errors)
  {
    ghost var t0 := db.Snapshot();
    created := 0;
    errors := [];
    for idx := 0 to |rows|
      invariant ImportRun(t0, rows[..idx]) == ImportResult(db.Snapshot(), created, errors)
    {
      assert rows[..idx + 1][..idx] == rows[..idx];
      var f := rows[idx];
      if f.email == "" || f.nombre == "" {
        errors := errors + [EmptyField(idx)];
      } else {
        var inUse := exists j :: 0 <= j < |db.students| && db.students[j].email == f.email;
        if inUse {
          errors := errors + [EmailExists(idx, f.email)];
        } else {
          db.students := db.students + [RowStudent(db.students, f)];
          created := created + 1;
        }
      }
    }
    assert rows[..|rows|] == rows;
  }

  datatype FileOutcome = MissingCols(names: seq<string>) | Imported(result: ImportResult)

  /** The whole import of a file: nothing happens when a column is missing. */
  function ImportFile(t: Tables, cols: seq<string>, rows: seq<FileRow>): (o: FileOutcome)
    ensures o.MissingCols? <==> MissingColumns(cols) != []
    ensures o.MissingCols? ==> o.names == MissingColumns(cols)
    ensures o.Imported? ==> o.result == ImportRun(t, seq(|rows|, i requires 0 <= i < |rows| => FieldsIntended(rows[i])))
  {
    var missing := MissingColumns(cols);
    if missing != [] then MissingCols(missing)
    else Imported(ImportRun(t, seq(|rows|, i requires 0 <= i < |rows| => FieldsIntended(rows[i]))))
  }

  /** The whole import of a file as the page reads it: an empty cell is "nan". */
  function ImportFileAsWritten(t: Tables, cols: seq<string>, rows: seq<FileRow>): (o: FileOutcome)
    ensures o.MissingCols? <==> MissingColumns(cols) != []
    ensures o.MissingCols? ==> o.names == MissingColumns(cols)
    ensures o.Imported? ==> o.result == ImportRun(t, seq(|rows|, i requires 0 <= i < |rows| => FieldsAsWritten(rows[i])))
  {
    var missing := MissingColumns(cols);
    if missing != [] then MissingCols(missing)
    else Imported(ImportRun(t, seq(|rows|, i requires 0 <= i < |rows| => FieldsAsWritten(rows[i]))))
  }

  /** A row with no empty cell. */
  predicate Filled(r: FileRow) {
    r.email.Value? && r.nombre.Value? && r.apellido.Value? && r.programa.Value?
  }

  /** On a file without empty cells the page's reading is the intended one,
      so the two imports agree. */
  lemma FilledFileAgrees(t: Tables, cols: seq<string>, rows: seq<FileRow>)
    requires forall i :: 0 <= i < |rows| ==> Filled(rows[i])
    ensures ImportFileAsWritten(t, cols, rows) == ImportFile(t, cols, rows)
  {
    var a := seq(|rows|, i requires 0 <= i < |rows| => FieldsAsWritten(rows[i]));
    var b := seq(|rows|, i requires 0 <= i < |rows| => FieldsIntended(rows[i]));
    forall i | 0 <= i < |rows|
      ensures a[i] == b[i]
    {
      FilledFieldsAgree(rows[i]);
    }
    assert a == b;
  }

  lemma FilledFieldsAgree(r: FileRow)
    requires Filled(r)
    ensures FieldsAsWritten(r) == FieldsIntended(r)
  {
  }

  /** Read as intended, a row whose email or nombre cell is empty is refused
      and changes nothing. */
  lemma IntendedRejectsBlank(t: Tables, row: FileRow)
    requires row.email.Blank? || row.nombre.Blank?
    ensures ImportRun(t, [FieldsIntended(row)]) == ImportResult(t, 0, [EmptyField(0)])
  {
    ImportOne(t, FieldsIntended(row));
  }

  lemma BlankRowFields(nombre: string)
    requires nombre != [] && !IsSpace(nombre[0]) && !IsSpace(nombre[|nombre| - 1])
    ensures FieldsAsWritten(FileRow(Blank, Value(nombre), Blank, Blank)) == Fields("nan", nombre, "nan", "nan")
    ensures FieldsIntended(FileRow(Blank, Value(nombre), Blank, Blank)) == Fields("", nombre, "", "MBA")
  {
    NanStrip();
    StripUnchanged(nombre);
  }

  lemma NanStrip()
    ensures Strip("nan") == "nan"
  {
    StripUnchanged("nan");
  }

  /** As written, a row with an empty email cell imports a student whose
      email is "nan"; read as intended, the same row is refused. */
  lemma BlankEmailImported(t: Tables, nombre: string)
    requires nombre != [] && !IsSpace(nombre[0]) && !IsSpace(nombre[|nombre| - 1])
    requires !EmailInUse(t.students, "nan")
    ensures var row := FileRow(Blank, Value(nombre), Blank, Blank);
      var asWritten := ImportRun(t, [FieldsAsWritten(row)]);
      var intended := ImportRun(t, [FieldsIntended(row)]);
      asWritten.created == 1 && asWritten.errors == []
      && asWritten.t.students == t.students + [RowStudent(t.students, Fields("nan", nombre, "nan", "nan"))]
      && intended.created == 0 && intended.errors == [EmptyField(0)]
  {
    var row := FileRow(Blank, Value(nombre), Blank, Blank);
    BlankRowFields(nombre);
    ImportOne(t, FieldsAsWritten(row));
    ImportOne(t, FieldsIntended(row));
  }

  // ---------------------------------------------------------------------
  // the programme the edit form opens at

  /** The choices of the "Programa" box. */
  const Programas: seq<string> := ["MBA", "EMBA"]

  /** `["MBA", "EMBA"].index(programa or "MBA")` as written: the position of
      the stored programme, or `None` for the ValueError that any other
      stored value raises, which ends the run before the update and delete
      buttons are drawn. */
  function ProgramaIndexAsWritten(p: Option<string>): (r: Option<nat>)
    ensures r.Some? <==> OrDefault(p, "MBA") in Programas
    ensures r.Some? ==> r.value < |Programas| && Programas[r.value] == OrDefault(p, "MBA")
  {
    var v := OrDefault(p, "MBA");
    if v == "MBA" then Some(0) else if v == "EMBA" then Some(1) else None
  }

  /** The intended position: the stored programme when it is one of the
      choices, the first choice otherwise. */
  function ProgramaIndex(p: Option<string>): (r: nat)
    ensures r < |Programas|
    ensures OrDefault(p, "MBA") in Programas ==> Programas[r] == OrDefault(p, "MBA")
    ensures OrDefault(p, "MBA") !in Programas ==> r == 0
  {
    match ProgramaIndexAsWritten(p)
    case Some(i) => i
    case None => 0
  }

  /** A student imported from a row whose programa cell is empty gets the
      programme "nan": as written the edit form cannot be drawn for them,
      as intended it opens at "MBA". */
  lemma NanProgramaBlocksForm(t: Tables, row: FileRow)
    requires row.programa.Blank?
    ensures var s := RowStudent(t.students, FieldsAsWritten(row));
      s.programa == Some("nan") && ProgramaIndexAsWritten(s.programa).None? && Programas[ProgramaIndex(s.programa)] == "MBA"
  {
    BlankProgramaIsNan(row);
    NanNotAChoice();
  }

  lemma BlankProgramaIsNan(row: FileRow)
    requires row.programa.Blank?
    ensures FieldsAsWritten(row).programa == "nan"
  {
    NanStrip();
  }

  lemma NanNotAChoice()
    ensures ProgramaIndexAsWritten(Some("nan")).None? && ProgramaIndex(Some("nan")) == 0
  {
    assert OrDefault(Some("nan"), "MBA") == "nan";
    assert "nan" != "MBA" && "nan" != "EMBA";
  }

}
