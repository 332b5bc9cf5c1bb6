/**
 * The stored entities (lib/models.py), the keys and uniqueness constraints
 * the database enforces, the references it declares but does not enforce,
 * and the database itself as an object with one field per table.
 */
module Models {
  import opened Wrappers
  import opened Dates

  /** `StudentPlanItem.estado_plan`. */
  datatype PlanState = Planned | Backup

  /** `Enrollment.status`. */
  datatype Status = Planned | Registered | Completed | Withdrawn | Failed

  function PlanStateName(p: PlanState): string {
    match p
    case Planned => "planned"
    case Backup => "backup"
  }

  function StatusName(s: Status): string {
    match s
    case Planned => "planned"
    case Registered => "registered"
    case Completed => "completed"
    case Withdrawn => "withdrawn"
    case Failed => "failed"
  }

  lemma StatusNameInjective(a: Status, b: Status)
    ensures StatusName(a) == StatusName(b) ==> a == b
  {
  }

  datatype Course = Course(
    courseId: string,
    programa: Option<string>,
    anio: Option<int>,
    materia: Option<string>,
    inicio: Option<Date>,
    final: Option<Date>,
    dia: Option<string>,
    horario: Option<string>,
    formato: Option<string>,
    horas: Option<real>,
    tipoMateria: Option<string>,
    orientacion: Option<string>,
    comentarios: Option<string>)

  datatype CourseSource = CourseSource(
    id: nat,
    courseId: string,
    solapa: Option<string>,
    orientacionFuente: Option<string>,
    modulo: Option<string>,
    rowFuente: Option<int>)

  datatype Student = Student(
    id: nat,
    nombre: string,
    apellido: string,
    email: string,
    programa: Option<string>,
    cohorte: Option<string>,
    extra: Option<string>)

  datatype Meeting = Meeting(
    id: nat,
    studentId: Option<nat>,
    fecha: Stamp,
    orientacionObjetivo: Option<string>,
    acuerdo: Option<string>,
    notas: Option<string>)

  datatype PlanVersion = PlanVersion(
    id: nat,
    studentId: nat,
    versionNum: int,
    desde: Stamp,
    hasta: Option<Stamp>,
    comentario: Option<string>)

  datatype PlanItem = PlanItem(
    id: nat,
    planId: nat,
    courseId: string,
    prioridad: Option<int>,
    estado: PlanState,
    nota: Option<string>)

  datatype Enrollment = Enrollment(
    id: nat,
    studentId: nat,
    courseId: string,
    status: Status,
    nota: Option<string>,
    grade: Option<real>,
    registro: Stamp,
    fechaEstado: Option<Stamp>)

  /** What a text column of the change log holds once the value passed to it
      is stored: a string, a number or a date. */
  datatype LogValue = Txt(s: string) | Number(x: real) | Day(d: Date)

  datatype ChangeLog = ChangeLog(
    id: nat,
    ts: Stamp,
    user: Option<string>,
    entidad: string,
    entidadId: Option<string>,
    campo: Option<string>,
    anterior: Option<LogValue>,
    nuevo: Option<LogValue>,
    motivo: Option<string>)

  /** The contents of every table; rows of a table are in primary-key order. */
  datatype Tables = Tables(
    courses: map<string, Course>,
    sources: seq<CourseSource>,
    students: seq<Student>,
    meetings: seq<Meeting>,
    plans: seq<PlanVersion>,
    items: seq<PlanItem>,
    enrollments: seq<Enrollment>,
    logs: seq<ChangeLog>)

  // ---------------------------------------------------------------------
  // keys and constraints

  predicate Distinct<T(==)>(xs: seq<T>) {
    forall i, j :: 0 <= i < j < |xs| ==> xs[i] != xs[j]
  }

  function SourceIds(s: seq<CourseSource>): seq<nat> { seq(|s|, i requires 0 <= i < |s| => s[i].id) }
  function StudentIds(s: seq<Student>): seq<nat> { seq(|s|, i requires 0 <= i < |s| => s[i].id) }
  function MeetingIds(s: seq<Meeting>): seq<nat> { seq(|s|, i requires 0 <= i < |s| => s[i].id) }
  function PlanIds(s: seq<PlanVersion>): seq<nat> { seq(|s|, i requires 0 <= i < |s| => s[i].id) }
  function ItemIds(s: seq<PlanItem>): seq<nat> { seq(|s|, i requires 0 <= i < |s| => s[i].id) }
  function EnrollmentIds(s: seq<Enrollment>): seq<nat> { seq(|s|, i requires 0 <= i < |s| => s[i].id) }
  function LogIds(s: seq<ChangeLog>): seq<nat> { seq(|s|, i requires 0 <= i < |s| => s[i].id) }

  /** The largest id, or 0 for an empty table. */
  function MaxId(ids: seq<nat>): (m: nat)
    ensures forall i :: 0 <= i < |ids| ==> ids[i] <= m
    ensures m == 0 || m in ids
    decreases |ids|
  {
    if ids == [] then 0
    else
      var m := MaxId(ids[..|ids| - 1]);
      if ids[|ids| - 1] > m then ids[|ids| - 1] else m
  }

  /** The id SQLite gives the next inserted row of an integer-keyed table:
      one more than the largest id in use. */
  function NextId(ids: seq<nat>): (n: nat)
    ensures n >= 1 && n !in ids
    ensures forall i :: 0 <= i < |ids| ==> ids[i] < n
  {
    MaxId(ids) + 1
  }

  /** The columns `uq_course_source` covers. Two rows clash only when all
      three are equal and none is NULL: SQL treats NULLs as distinct. */
  predicate SourceClash(a: CourseSource, b: CourseSource) {
    a.courseId == b.courseId
    && a.solapa.Some? && a.solapa == b.solapa
    && a.rowFuente.Some? && a.rowFuente == b.rowFuente
  }

  /** The columns the importer looks a source up by. */
  predicate SameLookupKey(a: CourseSource, b: CourseSource) {
    a.courseId == b.courseId && a.solapa == b.solapa && a.modulo == b.modulo && a.rowFuente == b.rowFuente
  }

  predicate SourcesUnique(s: seq<CourseSource>) {
    forall i, j :: 0 <= i < j < |s| ==> !SourceClash(s[i], s[j])
  }

  predicate EmailsUnique(s: seq<Student>) {
    forall i, j :: 0 <= i < j < |s| ==> s[i].email != s[j].email
  }

  predicate CoursesKeyed(c: map<string, Course>) {
    forall k :: k in c ==> c[k].courseId == k
  }

  /** The constraints the database enforces at commit: every primary key,
      the unique e-mail and `uq_course_source`. */
  predicate Constraints(t: Tables) {
    CoursesKeyed(t.courses)
    && Distinct(SourceIds(t.sources)) && SourcesUnique(t.sources)
    && Distinct(StudentIds(t.students)) && EmailsUnique(t.students)
    && Distinct(MeetingIds(t.meetings))
    && Distinct(PlanIds(t.plans))
    && Distinct(ItemIds(t.items))
    && Distinct(EnrollmentIds(t.enrollments))
    && Distinct(LogIds(t.logs))
  }

  predicate IsStudent(t: Tables, id: nat) {
    exists i :: 0 <= i < |t.students| && t.students[i].id == id
  }

  predicate IsPlan(t: Tables, id: nat) {
    exists i :: 0 <= i < |t.plans| && t.plans[i].id == id
  }

  /** The foreign keys the models declare. SQLite leaves them unchecked
      because the connection never turns foreign-key enforcement on. */
  predicate References(t: Tables) {
    (forall i :: 0 <= i < |t.sources| ==> t.sources[i].courseId in t.courses)
    && (forall i :: 0 <= i < |t.meetings| ==> t.meetings[i].studentId.None? || IsStudent(t, t.meetings[i].studentId.value))
    && (forall i :: 0 <= i < |t.plans| ==> IsStudent(t, t.plans[i].studentId))
    && (forall i :: 0 <= i < |t.items| ==> IsPlan(t, t.items[i].planId) && t.items[i].courseId in t.courses)
    && (forall i :: 0 <= i < |t.enrollments| ==> IsStudent(t, t.enrollments[i].studentId) && t.enrollments[i].courseId in t.courses)
  }

  /** The lookup key includes `modulo` but the unique key does not: two rows
      the importer tells apart can still violate `uq_course_source`. */
  lemma LookupKeyIsNotUniqueKey()
    ensures exists a: CourseSource, b: CourseSource :: !SameLookupKey(a, b) && SourceClash(a, b)
  {
    var a := CourseSource(1, "M1", Some("S"), None, Some("A"), Some(2));
    var b := CourseSource(2, "M1", Some("S"), None, Some("B"), Some(2));
    assert !SameLookupKey(a, b) && SourceClash(a, b);
  }

  /** Conversely, rows with the same lookup key and non-NULL tab and row clash. */
  lemma LookupKeyRefinesUniqueKey(a: CourseSource, b: CourseSource)
    requires SameLookupKey(a, b) && a.solapa.Some? && a.rowFuente.Some?
    ensures SourceClash(a, b)
  {
  }

  /** `NULL` in `solapa_fuente` lets any number of rows share a course and row. */
  lemma NullTabNeverClashes(a: CourseSource, b: CourseSource)
    requires a.solapa.None?
    ensures !SourceClash(a, b) && !SourceClash(b, a)
  {
  }

  // ---------------------------------------------------------------------
  // the database

  /** The database: one field per table. Methods elsewhere change these
      fields; `Snapshot` is the state they are specified against. */
  class Database {
    var courses: map<string, Course>
    var sources: seq<CourseSource>
    var students: seq<Student>
    var meetings: seq<Meeting>
    var plans: seq<PlanVersion>
    var items: seq<PlanItem>
    var enrollments: seq<Enrollment>
    var logs: seq<ChangeLog>

    constructor (t: Tables)
      ensures Snapshot() == t
    {
      courses := t.courses;
      sources := t.sources;
      students := t.students;
      meetings := t.meetings;
      plans := t.plans;
      items := t.items;
      enrollments := t.enrollments;
      logs := t.logs;
    }

    function Snapshot(): Tables
      reads this
    {
      Tables(courses, sources, students, meetings, plans, items, enrollments, logs)
    }
  }
}
