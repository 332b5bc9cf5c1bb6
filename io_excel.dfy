/**
 * The schedule importer (lib/io_excel.py): reads the consolidated sheet,
 * validates it, and upserts one course and one course source per row in a
 * single session that commits once at the end.
 *
 * The session runs without autoflush, so a row added in this run is not seen
 * by the lookups of later rows: the work state keeps the rows loaded from the
 * store (updated in place) apart from the pending inserts.
 */
module IoExcel {
  import opened Wrappers
  import opened Text
  import opened Dates
  import opened Cells
  import opened Models
  import opened Validators

  // ---------------------------------------------------------------------
  // cell normalisation

  /** `_norm_str`: `None` for a missing cell, otherwise the cell's text with
      the surrounding white space removed and every inner run collapsed to one
      space. */
  function NormStr(c: Cell): (r: Option<string>)
    requires ValidCell(c)
    ensures r.None? <==> c.Blank?
    ensures r.Some? ==> Collapsed(r.value) && Split(r.value) == Split(Show(c))
    ensures r.Some? ==> (r.value == [] <==> AllSpace(Show(c)))
  {
    if c.Blank? then None
    else
      SqueezeCollapsed(Show(c));
      SqueezeKeepsWords(Show(c));
      SqueezeEmpty(Show(c));
      Some(Squeeze(Show(c)))
  }

  /** Normalising an already normalised text changes nothing. */
  lemma NormStrIdempotent(c: Cell)
    requires ValidCell(c) && !c.Blank?
    ensures NormStr(Str(NormStr(c).value)) == NormStr(c)
  {
    SqueezeIdempotent(Show(c));
  }

  /** A text of white space only normalises to the empty string, not to `None`. */
  lemma NormStrBlankText(s: string)
    requires AllSpace(s)
    ensures NormStr(Str(s)) == Some("")
  {
  }

  /** The hours of a row: `float(x)`, or `None` when missing or unreadable. */
  function HoursField(c: Cell): (r: Option<real>)
    ensures r.Some? <==> SafeFloat(c).Some?
    ensures r.Some? ==> r.value == Value(SafeFloat(c).value)
  {
    match SafeFloat(c)
    case Some(d) => Some(Value(d))
    case None => None
  }

  /** A date column of a validated row holds a timestamp or nothing; its date part. */
  function DateField(c: Cell): (r: Option<Date>)
    ensures r.Some? <==> c.When?
    ensures c.When? ==> r == Some(c.t.date)
  {
    if c.When? then Some(c.t.date) else None
  }

  // ---------------------------------------------------------------------
  // inputs, outcomes and the work state of the session

  /** What reading the workbook gives: a failure message or the sheet. */
  datatype ReadResult = Unreadable(reason: string) | Loaded(sheet: Sheet)

  datatype ImportError =
    | ReadFailed(reason: string)
    | Invalid(e: ValidationError)
    | EmptyId(row: nat)
    | AmbiguousSource(row: nat)
    | CommitFailed

  /** The summary dictionary the importer returns. */
  datatype Summary = Summary(
    createdCourses: nat,
    updatedCourses: nat,
    createdSources: nat,
    updatedSources: nat,
    errors: seq<ImportError>)

  const Zero: Summary := Summary(0, 0, 0, 0, [])

  /** A course source added in this session; its id is given at commit. */
  datatype PendingSource = PendingSource(
    courseId: string,
    solapa: Option<string>,
    orientacion: Option<string>,
    modulo: Option<string>,
    rowFuente: int)

  /** The session: loaded courses and sources (with their updates), the
      pending inserts in the order they were added, and the summary so far. */
  datatype Work = Work(
    courses: map<string, Course>,
    sources: seq<CourseSource>,
    newCourses: seq<Course>,
    newSources: seq<PendingSource>,
    summary: Summary)

  function Start(t: Tables): (w: Work)
    ensures w.courses == t.courses && w.sources == t.sources
    ensures w.newCourses == [] && w.newSources == [] && w.summary == Zero
  {
    Work(t.courses, t.sources, [], [], Zero)
  }

  function AddError(w: Work, e: ImportError): (w': Work)
    ensures w'.summary.errors == w.summary.errors + [e]
    ensures w'.(summary := w.summary) == w
    ensures w'.summary.(errors := w.summary.errors) == w.summary
  {
    w.(summary := w.summary.(errors := w.summary.errors + [e]))
  }

  // ---------------------------------------------------------------------
  // one row

  predicate RowOk(columns: seq<string>, row: seq<Cell>) {
    |row| == |columns| && forall j :: 0 <= j < |row| ==> ValidCell(row[j])
  }

  /** `row.get(name)`: the cell of that column, or nothing when it is absent. */
  function Get(columns: seq<string>, row: seq<Cell>, name: string): (c: Cell)
    requires RowOk(columns, row)
    ensures ValidCell(c)
    ensures name !in columns ==> c.Blank?
    ensures name in columns ==> c == row[ColumnIndex(columns, name)]
  {
    var j := ColumnIndex(columns, name);
    if j < |columns| then row[j] else Blank
  }

  /** The normalised course id of a row. */
  function RowId(columns: seq<string>, row: seq<Cell>): Option<string>
    requires RowOk(columns, row)
  {
    NormStr(Get(columns, row, "MateriaID"))
  }

  /** A row is skipped with "MateriaID vacío" when its id normalises to nothing. */
  predicate EmptyRowId(columns: seq<string>, row: seq<Cell>)
    requires RowOk(columns, row)
  {
    RowId(columns, row).None? || RowId(columns, row).value == []
  }

  /** The course a row describes, with every field normalised. */
  function RowCourse(cid: string, columns: seq<string>, row: seq<Cell>): (c: Course)
    requires RowOk(columns, row)
    ensures c.courseId == cid
    ensures c.inicio.Some? <==> Get(columns, row, "Inicio").When?
    ensures c.final.Some? <==> Get(columns, row, "Final").When?
  {
    Course(
      cid,
      NormStr(Get(columns, row, "Programa")),
      SafeInt(Get(columns, row, "Año")),
      NormStr(Get(columns, row, "Materia")),
      DateField(Get(columns, row, "Inicio")),
      DateField(Get(columns, row, "Final")),
      NormStr(Get(columns, row, "Día")),
      NormStr(Get(columns, row, "Horario")),
      NormStr(Get(columns, row, "Formato")),
      HoursField(Get(columns, row, "Horas")),
      NormStr(Get(columns, row, "TipoMateria")),
      NormStr(Get(columns, row, "Orientación")),
      NormStr(Get(columns, row, "Comentarios")))
  }

  /** The source a row describes; its sheet row is the row index plus two
      (one for the header, one for counting from one). */
  function RowSource(cid: string, columns: seq<string>, idx: nat, row: seq<Cell>): (p: PendingSource)
    requires RowOk(columns, row)
    ensures p.courseId == cid && p.rowFuente == idx + 2
  {
    PendingSource(
      cid,
      NormStr(Get(columns, row, "SolapaFuente")),
      NormStr(Get(columns, row, "Orientación")),
      NormStr(Get(columns, row, "Módulo")),
      idx + 2)
  }

  // ---------------------------------------------------------------------
  // the course upsert

  /** A stored value agrees with a new one when the new one is `None` or equal. */
  predicate Fits<T(==)>(cur: Option<T>, val: Option<T>) {
    val.Some? ==> cur == val
  }

  /** Every non-`None` field of `val` is already the value of `c`. */
  predicate Agrees(c: Course, val: Course) {
    Fits(c.programa, val.programa) && Fits(c.anio, val.anio) && Fits(c.materia, val.materia)
    && Fits(c.inicio, val.inicio) && Fits(c.final, val.final) && Fits(c.dia, val.dia)
    && Fits(c.horario, val.horario) && Fits(c.formato, val.formato) && Fits(c.horas, val.horas)
    && Fits(c.tipoMateria, val.tipoMateria) && Fits(c.orientacion, val.orientacion)
    && Fits(c.comentarios, val.comentarios)
  }

  /** Every field where `val` is `None` keeps its value from `cur`. */
  predicate NoneKeeps(cur: Course, val: Course, r: Course) {
    r.courseId == cur.courseId
    && (val.programa.None? ==> r.programa == cur.programa) && (val.anio.None? ==> r.anio == cur.anio)
    && (val.materia.None? ==> r.materia == cur.materia) && (val.inicio.None? ==> r.inicio == cur.inicio)
    && (val.final.None? ==> r.final == cur.final) && (val.dia.None? ==> r.dia == cur.dia)
    && (val.horario.None? ==> r.horario == cur.horario) && (val.formato.None? ==> r.formato == cur.formato)
    && (val.horas.None? ==> r.horas == cur.horas) && (val.tipoMateria.None? ==> r.tipoMateria == cur.tipoMateria)
    && (val.orientacion.None? ==> r.orientacion == cur.orientacion)
    && (val.comentarios.None? ==> r.comentarios == cur.comentarios)
  }

  function Pick<T>(cur: Option<T>, val: Option<T>): Option<T> {
    if val.Some? then val else cur
  }

  /** The field loop of the course upsert: a field is set when the new value
      is not `None` and differs. */
  function Overlay(cur: Course, val: Course): (r: Course)
    ensures Agrees(r, val) && NoneKeeps(cur, val, r)
  {
    Course(cur.courseId,
      Pick(cur.programa, val.programa), Pick(cur.anio, val.anio), Pick(cur.materia, val.materia),
      Pick(cur.inicio, val.inicio), Pick(cur.final, val.final), Pick(cur.dia, val.dia),
      Pick(cur.horario, val.horario), Pick(cur.formato, val.formato), Pick(cur.horas, val.horas),
      Pick(cur.tipoMateria, val.tipoMateria), Pick(cur.orientacion, val.orientacion),
      Pick(cur.comentarios, val.comentarios))
  }

  /** The course changes exactly when some new value is not `None` and differs,
      which is when the update is counted; a second overlay changes nothing. */
  lemma OverlayChanges(cur: Course, val: Course)
    ensures Overlay(cur, val) == cur <==> Agrees(cur, val)
    ensures Overlay(Overlay(cur, val), val) == Overlay(cur, val)
  {
  }

  /** `session.get` sees the loaded courses (with this session's updates) but
      not the pending ones: an unknown id is added again however often it
      repeats. */
  function CourseStep(w: Work, val: Course): (w': Work)
    ensures w'.sources == w.sources && w'.newSources == w.newSources
    ensures w'.summary.errors == w.summary.errors
    ensures w'.summary.createdSources == w.summary.createdSources
    ensures w'.summary.updatedSources == w.summary.updatedSources
  {
    var k := val.courseId;
    if k in w.courses then
      var cur := w.courses[k];
      w.(courses := w.courses[k := Overlay(cur, val)],
         summary := w.summary.(updatedCourses := w.summary.updatedCourses + if Agrees(cur, val) then 0 else 1))
    else
      w.(newCourses := w.newCourses + [val],
         summary := w.summary.(createdCourses := w.summary.createdCourses + 1))
  }

  /** A known course is updated in place and counted once if anything changed;
      an unknown one is queued for insertion with every field of the row and
      counted as created. */
  lemma CourseStepEffect(w: Work, val: Course)
    ensures val.courseId in w.courses ==>
      var w' := CourseStep(w, val);
      w'.courses.Keys == w.courses.Keys && w'.newCourses == w.newCourses
      && w'.courses[val.courseId] == Overlay(w.courses[val.courseId], val)
      && (forall k :: k in w.courses && k != val.courseId ==> w'.courses[k] == w.courses[k])
      && w'.summary.createdCourses == w.summary.createdCourses
      && w'.summary.updatedCourses == w.summary.updatedCourses + (if w'.courses == w.courses then 0 else 1)
    ensures val.courseId !in w.courses ==>
      var w' := CourseStep(w, val);
      w'.courses == w.courses && w'.newCourses == w.newCourses + [val]
      && w'.summary.createdCourses == w.summary.createdCourses + 1
      && w'.summary.updatedCourses == w.summary.updatedCourses
  {
    var k := val.courseId;
    if k in w.courses {
      var w' := CourseStep(w, val);
      OverlayChanges(w.courses[k], val);
      if w'.courses == w.courses {
        assert w'.courses[k] == w.courses[k];
      }
    }
  }

  // ---------------------------------------------------------------------
  // the source upsert

  /** The `filter_by` of the source lookup; `None` on either side is matched
      by `IS NULL`, so it only matches `None`. */
  predicate KeyMatch(s: CourseSource, p: PendingSource) {
    s.courseId == p.courseId && s.solapa == p.solapa && s.modulo == p.modulo && s.rowFuente == Some(p.rowFuente)
  }

  /** The positions of the loaded sources the lookup returns, in order. */
  function Matching(sources: seq<CourseSource>, p: PendingSource): (m: seq<nat>)
    ensures forall k :: 0 <= k < |m| ==> m[k] < |sources| && KeyMatch(sources[m[k]], p)
    ensures forall i :: 0 <= i < |sources| && KeyMatch(sources[i], p) ==> i in m
    ensures forall k, l :: 0 <= k < l < |m| ==> m[k] < m[l]
    decreases |sources|
  {
    if sources == [] then []
    else
      var m := Matching(sources[..|sources| - 1], p);
      if KeyMatch(sources[|sources| - 1], p) then m + [|sources| - 1] else m
  }

  /** `one_or_none()`: no match queues a new source; one match may update
      only its `orientacion_fuente`, when the new value is not `None` and
      differs; more than one raises, which fails this row but keeps the
      course changes already made for it. */
  function SourceStep(w: Work, idx: nat, p: PendingSource): (w': Work)
    ensures w'.courses == w.courses && w'.newCourses == w.newCourses
    ensures w'.summary.createdCourses == w.summary.createdCourses
    ensures w'.summary.updatedCourses == w.summary.updatedCourses
  {
    var m := Matching(w.sources, p);
    if |m| == 0 then
      w.(newSources := w.newSources + [p],
         summary := w.summary.(createdSources := w.summary.createdSources + 1))
    else if |m| == 1 then
      var s := w.sources[m[0]];
      if p.orientacion.Some? && s.orientacionFuente != p.orientacion then
        w.(sources := w.sources[m[0] := s.(orientacionFuente := p.orientacion)],
           summary := w.summary.(updatedSources := w.summary.updatedSources + 1))
      else w
    else AddError(w, AmbiguousSource(idx))
  }

  /** The three outcomes of the source lookup, with the counter each one moves. */
  lemma SourceStepEffect(w: Work, idx: nat, p: PendingSource)
    ensures var w' := SourceStep(w, idx, p);
      var n := |Matching(w.sources, p)|;
      w'.summary.createdSources == w.summary.createdSources + (if n == 0 then 1 else 0)
      && w'.summary.updatedSources == w.summary.updatedSources + (if w'.sources == w.sources then 0 else 1)
      && w'.summary.errors == w.summary.errors + (if n >= 2 then [AmbiguousSource(idx)] else [])
      && w'.newSources == w.newSources + (if n == 0 then [p] else [])
      && |w'.sources| == |w.sources|
      && (forall i :: 0 <= i < |w.sources| ==> w'.sources[i].(orientacionFuente := w.sources[i].orientacionFuente) == w.sources[i])
      && (forall i :: 0 <= i < |w.sources| && w'.sources[i] != w.sources[i] ==>
            n == 1 && KeyMatch(w.sources[i], p) && w'.sources[i].orientacionFuente == p.orientacion && p.orientacion.Some?)
  {
  }

  /** What the loop takes from one row: nothing but an error when its id is
      empty, else the course and the source the row describes. */
  datatype RowInput = Skip | Upsert(course: Course, source: PendingSource)

  /** The normalisation at the top of the loop body. */
  function ReadRow(columns: seq<string>, idx: nat, row: seq<Cell>): (x: RowInput)
    requires RowOk(columns, row)
    ensures x.Skip? <==> EmptyRowId(columns, row)
    ensures x.Upsert? ==> x.course.courseId == RowId(columns, row).value && x.source.courseId == x.course.courseId
    ensures x.Upsert? ==> x.source.rowFuente == idx + 2
  {
    if EmptyRowId(columns, row) then Skip
    else
      var cid := RowId(columns, row).value;
      Upsert(RowCourse(cid, columns, row), RowSource(cid, columns, idx, row))
  }

  /** One iteration of the row loop. */
  function RowStep(w: Work, idx: nat, x: RowInput): Work {
    match x
    case Skip => AddError(w, EmptyId(idx))
    case Upsert(c, p) => SourceStep(CourseStep(w, c), idx, p)
  }

  /** A row whose id is missing or blank adds one error and changes nothing
      else; a text id of white space only is such a row. */
  lemma EmptyIdSkipsRow(w: Work, columns: seq<string>, idx: nat, row: seq<Cell>)
    requires RowOk(columns, row)
    ensures EmptyRowId(columns, row) ==> RowStep(w, idx, ReadRow(columns, idx, row)) == AddError(w, EmptyId(idx))
    ensures Get(columns, row, "MateriaID").Str? && AllSpace(Get(columns, row, "MateriaID").s) ==> EmptyRowId(columns, row)
    ensures !EmptyRowId(columns, row) ==>
      (RowStep(w, idx, ReadRow(columns, idx, row)).summary.errors == w.summary.errors
       || RowStep(w, idx, ReadRow(columns, idx, row)).summary.errors == w.summary.errors + [AmbiguousSource(idx)])
  {
    var x := ReadRow(columns, idx, row);
    if x.Upsert? {
      SourceStepEffect(CourseStep(w, x.course), idx, x.source);
    }
  }

  /** The row loop over the first `n` rows. */
  function Run(w: Work, xs: seq<RowInput>, n: nat): Work
    requires n <= |xs|
    decreases n
  {
    if n == 0 then w else RowStep(Run(w, xs, n - 1), n - 1, xs[n - 1])
  }

  /** The rows of a sheet as the loop reads them. */
  function Inputs(frame: Sheet): (xs: seq<RowInput>)
    requires RowsOk(frame)
    ensures |xs| == |frame.rows|
    ensures forall r :: 0 <= r < |xs| ==> xs[r] == ReadRow(frame.columns, r, frame.rows[r])
  {
    seq(|frame.rows|, r requires 0 <= r < |frame.rows| => ReadRow(frame.columns, r, frame.rows[r]))
  }

  /** Every row of the sheet can be read cell by cell. */
  predicate RowsOk(frame: Sheet) {
    forall r :: 0 <= r < |frame.rows| ==> RowOk(frame.columns, frame.rows[r])
  }

  lemma WellFormedRowsOk(frame: Sheet)
    requires WellFormed(frame)
    ensures RowsOk(frame)
  {
  }

  // ---------------------------------------------------------------------
  // the commit

  function CourseIds(cs: seq<Course>): seq<string> {
    seq(|cs|, i requires 0 <= i < |cs| => cs[i].courseId)
  }

  /** The pending courses as rows keyed by id (a later one wins; the commit
      only succeeds when there is no duplicate). */
  function CourseMap(cs: seq<Course>): (m: map<string, Course>)
    ensures CoursesKeyed(m)
    ensures forall k :: k in m <==> k in CourseIds(cs)
    decreases |cs|
  {
    if cs == [] then map[]
    else
      var init := cs[..|cs| - 1];
      var c := cs[|cs| - 1];
      assert forall i :: 0 <= i < |init| ==> CourseIds(cs)[i] == CourseIds(init)[i];
      assert CourseIds(cs) == CourseIds(init) + [c.courseId];
      CourseMap(init)[c.courseId := c]
  }

  /** The rows the pending sources become, with ids `first`, `first + 1`, ... */
  function Assign(ps: seq<PendingSource>, first: nat): (s: seq<CourseSource>)
    ensures |s| == |ps|
    ensures forall i :: 0 <= i < |s| ==> s[i].id == first + i
    ensures forall i :: 0 <= i < |s| ==> s[i] == CourseSource(first + i, ps[i].courseId, ps[i].solapa, ps[i].orientacion, ps[i].modulo, Some(ps[i].rowFuente))
  {
    seq(|ps|, i requires 0 <= i < |ps| =>
      CourseSource(first + i, ps[i].courseId, ps[i].solapa, ps[i].orientacion, ps[i].modulo, Some(ps[i].rowFuente)))
  }

  function FinalSources(w: Work): seq<CourseSource> {
    w.sources + Assign(w.newSources, NextId(SourceIds(w.sources)))
  }

  function FinalCourses(w: Work): map<string, Course> {
    w.courses + CourseMap(w.newCourses)
  }

  /** The flush succeeds when no two pending courses share an id and no
      source row violates `uq_course_source`. */
  predicate CommitOk(w: Work) {
    Distinct(CourseIds(w.newCourses)) && SourcesUnique(FinalSources(w))
  }

  /** The store after a successful commit. */
  function Committed(t: Tables, w: Work): Tables {
    t.(courses := FinalCourses(w), sources := FinalSources(w))
  }

  function Wrap(es: seq<ValidationError>): (r: seq<ImportError>)
    ensures |r| == |es| && forall i :: 0 <= i < |es| ==> r[i] == Invalid(es[i])
  {
    seq(|es|, i requires 0 <= i < |es| => Invalid(es[i]))
  }

  /** `import_schedule_excel` as a function of the store and the read. */
  function ImportSpec(t: Tables, read: ReadResult, parseDate: Cell -> Option<Stamp>): (Summary, Tables)
    requires read.Loaded? ==> WellFormed(read.sheet)
  {
    match read
    case Unreadable(reason) => (Zero.(errors := [ReadFailed(reason)]), t)
    case Loaded(sh) =>
      var v := ValidateSpec(sh, parseDate);
      if v.Rejected? || v.errors != [] then (Zero.(errors := Wrap(v.errors)), t)
      else
        WellFormedRowsOk(v.frame);
        var w := Run(Start(t), Inputs(v.frame), |v.frame.rows|);
        if CommitOk(w) then (w.summary, Committed(t, w))
        else (w.summary.(errors := w.summary.errors + [CommitFailed]), t)
  }

  // ---------------------------------------------------------------------
  // the importer as the program performs it

  /** The course upsert of one row. */
  method UpsertCourse(w: Work, val: Course) returns (w': Work)
    ensures w' == CourseStep(w, val)
  {
    w' := w;
    var cid := val.courseId;
    if cid in w.courses {
      var cur := w.courses[cid];
      if !Agrees(cur, val) {
        w' := w'.(courses := w'.courses[cid := Overlay(cur, val)]);
        w' := w'.(summary := w'.summary.(updatedCourses := w'.summary.updatedCourses + 1));
      } else {
        OverlayChanges(cur, val);
        assert w.courses[cid := Overlay(cur, val)] == w.courses;
      }
    } else {
      w' := w'.(newCourses := w'.newCourses + [val]);
      w' := w'.(summary := w'.summary.(createdCourses := w'.summary.createdCourses + 1));
    }
  }

  /** The source upsert of one row. */
  method UpsertSource(w: Work, idx: nat, p: PendingSource) returns (w': Work)
    ensures w' == SourceStep(w, idx, p)
  {
    w' := w;
    var m := Matching(w.sources, p);
    if |m| == 0 {
      w' := w'.(newSources := w'.newSources + [p]);
      w' := w'.(summary := w'.summary.(createdSources := w'.summary.createdSources + 1));
    } else if |m| == 1 {
      var s := w.sources[m[0]];
      if p.orientacion.Some? && s.orientacionFuente != p.orientacion {
        w' := w'.(sources := w'.sources[m[0] := s.(orientacionFuente := p.orientacion)]);
        w' := w'.(summary := w'.summary.(updatedSources := w'.summary.updatedSources + 1));
      }
    } else {
      w' := w'.(summary := w'.summary.(errors := w'.summary.errors + [AmbiguousSource(idx)]));
    }
  }

  /** One iteration of the row loop. */
  method ProcessRow(w: Work, columns: seq<string>, idx: nat, row: seq<Cell>) returns (w': Work)
    requires RowOk(columns, row)
    ensures w' == RowStep(w, idx, ReadRow(columns, idx, row))
  {
    var id := RowId(columns, row);
    if id.None? || id.value == [] {
      w' := w.(summary := w.summary.(errors := w.summary.errors + [EmptyId(idx)]));
    } else {
      var cid := id.value;
      w' := UpsertCourse(w, RowCourse(cid, columns, row));
      w' := UpsertSource(w', idx, RowSource(cid, columns, idx, row));
    }
  }

  /** The row loop of the session, row by row in sheet order. */
  method RunRows(t: Tables, frame: Sheet) returns (w: Work)
    requires RowsOk(frame)
    ensures w == Run(Start(t), Inputs(frame), |frame.rows|)
  {
    w := Start(t);
    for idx := 0 to |frame.rows|
      invariant w == Run(Start(t), Inputs(frame), idx)
    {
      RowsNext(t, frame, idx);
      w := ProcessRow(w, frame.columns, idx, frame.rows[idx]);
    }
  }

  /** The loop state after row `idx` is the state before it, stepped by that row. */
  lemma RowsNext(t: Tables, frame: Sheet, idx: nat)
    requires RowsOk(frame) && idx < |frame.rows|
    ensures Run(Start(t), Inputs(frame), idx + 1)
      == RowStep(Run(Start(t), Inputs(frame), idx), idx, ReadRow(frame.columns, idx, frame.rows[idx]))
  {
    var xs := Inputs(frame);
    RunNext(Start(t), xs, idx);
    assert xs[idx] == ReadRow(frame.columns, idx, frame.rows[idx]);
  }

  lemma RunNext(w: Work, xs: seq<RowInput>, n: nat)
    requires n < |xs|
    ensures Run(w, xs, n + 1) == RowStep(Run(w, xs, n), n, xs[n])
  {
  }

  /** `import_schedule_excel`: the read and validation guards, the row loop
      over the session's state, and the commit or rollback. */
  method ImportSchedule(db: Database, read: ReadResult, parseDate: Cell -> Option<Stamp>) returns (summary: Summary)
    requires read.Loaded? ==> WellFormed(read.sheet)
    modifies db
    ensures (summary, db.Snapshot()) == ImportSpec(old(db.Snapshot()), read, parseDate)
  {
    if read.Unreadable? {
      return Zero.(errors := [ReadFailed(read.reason)]);
    }
    var v := Validate(read.sheet, parseDate);
    if v.Rejected? || v.errors != [] {
      return Zero.(errors := Wrap(v.errors));
    }
    var frame := v.frame;
    var t := db.Snapshot();

    WellFormedRowsOk(frame);
    var w := RunRows(t, frame);
    summary := Finish(db, w);
  }

  /** The commit of the session's state, or the rollback when it fails. */
  method Finish(db: Database, w: Work) returns (summary: Summary)
    modifies db
    ensures (summary, db.Snapshot()) ==
      if CommitOk(w) then (w.summary, Committed(old(db.Snapshot()), w))
      else (w.summary.(errors := w.summary.errors + [CommitFailed]), old(db.Snapshot()))
  {
    summary := w.summary;
    if CommitOk(w) {
      db.courses := FinalCourses(w);
      db.sources := FinalSources(w);
    } else {
      summary := summary.(errors := summary.errors + [CommitFailed]);
    }
  }

  // ---------------------------------------------------------------------
  // blank dates as the program writes them

  /** Whether the Inicio or the Final cell of a validated row holds no
      timestamp. The coercion leaves NaT there, and the program passes NaT
      on as a value: `pd.notna` guards only the conversion to a date. */
  predicate BlankDate(columns: seq<string>, row: seq<Cell>)
    requires RowOk(columns, row)
  {
    !Get(columns, row, "Inicio").When? || !Get(columns, row, "Final").When?
  }

  /** The session as the program runs it: the work state (a NaT date is
      `None` in it), the loaded courses whose Inicio or Final now holds NaT,
      and whether some pending course was built with NaT. */
  datatype NaTWork = NaTWork(w: Work, holding: set<string>, pendingNaT: bool)

  /** The field loop as written: `NaT is not None` and NaT differs from
      every value, so both date fields take the row's value. With both dates
      present this is the corrected overlay. */
  function OverlayAsWritten(cur: Course, val: Course): (r: Course)
    ensures r.inicio == val.inicio && r.final == val.final
    ensures r.(inicio := cur.inicio, final := cur.final) == Overlay(cur, val.(inicio := None, final := None))
    ensures val.inicio.Some? && val.final.Some? ==> r == Overlay(cur, val)
  {
    Overlay(cur, val).(inicio := val.inicio, final := val.final)
  }

  /** Whether the field loop as written sets a field: a NaT in the row or
      in the stored course, or a value that differs. */
  predicate ChangedAsWritten(cur: Course, val: Course, blank: bool, held: bool) {
    blank || held || !Agrees(cur, val) || cur.inicio != val.inicio || cur.final != val.final
  }

  /** The course upsert as written. */
  function CourseStepAsWritten(a: NaTWork, val: Course, blank: bool): NaTWork {
    var k := val.courseId;
    if k in a.w.courses then
      var cur := a.w.courses[k];
      NaTWork(
        a.w.(courses := a.w.courses[k := OverlayAsWritten(cur, val)],
             summary := a.w.summary.(updatedCourses := a.w.summary.updatedCourses
               + if ChangedAsWritten(cur, val, blank, k in a.holding) then 1 else 0)),
        if blank then a.holding + {k} else a.holding - {k},
        a.pendingNaT)
    else
      NaTWork(
        a.w.(newCourses := a.w.newCourses + [val],
             summary := a.w.summary.(createdCourses := a.w.summary.createdCourses + 1)),
        a.holding,
        a.pendingNaT || blank)
  }

  /** A blank date of a loaded course is written and counted as an update,
      and the course holds NaT; a blank date of an unknown id builds a
      pending course with NaT. A row with both dates, in a session holding
      no NaT, steps as the corrected upsert does. */
  lemma CourseStepAsWrittenEffect(a: NaTWork, val: Course, blank: bool)
    ensures val.courseId in a.w.courses && blank ==>
      var b := CourseStepAsWritten(a, val, blank);
      b.w.summary.updatedCourses == a.w.summary.updatedCourses + 1 && val.courseId in b.holding
    ensures val.courseId !in a.w.courses && blank ==> CourseStepAsWritten(a, val, blank).pendingNaT
    ensures CourseStepAsWritten(a, val, blank).w.courses.Keys == a.w.courses.Keys
    ensures a.pendingNaT ==> CourseStepAsWritten(a, val, blank).pendingNaT
    ensures !blank && val.inicio.Some? && val.final.Some? && a.holding == {} ==>
      CourseStepAsWritten(a, val, blank) == NaTWork(CourseStep(a.w, val), {}, a.pendingNaT)
  {
    var k := val.courseId;
    if !blank && val.inicio.Some? && val.final.Some? && a.holding == {} && k in a.w.courses {
      var cur := a.w.courses[k];
      assert ChangedAsWritten(cur, val, blank, k in a.holding) == !Agrees(cur, val);
    }
  }

  /** One iteration of the row loop as written. */
  function RowStepAsWritten(a: NaTWork, idx: nat, x: RowInput, blank: bool): NaTWork {
    match x
    case Skip => a.(w := AddError(a.w, EmptyId(idx)))
    case Upsert(c, p) =>
      var b := CourseStepAsWritten(a, c, blank);
      b.(w := SourceStep(b.w, idx, p))
  }

  function RunAsWritten(a: NaTWork, xs: seq<RowInput>, bs: seq<bool>, n: nat): NaTWork
    requires n <= |xs| == |bs|
    decreases n
  {
    if n == 0 then a else RowStepAsWritten(RunAsWritten(a, xs, bs, n - 1), n - 1, xs[n - 1], bs[n - 1])
  }

  /** The blank-date flag of each row of a sheet. */
  function Blanks(frame: Sheet): (bs: seq<bool>)
    requires RowsOk(frame)
    ensures |bs| == |frame.rows|
    ensures forall r :: 0 <= r < |bs| ==> bs[r] == BlankDate(frame.columns, frame.rows[r])
  {
    seq(|frame.rows|, r requires 0 <= r < |frame.rows| => BlankDate(frame.columns, frame.rows[r]))
  }

  /** The row loop as written over a validated sheet. */
  function RunFrameAsWritten(t: Tables, frame: Sheet): NaTWork
    requires RowsOk(frame)
  {
    RunAsWritten(NaTWork(Start(t), {}, false), Inputs(frame), Blanks(frame), |frame.rows|)
  }

  /** `import_schedule_excel` as written: the flush binds NaT to a `Date`
      column, which fails, so the commit also fails when a loaded course
      still holds NaT or a pending course was built with it. */
  function ImportAsWritten(t: Tables, read: ReadResult, parseDate: Cell -> Option<Stamp>): (Summary, Tables)
    requires read.Loaded? ==> WellFormed(read.sheet)
  {
    match read
    case Unreadable(reason) => (Zero.(errors := [ReadFailed(reason)]), t)
    case Loaded(sh) =>
      var v := ValidateSpec(sh, parseDate);
      if v.Rejected? || v.errors != [] then (Zero.(errors := Wrap(v.errors)), t)
      else
        WellFormedRowsOk(v.frame);
        FinishAsWritten(t, RunFrameAsWritten(t, v.frame))
  }

  /** The commit as written: it fails as the corrected one does, and also
      when a course to flush holds NaT. */
  function FinishAsWritten(t: Tables, a: NaTWork): (r: (Summary, Tables))
    ensures a.holding != {} || a.pendingNaT ==> r == (a.w.summary.(errors := a.w.summary.errors + [CommitFailed]), t)
    ensures a.holding != {} || a.pendingNaT ==> r.1 == t && |r.0.errors| > 0 && r.0.errors[|r.0.errors| - 1] == CommitFailed
    ensures a.holding == {} && !a.pendingNaT ==>
      r == if CommitOk(a.w) then (a.w.summary, Committed(t, a.w))
           else (a.w.summary.(errors := a.w.summary.errors + [CommitFailed]), t)
  {
    if CommitOk(a.w) && a.holding == {} && !a.pendingNaT then (a.w.summary, Committed(t, a.w))
    else (a.w.summary.(errors := a.w.summary.errors + [CommitFailed]), t)
  }

  /** The loop as written never adds or drops a loaded course, and a pending
      course built with NaT stays pending. */
  lemma {:induction false} RunAsWrittenKeys(a: NaTWork, xs: seq<RowInput>, bs: seq<bool>, n: nat)
    requires n <= |xs| == |bs|
    ensures RunAsWritten(a, xs, bs, n).w.courses.Keys == a.w.courses.Keys
    ensures a.pendingNaT ==> RunAsWritten(a, xs, bs, n).pendingNaT
    decreases n
  {
    if n > 0 {
      var b := RunAsWritten(a, xs, bs, n - 1);
      RunAsWrittenKeys(a, xs, bs, n - 1);
      if xs[n - 1].Upsert? {
        CourseStepAsWrittenEffect(b, xs[n - 1].course, bs[n - 1]);
      }
    }
  }

  /** A row with a blank date and an id that is not loaded makes every
      later state of the loop carry a pending course with NaT. */
  lemma {:induction false} PendingNaTPersists(a: NaTWork, xs: seq<RowInput>, bs: seq<bool>, r: nat, n: nat)
    requires r < n <= |xs| == |bs|
    requires xs[r].Upsert? && bs[r] && xs[r].course.courseId !in a.w.courses
    ensures RunAsWritten(a, xs, bs, n).pendingNaT
    decreases n
  {
    if n == r + 1 {
      var b := RunAsWritten(a, xs, bs, r);
      RunAsWrittenKeys(a, xs, bs, r);
      CourseStepAsWrittenEffect(b, xs[r].course, bs[r]);
    } else {
      PendingNaTPersists(a, xs, bs, r, n - 1);
      var b := RunAsWritten(a, xs, bs, n - 1);
      if xs[n - 1].Upsert? {
        CourseStepAsWrittenEffect(b, xs[n - 1].course, bs[n - 1]);
      }
    }
  }

  /** A loaded course whose last row has a blank date still holds NaT when
      the loop ends. */
  lemma {:induction false} HoldingPersists(a: NaTWork, xs: seq<RowInput>, bs: seq<bool>, r: nat, n: nat)
    requires r < n <= |xs| == |bs|
    requires xs[r].Upsert? && bs[r] && xs[r].course.courseId in a.w.courses
    requires forall q :: r < q < n && xs[q].Upsert? ==> xs[q].course.courseId != xs[r].course.courseId
    ensures xs[r].course.courseId in RunAsWritten(a, xs, bs, n).holding
    decreases n
  {
    if n == r + 1 {
      var b := RunAsWritten(a, xs, bs, r);
      RunAsWrittenKeys(a, xs, bs, r);
      CourseStepAsWrittenEffect(b, xs[r].course, bs[r]);
    } else {
      HoldingPersists(a, xs, bs, r, n - 1);
    }
  }

  /** Without blank dates in the rows it upserts, the loop as written is
      the corrected loop. */
  lemma {:induction false} DatedRunAgrees(w: Work, xs: seq<RowInput>, bs: seq<bool>, n: nat)
    requires n <= |xs| == |bs|
    requires forall r :: 0 <= r < n && xs[r].Upsert? ==>
      !bs[r] && xs[r].course.inicio.Some? && xs[r].course.final.Some?
    ensures RunAsWritten(NaTWork(w, {}, false), xs, bs, n) == NaTWork(Run(w, xs, n), {}, false)
    decreases n
  {
    if n > 0 {
      DatedRunAgrees(w, xs, bs, n - 1);
      DatedRowAgrees(Run(w, xs, n - 1), n - 1, xs[n - 1], bs[n - 1]);
    }
  }

  lemma DatedRowAgrees(w: Work, idx: nat, x: RowInput, blank: bool)
    requires x.Upsert? ==> !blank && x.course.inicio.Some? && x.course.final.Some?
    ensures RowStepAsWritten(NaTWork(w, {}, false), idx, x, blank) == NaTWork(RowStep(w, idx, x), {}, false)
  {
    if x.Upsert? {
      CourseStepAsWrittenEffect(NaTWork(w, {}, false), x.course, blank);
    }
  }

  /** Every row the loop upserts has both dates. */
  predicate DatedRows(frame: Sheet)
    requires RowsOk(frame)
  {
    forall r :: 0 <= r < |frame.rows| && !EmptyRowId(frame.columns, frame.rows[r]) ==>
      !BlankDate(frame.columns, frame.rows[r])
  }

  /** Over a sheet without blank dates in the rows it upserts, the loop as
      written is the corrected loop. */
  lemma DatedFrameAgrees(t: Tables, frame: Sheet)
    requires RowsOk(frame) && DatedRows(frame)
    ensures RunFrameAsWritten(t, frame) == NaTWork(Run(Start(t), Inputs(frame), |frame.rows|), {}, false)
  {
    var xs := Inputs(frame);
    var bs := Blanks(frame);
    forall r | 0 <= r < |frame.rows| && xs[r].Upsert?
      ensures !bs[r] && xs[r].course.inicio.Some? && xs[r].course.final.Some?
    {
      assert xs[r] == ReadRow(frame.columns, r, frame.rows[r]);
    }
    DatedRunAgrees(Start(t), xs, bs, |frame.rows|);
  }

  /** When the validated sheet has no blank date in a row it upserts, the
      import as written is the corrected import. */
  lemma DatedImportAgrees(t: Tables, read: ReadResult, parseDate: Cell -> Option<Stamp>)
    requires read.Loaded? ==> WellFormed(read.sheet)
    ensures read.Unreadable? ==> ImportAsWritten(t, read, parseDate) == ImportSpec(t, read, parseDate)
    ensures read.Loaded? ==>
      var v := ValidateSpec(read.sheet, parseDate);
      v.Rejected? || v.errors != [] || (RowsOk(v.frame) && DatedRows(v.frame)) ==>
        ImportAsWritten(t, read, parseDate) == ImportSpec(t, read, parseDate)
  {
    if read.Loaded? {
      var v := ValidateSpec(read.sheet, parseDate);
      if v.Checked? && v.errors == [] {
        WellFormedRowsOk(v.frame);
        if DatedRows(v.frame) {
          DatedFrameAgrees(t, v.frame);
        }
      }
    }
  }

  /** A sheet row the loop upserts has a blank date, and its id is new or
      no later upserted row carries it. */
  predicate LastBlankDate(t: Tables, frame: Sheet, r: nat)
    requires RowsOk(frame)
  {
    r < |frame.rows| && !EmptyRowId(frame.columns, frame.rows[r]) && BlankDate(frame.columns, frame.rows[r])
    && (RowId(frame.columns, frame.rows[r]).value !in t.courses
        || forall q :: r < q < |frame.rows| && !EmptyRowId(frame.columns, frame.rows[q]) ==>
             RowId(frame.columns, frame.rows[q]) != RowId(frame.columns, frame.rows[r]))
  }

  /** After such a row, the loop as written ends with NaT in a course to flush. */
  lemma BlankDateLeavesNaT(t: Tables, frame: Sheet, r: nat)
    requires RowsOk(frame) && LastBlankDate(t, frame, r)
    ensures RunFrameAsWritten(t, frame).pendingNaT || RunFrameAsWritten(t, frame).holding != {}
  {
    var xs := Inputs(frame);
    var bs := Blanks(frame);
    var a0 := NaTWork(Start(t), {}, false);
    assert xs[r] == ReadRow(frame.columns, r, frame.rows[r]);
    if xs[r].course.courseId !in t.courses {
      PendingNaTPersists(a0, xs, bs, r, |frame.rows|);
    } else {
      forall q | r < q < |frame.rows| && xs[q].Upsert?
        ensures xs[q].course.courseId != xs[r].course.courseId
      {
        assert xs[q] == ReadRow(frame.columns, q, frame.rows[q]);
      }
      HoldingPersists(a0, xs, bs, r, |frame.rows|);
    }
  }

  /** As written, a blank Inicio or Final cell in an upserted row makes the
      whole import fail when its id is new, or when no later row carries
      the same loaded id: nothing is stored and the save error is reported. */
  lemma BlankDateFailsImport(t: Tables, sh: Sheet, parseDate: Cell -> Option<Stamp>, frame: Sheet, r: nat)
    requires WellFormed(sh) && ValidateSpec(sh, parseDate) == Checked(frame, [])
    requires RowsOk(frame) && LastBlankDate(t, frame, r)
    ensures ImportAsWritten(t, Loaded(sh), parseDate).1 == t
    ensures var s := ImportAsWritten(t, Loaded(sh), parseDate).0;
      |s.errors| > 0 && s.errors[|s.errors| - 1] == CommitFailed
  {
    BlankDateLeavesNaT(t, frame, r);
    ImportAsWrittenOfChecked(t, sh, parseDate, frame);
    var a := RunFrameAsWritten(t, frame);
    var res := FinishAsWritten(t, a);
    assert res.1 == t && |res.0.errors| > 0 && res.0.errors[|res.0.errors| - 1] == CommitFailed;
  }

  lemma ImportAsWrittenOfChecked(t: Tables, sh: Sheet, parseDate: Cell -> Option<Stamp>, frame: Sheet)
    requires WellFormed(sh) && ValidateSpec(sh, parseDate) == Checked(frame, []) && RowsOk(frame)
    ensures ImportAsWritten(t, Loaded(sh), parseDate) == FinishAsWritten(t, RunFrameAsWritten(t, frame))
  {
  }

  /** As intended, a blank date keeps the stored date of a loaded course,
      and the dates of a row never decide whether the commit succeeds. */
  lemma BlankDateKeepsStored(w: Work, val: Course)
    ensures val.courseId in w.courses && val.inicio.None? ==>
      CourseStep(w, val).courses[val.courseId].inicio == w.courses[val.courseId].inicio
    ensures val.courseId in w.courses && val.final.None? ==>
      CourseStep(w, val).courses[val.courseId].final == w.courses[val.courseId].final
    ensures val.courseId in w.courses ==> CommitOk(CourseStep(w, val)) == CommitOk(w)
    ensures CommitOk(CourseStep(w, val)) == CommitOk(CourseStep(w, val.(inicio := None, final := None)))
  {
    var w1 := CourseStep(w, val);
    var w2 := CourseStep(w, val.(inicio := None, final := None));
    if val.courseId !in w.courses {
      assert CourseIds(w1.newCourses) == CourseIds(w2.newCourses);
    }
  }
}
