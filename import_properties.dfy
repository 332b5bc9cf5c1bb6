/**
 * What the schedule importer (lib/io_excel.py) guarantees across a whole
 * run: the abort paths write nothing, the loop keeps the key columns of the
 * store, a successful commit keeps the store's constraints, the two ways a
 * sheet makes the commit fail, and that importing the same sheet twice
 * changes nothing the second time.
 */
module ImportProperties {
  import opened Wrappers
  import opened Dates
  import opened Cells
  import opened Models
  import opened Validators
  import opened IoExcel

  // ---------------------------------------------------------------------
  // the abort paths

  /** A workbook that cannot be read gives one error, zero counters and no write. */
  lemma UnreadableWritesNothing(t: Tables, reason: string, parseDate: Cell -> Option<Stamp>)
    ensures ImportSpec(t, Unreadable(reason), parseDate).1 == t
    ensures ImportSpec(t, Unreadable(reason), parseDate).0 == Summary(0, 0, 0, 0, [ReadFailed(reason)])
  {
  }

  /** A sheet the validator rejects or finds fault with gives its errors,
      zero counters and no write. */
  lemma InvalidWritesNothing(t: Tables, sh: Sheet, parseDate: Cell -> Option<Stamp>)
    requires WellFormed(sh)
    requires ValidateSpec(sh, parseDate).errors != []
    ensures ImportSpec(t, Loaded(sh), parseDate).1 == t
    ensures ImportSpec(t, Loaded(sh), parseDate).0 == Summary(0, 0, 0, 0, Wrap(ValidateSpec(sh, parseDate).errors))
  {
  }

  /** A failed commit rolls everything back, adds one error and keeps the counters. */
  lemma FailedCommitKeepsCounters(t: Tables, sh: Sheet, parseDate: Cell -> Option<Stamp>)
    requires WellFormed(sh)
    requires ValidateSpec(sh, parseDate).Checked? && ValidateSpec(sh, parseDate).errors == []
    requires !CommitOk(RunAll(t, ValidateSpec(sh, parseDate).frame))
    ensures ImportSpec(t, Loaded(sh), parseDate).1 == t
    ensures ImportSpec(t, Loaded(sh), parseDate).0
      == RunAll(t, ValidateSpec(sh, parseDate).frame).summary.(errors := RunAll(t, ValidateSpec(sh, parseDate).frame).summary.errors + [CommitFailed])
  {
  }

  /** The row loop over a whole validated frame. */
  function RunAll(t: Tables, frame: Sheet): Work
    requires WellFormed(frame)
  {
    WellFormedRowsOk(frame);
    Run(Start(t), Inputs(frame), |frame.rows|)
  }

  // ---------------------------------------------------------------------
  // what the row loop keeps

  /** Two source tables that differ at most in `orientacion_fuente`. */
  predicate SameSourceKeys(a: seq<CourseSource>, b: seq<CourseSource>) {
    |a| == |b| && forall i :: 0 <= i < |a| ==> a[i].(orientacionFuente := b[i].orientacionFuente) == b[i]
  }

  /** The lookup reads only the key columns. */
  lemma {:induction false} MatchingKeys(a: seq<CourseSource>, b: seq<CourseSource>, p: PendingSource)
    requires SameSourceKeys(a, b)
    ensures Matching(a, p) == Matching(b, p)
    decreases |a|
  {
    if a != [] {
      var n := |a| - 1;
      assert a[n].(orientacionFuente := b[n].orientacionFuente) == b[n];
      MatchingKeys(a[..n], b[..n], p);
    }
  }

  /** What the row loop keeps of the store `t`: the loaded course ids, the
      key columns of every loaded source, inserts queued only for ids the
      store lacks, and one count per queued insert. */
  predicate Shaped(t: Tables, w: Work) {
    w.courses.Keys == t.courses.Keys
    && (CoursesKeyed(t.courses) ==> CoursesKeyed(w.courses))
    && SameSourceKeys(w.sources, t.sources)
    && w.summary.createdCourses == |w.newCourses|
    && w.summary.createdSources == |w.newSources|
    && (forall i :: 0 <= i < |w.newCourses| ==> w.newCourses[i].courseId !in t.courses)
  }

  lemma CourseStepShaped(t: Tables, w: Work, val: Course)
    requires Shaped(t, w)
    ensures Shaped(t, CourseStep(w, val))
  {
    CourseStepEffect(w, val);
  }

  lemma SourceStepShaped(t: Tables, w: Work, idx: nat, p: PendingSource)
    requires Shaped(t, w)
    ensures Shaped(t, SourceStep(w, idx, p))
  {
    SourceStepEffect(w, idx, p);
    var w2 := SourceStep(w, idx, p);
    forall i | 0 <= i < |w2.sources|
      ensures w2.sources[i].(orientacionFuente := t.sources[i].orientacionFuente) == t.sources[i]
    {
      assert w2.sources[i].(orientacionFuente := w.sources[i].orientacionFuente) == w.sources[i];
      assert w.sources[i].(orientacionFuente := t.sources[i].orientacionFuente) == t.sources[i];
    }
  }

  lemma RowStepShaped(t: Tables, w: Work, idx: nat, x: RowInput)
    requires Shaped(t, w)
    ensures Shaped(t, RowStep(w, idx, x))
  {
    if x.Upsert? {
      CourseStepShaped(t, w, x.course);
      SourceStepShaped(t, CourseStep(w, x.course), idx, x.source);
    }
  }

  /** The row loop keeps the shape of the store at every row. */
  lemma {:induction false} RunShape(t: Tables, xs: seq<RowInput>, n: nat)
    requires n <= |xs|
    ensures Shaped(t, Run(Start(t), xs, n))
    decreases n
  {
    if n > 0 {
      var m := n - 1;
      RunShape(t, xs, m);
      RunNext(Start(t), xs, m);
      RowStepShaped(t, Run(Start(t), xs, m), m, xs[m]);
    }
  }

  // ---------------------------------------------------------------------
  // the commit keeps the constraints

  lemma SourceIdsOfKeys(a: seq<CourseSource>, b: seq<CourseSource>)
    requires SameSourceKeys(a, b)
    ensures SourceIds(a) == SourceIds(b)
  {
    assert forall i :: 0 <= i < |a| ==> a[i].id == a[i].(orientacionFuente := b[i].orientacionFuente).id;
  }

  /** Appending rows with fresh, consecutive ids keeps the ids distinct. */
  lemma FreshIdsDistinct(loaded: seq<CourseSource>, ps: seq<PendingSource>)
    requires Distinct(SourceIds(loaded))
    ensures Distinct(SourceIds(loaded + Assign(ps, NextId(SourceIds(loaded)))))
  {
    var first := NextId(SourceIds(loaded));
    var all := loaded + Assign(ps, first);
    var ids := SourceIds(all);
    forall i, j | 0 <= i < j < |ids| ensures ids[i] != ids[j] {
      if j < |loaded| {
        assert ids[i] == SourceIds(loaded)[i] && ids[j] == SourceIds(loaded)[j];
      } else if i < |loaded| {
        assert ids[i] == SourceIds(loaded)[i];
        assert ids[j] == first + (j - |loaded|);
      } else {
        assert ids[i] == first + (i - |loaded|) && ids[j] == first + (j - |loaded|);
      }
    }
  }

  /** A successful commit leaves a store that satisfies every enforced constraint. */
  lemma CommitKeepsConstraints(t: Tables, frame: Sheet)
    requires WellFormed(frame) && Constraints(t)
    requires CommitOk(RunAll(t, frame))
    ensures Constraints(Committed(t, RunAll(t, frame)))
  {
    WellFormedRowsOk(frame);
    var w := RunAll(t, frame);
    RunShape(t, Inputs(frame), |frame.rows|);
    SourceIdsOfKeys(w.sources, t.sources);
    FreshIdsDistinct(w.sources, w.newSources);
    var c := FinalCourses(w);
    forall k | k in c ensures c[k].courseId == k {
      if k in CourseMap(w.newCourses) {
        assert c[k] == CourseMap(w.newCourses)[k];
      }
    }
  }

  // ---------------------------------------------------------------------
  // two new rows with one id: a pending insert is invisible to `session.get`

  /** The row's normalised id is `k`. */
  predicate HasId(columns: seq<string>, row: seq<Cell>, k: string)
    requires RowOk(columns, row)
  {
    !EmptyRowId(columns, row) && RowId(columns, row).value == k
  }

  function CountId(cs: seq<Course>, k: string): nat
    decreases |cs|
  {
    if cs == [] then 0 else CountId(cs[..|cs| - 1], k) + (if cs[|cs| - 1].courseId == k then 1 else 0)
  }

  /** The number of the first `n` rows that carry id `k`. */
  function RowsWithId(xs: seq<RowInput>, n: nat, k: string): nat
    requires n <= |xs|
    decreases n
  {
    if n == 0 then 0
    else RowsWithId(xs, n - 1, k) + (if xs[n - 1].Upsert? && xs[n - 1].course.courseId == k then 1 else 0)
  }

  lemma CountIdAppend(cs: seq<Course>, c: Course, k: string)
    ensures CountId(cs + [c], k) == CountId(cs, k) + (if c.courseId == k then 1 else 0)
  {
    assert (cs + [c])[..|cs|] == cs;
  }

  /** What one row appends to the pending courses. */
  lemma RowStepNewCourses(w: Work, idx: nat, x: RowInput)
    ensures RowStep(w, idx, x).newCourses ==
      if x.Upsert? && x.course.courseId !in w.courses then w.newCourses + [x.course] else w.newCourses
  {
    if x.Upsert? {
      CourseStepEffect(w, x.course);
    }
  }

  lemma RunCourseKeys(t: Tables, xs: seq<RowInput>, n: nat)
    requires n <= |xs|
    ensures Run(Start(t), xs, n).courses.Keys == t.courses.Keys
  {
    RunShape(t, xs, n);
  }

  /** A row queues id `k` once when it carries `k` and the store lacks it. */
  lemma RowStepCountId(w: Work, idx: nat, x: RowInput, k: string)
    requires k !in w.courses
    ensures CountId(RowStep(w, idx, x).newCourses, k)
      == CountId(w.newCourses, k) + (if x.Upsert? && x.course.courseId == k then 1 else 0)
  {
    RowStepNewCourses(w, idx, x);
    if x.Upsert? && x.course.courseId !in w.courses {
      CountIdAppend(w.newCourses, x.course, k);
    }
  }

  /** An id the store lacks is queued once for every row that carries it. */
  lemma {:induction false} QueuedCourses(t: Tables, xs: seq<RowInput>, n: nat, k: string)
    requires n <= |xs| && k !in t.courses
    ensures CountId(Run(Start(t), xs, n).newCourses, k) == RowsWithId(xs, n, k)
    decreases n
  {
    if n > 0 {
      var m := n - 1;
      QueuedCourses(t, xs, m, k);
      RunCourseKeys(t, xs, m);
      RunNext(Start(t), xs, m);
      RowStepCountId(Run(Start(t), xs, m), m, xs[m], k);
    }
  }

  lemma {:induction false} RowsWithIdCounts(xs: seq<RowInput>, n: nat, k: string, r1: nat, r2: nat)
    requires r1 < r2 < |xs| && n <= |xs|
    requires xs[r1].Upsert? && xs[r1].course.courseId == k
    requires xs[r2].Upsert? && xs[r2].course.courseId == k
    ensures RowsWithId(xs, n, k) >= (if r1 < n then 1 else 0) + (if r2 < n then 1 else 0)
    decreases n
  {
    if n > 0 {
      RowsWithIdCounts(xs, n - 1, k, r1, r2);
    }
  }

  lemma {:induction false} CountIdWitness(cs: seq<Course>, k: string) returns (i: nat)
    requires CountId(cs, k) >= 1
    ensures i < |cs| && cs[i].courseId == k
    decreases |cs|
  {
    if cs[|cs| - 1].courseId == k {
      i := |cs| - 1;
    } else {
      i := CountIdWitness(cs[..|cs| - 1], k);
    }
  }

  lemma {:induction false} CountTwiceNotDistinct(cs: seq<Course>, k: string)
    requires CountId(cs, k) >= 2
    ensures !Distinct(CourseIds(cs))
    decreases |cs|
  {
    var init := cs[..|cs| - 1];
    assert forall i :: 0 <= i < |init| ==> CourseIds(init)[i] == CourseIds(cs)[i];
    if cs[|cs| - 1].courseId == k {
      var i := CountIdWitness(init, k);
      assert CourseIds(cs)[i] == CourseIds(cs)[|cs| - 1];
    } else {
      CountTwiceNotDistinct(init, k);
    }
  }

  /** Two rows that bring the same new MateriaID both queue a course with it,
      so the commit fails and the whole import is rolled back. */
  lemma DuplicateNewIdFailsCommit(t: Tables, frame: Sheet, k: string, r1: nat, r2: nat)
    requires WellFormed(frame) && r1 < r2 < |frame.rows|
    requires HasId(frame.columns, frame.rows[r1], k) && HasId(frame.columns, frame.rows[r2], k)
    requires k !in t.courses
    ensures !CommitOk(RunAll(t, frame))
  {
    WellFormedRowsOk(frame);
    var xs := Inputs(frame);
    QueuedCourses(t, xs, |xs|, k);
    RowsWithIdCounts(xs, |xs|, k, r1, r2);
    CountTwiceNotDistinct(RunAll(t, frame).newCourses, k);
  }

  // ---------------------------------------------------------------------
  // a changed Módulo: the lookup key is not the unique key

  /** `a` is a prefix of `b`. */
  predicate Prefix<T(==)>(a: seq<T>, b: seq<T>) {
    |a| <= |b| && forall q :: 0 <= q < |a| ==> a[q] == b[q]
  }

  /** What one row appends to the pending sources. */
  lemma RowStepNewSources(w: Work, idx: nat, x: RowInput)
    ensures RowStep(w, idx, x).newSources ==
      if x.Upsert? && Matching(w.sources, x.source) == [] then w.newSources + [x.source] else w.newSources
  {
    if x.Upsert? {
      SourceStepEffect(CourseStep(w, x.course), idx, x.source);
    }
  }

  /** Pending sources are only ever appended. */
  lemma {:induction false} NewSourcesGrow(t: Tables, xs: seq<RowInput>, n: nat, m: nat)
    requires n <= m <= |xs|
    ensures Prefix(Run(Start(t), xs, n).newSources, Run(Start(t), xs, m).newSources)
    decreases m
  {
    if n < m {
      NewSourcesGrow(t, xs, n, m - 1);
      RowStepNewSources(Run(Start(t), xs, m - 1), m - 1, xs[m - 1]);
    }
  }

  /** In a store that keeps `uq_course_source`, a row that shares course,
      tab and sheet row with a stored source but not its module finds no match. */
  lemma NoMatchForOtherModule(t: Tables, p: PendingSource, i: nat)
    requires Constraints(t) && i < |t.sources|
    requires t.sources[i].courseId == p.courseId && p.solapa.Some? && t.sources[i].solapa == p.solapa
    requires t.sources[i].rowFuente == Some(p.rowFuente) && t.sources[i].modulo != p.modulo
    ensures Matching(t.sources, p) == []
  {
    var m := Matching(t.sources, p);
    if m != [] {
      var j := m[0];
      assert KeyMatch(t.sources[j], p);
      if i < j {
        assert SourceClash(t.sources[i], t.sources[j]);
      } else {
        assert SourceClash(t.sources[j], t.sources[i]);
      }
    }
  }

  /** A row the lookup does not find ends up among the pending sources. */
  lemma QueuedWhenUnmatched(t: Tables, xs: seq<RowInput>, r: nat) returns (q: nat)
    requires r < |xs| && xs[r].Upsert? && Matching(t.sources, xs[r].source) == []
    ensures q < |Run(Start(t), xs, |xs|).newSources| && Run(Start(t), xs, |xs|).newSources[q] == xs[r].source
  {
    var wr := Run(Start(t), xs, r);
    RunShape(t, xs, r);
    MatchingKeys(wr.sources, t.sources, xs[r].source);
    RowStepNewSources(wr, r, xs[r]);
    NewSourcesGrow(t, xs, r + 1, |xs|);
    q := |wr.newSources|;
  }

  /** A pending source whose unique key is that of a loaded one breaks the commit. */
  lemma PendingClashFailsCommit(t: Tables, w: Work, i: nat, q: nat)
    requires SameSourceKeys(w.sources, t.sources) && i < |t.sources| && q < |w.newSources|
    requires var p := w.newSources[q];
      t.sources[i].courseId == p.courseId && p.solapa.Some? && t.sources[i].solapa == p.solapa
      && t.sources[i].rowFuente == Some(p.rowFuente)
    ensures !SourcesUnique(FinalSources(w))
  {
    var f := FinalSources(w);
    var k := |w.sources| + q;
    assert f[k] == Assign(w.newSources, NextId(SourceIds(w.sources)))[q];
    assert w.sources[i].(orientacionFuente := t.sources[i].orientacionFuente) == t.sources[i];
    assert f[i] == w.sources[i];
    assert SourceClash(f[i], f[k]);
  }

  /** A row whose course, tab and sheet row match a stored source but whose
      Módulo differs is not found by the lookup, so a second source is queued;
      it violates `uq_course_source` with the stored one and the commit fails. */
  lemma ModuleChangeFailsCommit(t: Tables, frame: Sheet, r: nat, i: nat)
    requires WellFormed(frame) && Constraints(t) && r < |frame.rows|
    requires !EmptyRowId(frame.columns, frame.rows[r])
    requires var p := RowSource(RowId(frame.columns, frame.rows[r]).value, frame.columns, r, frame.rows[r]);
      i < |t.sources| && t.sources[i].courseId == p.courseId && p.solapa.Some? && t.sources[i].solapa == p.solapa
      && t.sources[i].rowFuente == Some(p.rowFuente) && t.sources[i].modulo != p.modulo
    ensures !CommitOk(RunAll(t, frame))
  {
    WellFormedRowsOk(frame);
    var xs := Inputs(frame);
    NoMatchForOtherModule(t, xs[r].source, i);
    var q := QueuedWhenUnmatched(t, xs, r);
    RunShape(t, xs, |xs|);
    PendingClashFailsCommit(t, RunAll(t, frame), i, q);
  }
}
