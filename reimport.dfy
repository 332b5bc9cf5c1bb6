/**
 * Importing the same sheet twice (lib/io_excel.py): when the first import
 * reports no error and rows that share a MateriaID describe the same course,
 * the second import creates nothing, updates nothing and leaves the store as
 * the first one left it.
 */
module Reimport {
  import opened Wrappers
  import opened Dates
  import opened Cells
  import opened Models
  import opened Validators
  import opened IoExcel
  import opened ImportProperties

  /** Every row's source carries its sheet row, as `ReadRow` numbers them. */
  predicate Numbered(xs: seq<RowInput>) {
    forall r :: 0 <= r < |xs| && xs[r].Upsert? ==> xs[r].source.rowFuente == r + 2
  }

  /** Rows that share an id describe the same course. */
  predicate ConsistentIds(xs: seq<RowInput>) {
    forall r1, r2 :: 0 <= r1 < |xs| && 0 <= r2 < |xs| && xs[r1].Upsert? && xs[r2].Upsert?
      && xs[r1].course.courseId == xs[r2].course.courseId
      ==> xs[r1].course == xs[r2].course
  }

  lemma InputsNumbered(frame: Sheet)
    requires RowsOk(frame)
    ensures Numbered(Inputs(frame))
  {
  }

  // ---------------------------------------------------------------------
  // a run without errors

  lemma RowStepErrors(w: Work, idx: nat, x: RowInput)
    ensures |RowStep(w, idx, x).summary.errors| >= |w.summary.errors|
    ensures x.Skip? || |Matching(w.sources, x.source)| >= 2 ==>
      |RowStep(w, idx, x).summary.errors| > |w.summary.errors|
  {
    if x.Upsert? {
      SourceStepEffect(CourseStep(w, x.course), idx, x.source);
    }
  }

  lemma {:induction false} ErrorsGrow(t: Tables, xs: seq<RowInput>, n: nat, m: nat)
    requires n <= m <= |xs|
    ensures |Run(Start(t), xs, n).summary.errors| <= |Run(Start(t), xs, m).summary.errors|
    decreases m
  {
    if n < m {
      ErrorsGrow(t, xs, n, m - 1);
      RowStepErrors(Run(Start(t), xs, m - 1), m - 1, xs[m - 1]);
    }
  }

  /** At most one stored source has the lookup key of `p`. */
  predicate AtMostOneMatch(sources: seq<CourseSource>, p: PendingSource) {
    forall j1, j2 :: 0 <= j1 < |sources| && 0 <= j2 < |sources| && KeyMatch(sources[j1], p) && KeyMatch(sources[j2], p)
      ==> j1 == j2
  }

  lemma AtMostOneMatching(sources: seq<CourseSource>, p: PendingSource)
    ensures AtMostOneMatch(sources, p) <==> |Matching(sources, p)| <= 1
  {
    var m := Matching(sources, p);
    if |m| >= 2 {
      assert m[0] < m[1];
    }
  }

  /** Every row has an id and at most one stored source with its lookup key. */
  predicate Clean(t: Tables, xs: seq<RowInput>) {
    forall r :: 0 <= r < |xs| ==> xs[r].Upsert? && AtMostOneMatch(t.sources, xs[r].source)
  }

  /** A run that reports no error met neither an empty id nor an ambiguous source. */
  lemma NoErrorsClean(t: Tables, xs: seq<RowInput>)
    requires Run(Start(t), xs, |xs|).summary.errors == []
    ensures Clean(t, xs)
  {
    forall r | 0 <= r < |xs| ensures xs[r].Upsert? && AtMostOneMatch(t.sources, xs[r].source) {
      var w := Run(Start(t), xs, r);
      RunShape(t, xs, r);
      RowStepErrors(w, r, xs[r]);
      ErrorsGrow(t, xs, r + 1, |xs|);
      if xs[r].Upsert? {
        MatchingKeys(w.sources, t.sources, xs[r].source);
        AtMostOneMatching(t.sources, xs[r].source);
      }
    }
  }

  // ---------------------------------------------------------------------
  // the courses after the first run

  /** Every row seen so far finds its course, agreeing with all its values. */
  predicate CoursesRecorded(xs: seq<RowInput>, n: nat, fc: map<string, Course>)
    requires n <= |xs|
  {
    forall r :: 0 <= r < n && xs[r].Upsert? ==>
      xs[r].course.courseId in fc && Agrees(fc[xs[r].course.courseId], xs[r].course)
  }

  lemma CourseMapAppend(cs: seq<Course>, c: Course)
    ensures CourseMap(cs + [c]) == CourseMap(cs)[c.courseId := c]
  {
    assert (cs + [c])[..|cs|] == cs;
  }

  lemma UnionUpdateLeft(a: map<string, Course>, b: map<string, Course>, k: string, v: Course)
    requires k !in b
    ensures a[k := v] + b == (a + b)[k := v]
  {
  }

  lemma UnionUpdateRight(a: map<string, Course>, b: map<string, Course>, k: string, v: Course)
    ensures a + b[k := v] == (a + b)[k := v]
  {
  }

  /** The course upsert sets its id in the committed courses to a value
      agreeing with the row. */
  lemma FinalCoursesCourseStep(t: Tables, w: Work, c: Course) returns (v: Course)
    requires Shaped(t, w)
    ensures FinalCourses(CourseStep(w, c)) == FinalCourses(w)[c.courseId := v] && Agrees(v, c)
  {
    var k := c.courseId;
    CourseStepEffect(w, c);
    if k in w.courses {
      assert forall i :: 0 <= i < |w.newCourses| ==> CourseIds(w.newCourses)[i] != k;
      v := Overlay(w.courses[k], c);
      UnionUpdateLeft(w.courses, CourseMap(w.newCourses), k, v);
    } else {
      v := c;
      CourseMapAppend(w.newCourses, c);
      UnionUpdateRight(w.courses, CourseMap(w.newCourses), k, v);
    }
  }

  /** Setting the id of row `n` to a value agreeing with it keeps every
      earlier row recorded, since rows sharing that id carry the same course. */
  lemma RecordedUpdate(xs: seq<RowInput>, n: nat, f: map<string, Course>, v: Course)
    requires ConsistentIds(xs) && n < |xs| && xs[n].Upsert?
    requires CoursesRecorded(xs, n, f) && Agrees(v, xs[n].course)
    ensures CoursesRecorded(xs, n + 1, f[xs[n].course.courseId := v])
  {
  }

  /** Only the course upsert of a row touches the courses. */
  lemma RowStepCourses(w: Work, idx: nat, x: RowInput)
    ensures x.Skip? ==> FinalCourses(RowStep(w, idx, x)) == FinalCourses(w)
    ensures x.Upsert? ==> FinalCourses(RowStep(w, idx, x)) == FinalCourses(CourseStep(w, x.course))
  {
  }

  /** One more row keeps every row seen so far recorded. */
  lemma RecordedStep(t: Tables, xs: seq<RowInput>, n: nat, w: Work)
    requires ConsistentIds(xs) && n < |xs| && Shaped(t, w)
    requires CoursesRecorded(xs, n, FinalCourses(w))
    ensures CoursesRecorded(xs, n + 1, FinalCourses(RowStep(w, n, xs[n])))
  {
    var x := xs[n];
    RowStepCourses(w, n, x);
    if x.Upsert? {
      var v := FinalCoursesCourseStep(t, w, x.course);
      RecordedUpdate(xs, n, FinalCourses(w), v);
    }
  }

  lemma {:induction false} CoursesRun(t: Tables, xs: seq<RowInput>, n: nat)
    requires ConsistentIds(xs) && n <= |xs|
    ensures CoursesRecorded(xs, n, FinalCourses(Run(Start(t), xs, n)))
    decreases n
  {
    if n > 0 {
      var m := n - 1;
      CoursesRun(t, xs, m);
      RunShape(t, xs, m);
      RunNext(Start(t), xs, m);
      RecordedStep(t, xs, m, Run(Start(t), xs, m));
    }
  }

  // ---------------------------------------------------------------------
  // the sources after the first run

  /** The pending sources so far: each is the source of an earlier row the
      lookup did not find, in row order. */
  predicate PendingFrom(t: Tables, xs: seq<RowInput>, n: nat, ps: seq<PendingSource>)
    requires n <= |xs|
  {
    (forall q :: 0 <= q < |ps| ==>
      2 <= ps[q].rowFuente < n + 2 && xs[ps[q].rowFuente - 2].Upsert?
      && xs[ps[q].rowFuente - 2].source == ps[q] && Matching(t.sources, ps[q]) == [])
    && (forall q1, q2 :: 0 <= q1 < q2 < |ps| ==> ps[q1].rowFuente < ps[q2].rowFuente)
  }

  lemma PendingStep(t: Tables, xs: seq<RowInput>, n: nat, w: Work)
    requires Numbered(xs) && n < |xs| && Shaped(t, w)
    requires PendingFrom(t, xs, n, w.newSources)
    ensures PendingFrom(t, xs, n + 1, RowStep(w, n, xs[n]).newSources)
  {
    var x := xs[n];
    var ps := w.newSources;
    RowStepNewSources(w, n, x);
    if x.Upsert? && Matching(w.sources, x.source) == [] {
      MatchingKeys(w.sources, t.sources, x.source);
      PendingAppend(t, xs, n, ps);
    } else {
      assert RowStep(w, n, x).newSources == ps;
      PendingLater(t, xs, n, ps);
    }
  }

  lemma PendingLater(t: Tables, xs: seq<RowInput>, n: nat, ps: seq<PendingSource>)
    requires n < |xs| && PendingFrom(t, xs, n, ps)
    ensures PendingFrom(t, xs, n + 1, ps)
  {
  }

  lemma PendingAppend(t: Tables, xs: seq<RowInput>, n: nat, ps: seq<PendingSource>)
    requires Numbered(xs) && n < |xs| && PendingFrom(t, xs, n, ps)
    requires xs[n].Upsert? && Matching(t.sources, xs[n].source) == []
    ensures PendingFrom(t, xs, n + 1, ps + [xs[n].source])
  {
    var ps' := ps + [xs[n].source];
    assert xs[n].source.rowFuente == n + 2;
    forall q | 0 <= q < |ps'|
      ensures 2 <= ps'[q].rowFuente < n + 3 && xs[ps'[q].rowFuente - 2].Upsert?
        && xs[ps'[q].rowFuente - 2].source == ps'[q] && Matching(t.sources, ps'[q]) == []
    {
      if q < |ps| {
        assert ps'[q] == ps[q];
      }
    }
    forall q1, q2 | 0 <= q1 < q2 < |ps'| ensures ps'[q1].rowFuente < ps'[q2].rowFuente {
      if q2 < |ps| {
        assert ps'[q1] == ps[q1] && ps'[q2] == ps[q2];
      } else {
        assert ps'[q1] == ps[q1];
      }
    }
  }

  lemma {:induction false} PendingRun(t: Tables, xs: seq<RowInput>, n: nat)
    requires Numbered(xs) && n <= |xs|
    ensures PendingFrom(t, xs, n, Run(Start(t), xs, n).newSources)
    decreases n
  {
    if n > 0 {
      var m := n - 1;
      PendingRun(t, xs, m);
      RunShape(t, xs, m);
      RunNext(Start(t), xs, m);
      PendingStep(t, xs, m, Run(Start(t), xs, m));
    }
  }

  /** Every stored source that a row seen so far looked up agrees with that
      row's orientation. */
  predicate LoadedFit(t: Tables, xs: seq<RowInput>, n: nat, srcs: seq<CourseSource>)
    requires n <= |xs|
  {
    |srcs| == |t.sources|
    && forall r, j :: 0 <= r < n && 0 <= j < |t.sources| && xs[r].Upsert? && KeyMatch(t.sources[j], xs[r].source) ==>
      Fits(srcs[j].orientacionFuente, xs[r].source.orientacion)
  }

  /** The one source a lookup finds ends up agreeing with the row's orientation. */
  lemma SourceStepFits(w: Work, idx: nat, p: PendingSource)
    requires |Matching(w.sources, p)| == 1
    ensures Fits(SourceStep(w, idx, p).sources[Matching(w.sources, p)[0]].orientacionFuente, p.orientacion)
  {
  }

  /** Row `n` keeps every stored source a row up to it looked up in agreement. */
  lemma LoadedFitStep(t: Tables, xs: seq<RowInput>, n: nat, w: Work)
    requires Numbered(xs) && n < |xs| && Shaped(t, w)
    requires xs[n].Upsert? ==> AtMostOneMatch(t.sources, xs[n].source)
    requires LoadedFit(t, xs, n, w.sources)
    ensures LoadedFit(t, xs, n + 1, RowStep(w, n, xs[n]).sources)
  {
    var x := xs[n];
    if x.Upsert? {
      var w1 := CourseStep(w, x.course);
      var p := x.source;
      MatchingKeys(w1.sources, t.sources, p);
      SourceStepEffect(w1, n, p);
      var srcs := SourceStep(w1, n, p).sources;
      forall r, j | 0 <= r < n + 1 && 0 <= j < |t.sources| && xs[r].Upsert? && KeyMatch(t.sources[j], xs[r].source)
        ensures Fits(srcs[j].orientacionFuente, xs[r].source.orientacion)
      {
        assert w.sources[j].(orientacionFuente := t.sources[j].orientacionFuente) == t.sources[j];
        if r == n {
          assert j in Matching(t.sources, p);
          AtMostOneMatching(t.sources, p);
          SourceStepFits(w1, n, p);
        }
      }
    }
  }

  lemma LoadedFitNext(t: Tables, xs: seq<RowInput>, m: nat)
    requires Numbered(xs) && Clean(t, xs) && m < |xs|
    requires LoadedFit(t, xs, m, Run(Start(t), xs, m).sources)
    ensures LoadedFit(t, xs, m + 1, Run(Start(t), xs, m + 1).sources)
  {
    RunShape(t, xs, m);
    RunNext(Start(t), xs, m);
    LoadedFitStep(t, xs, m, Run(Start(t), xs, m));
  }

  lemma {:induction false} LoadedFitRun(t: Tables, xs: seq<RowInput>, n: nat)
    requires Numbered(xs) && Clean(t, xs) && n <= |xs|
    ensures LoadedFit(t, xs, n, Run(Start(t), xs, n).sources)
    decreases n
  {
    if n > 0 {
      var m := n - 1;
      LoadedFitRun(t, xs, m);
      LoadedFitNext(t, xs, m);
      assert m + 1 == n;
    }
  }

  // ---------------------------------------------------------------------
  // every row looks up exactly one committed source

  /** A lookup whose key only the source at `i` has returns just `i`. */
  lemma ExactlyOneMatch(sources: seq<CourseSource>, p: PendingSource, i: nat)
    requires i < |sources| && KeyMatch(sources[i], p)
    requires forall i' :: 0 <= i' < |sources| && KeyMatch(sources[i'], p) ==> i' == i
    ensures Matching(sources, p) == [i]
  {
    AtMostOneMatching(sources, p);
    assert i in Matching(sources, p);
  }

  lemma KeyMatchKeys(a: CourseSource, b: CourseSource, p: PendingSource)
    requires a.(orientacionFuente := b.orientacionFuente) == b
    ensures KeyMatch(a, p) == KeyMatch(b, p)
  {
  }

  /** What the committed sources are made of: the loaded rows with their
      keys unchanged, then the pending ones. */
  lemma FinalSourcesParts(t: Tables, w: Work, p: PendingSource)
    requires SameSourceKeys(w.sources, t.sources)
    ensures var f := FinalSources(w);
      |f| == |t.sources| + |w.newSources|
      && (forall i :: 0 <= i < |t.sources| ==> f[i] == w.sources[i] && KeyMatch(f[i], p) == KeyMatch(t.sources[i], p))
      && (forall q :: 0 <= q < |w.newSources| ==>
            KeyMatch(f[|t.sources| + q], p) == (w.newSources[q].courseId == p.courseId && w.newSources[q].solapa == p.solapa
              && w.newSources[q].modulo == p.modulo && w.newSources[q].rowFuente == p.rowFuente)
            && f[|t.sources| + q].orientacionFuente == w.newSources[q].orientacion)
  {
    var f := FinalSources(w);
    forall i | 0 <= i < |t.sources| ensures f[i] == w.sources[i] && KeyMatch(f[i], p) == KeyMatch(t.sources[i], p) {
      KeyMatchKeys(w.sources[i], t.sources[i], p);
    }
    forall q | 0 <= q < |w.newSources| ensures f[|t.sources| + q] == Assign(w.newSources, NextId(SourceIds(w.sources)))[q] {
    }
  }

  /** A row the lookup did not find finds, once committed, just the source it queued. */
  lemma SettledNew(t: Tables, xs: seq<RowInput>, w: Work, r: nat, q: nat)
    requires Numbered(xs) && r < |xs| && xs[r].Upsert?
    requires SameSourceKeys(w.sources, t.sources) && PendingFrom(t, xs, |xs|, w.newSources)
    requires Matching(t.sources, xs[r].source) == []
    requires q < |w.newSources| && w.newSources[q] == xs[r].source
    ensures Matching(FinalSources(w), xs[r].source) == [|t.sources| + q]
    ensures FinalSources(w)[|t.sources| + q].orientacionFuente == xs[r].source.orientacion
  {
    var p := xs[r].source;
    var f := FinalSources(w);
    FinalSourcesParts(t, w, p);
    var i := |t.sources| + q;
    forall i' | 0 <= i' < |f| && KeyMatch(f[i'], p) ensures i' == i {
      if i' >= |t.sources| {
        var q' := i' - |t.sources|;
        if q' < q {
          assert false;
        } else if q < q' {
          assert false;
        }
      }
    }
    ExactlyOneMatch(f, p, i);
  }

  /** A row that found one stored source finds, once committed, just that one. */
  lemma SettledLoaded(t: Tables, xs: seq<RowInput>, w: Work, r: nat)
    requires Numbered(xs) && r < |xs| && xs[r].Upsert?
    requires SameSourceKeys(w.sources, t.sources) && PendingFrom(t, xs, |xs|, w.newSources)
    requires |Matching(t.sources, xs[r].source)| == 1
    ensures Matching(FinalSources(w), xs[r].source) == Matching(t.sources, xs[r].source)
  {
    var p := xs[r].source;
    var f := FinalSources(w);
    FinalSourcesParts(t, w, p);
    var j := Matching(t.sources, p)[0];
    forall i' | 0 <= i' < |f| && KeyMatch(f[i'], p) ensures i' == j {
      if i' < |t.sources| {
        assert i' in Matching(t.sources, p);
      }
    }
    ExactlyOneMatch(f, p, j);
  }

  // ---------------------------------------------------------------------
  // the second run

  /** The row finds its course with the same values and exactly one source,
      whose orientation already agrees. */
  predicate RowSettled(t: Tables, x: RowInput) {
    x.Upsert? && x.course.courseId in t.courses && Agrees(t.courses[x.course.courseId], x.course)
    && |Matching(t.sources, x.source)| == 1
    && Fits(t.sources[Matching(t.sources, x.source)[0]].orientacionFuente, x.source.orientacion)
  }

  predicate Settled(t: Tables, xs: seq<RowInput>) {
    forall r :: 0 <= r < |xs| ==> RowSettled(t, xs[r])
  }

  /** A row whose course and source already hold its values changes nothing. */
  lemma RowNoOp(t: Tables, w: Work, idx: nat, x: RowInput)
    requires RowSettled(t, x) && w == Start(t)
    ensures RowStep(w, idx, x) == w
  {
    var k := x.course.courseId;
    OverlayChanges(w.courses[k], x.course);
    assert w.courses[k := Overlay(w.courses[k], x.course)] == w.courses;
    assert CourseStep(w, x.course) == w;
  }

  lemma {:induction false} IdleRun(t: Tables, xs: seq<RowInput>, n: nat)
    requires Settled(t, xs) && n <= |xs|
    ensures Run(Start(t), xs, n) == Start(t)
    decreases n
  {
    if n > 0 {
      var m := n - 1;
      IdleRun(t, xs, m);
      RunNext(Start(t), xs, m);
      RowNoOp(t, Run(Start(t), xs, m), m, xs[m]);
    }
  }

  /** After a clean first run, row `r` finds exactly one committed source,
      whose orientation agrees with the row's. */
  lemma SettledRow(t: Tables, xs: seq<RowInput>, r: nat)
    requires Numbered(xs) && Clean(t, xs) && r < |xs|
    ensures var f := FinalSources(Run(Start(t), xs, |xs|));
      |Matching(f, xs[r].source)| == 1
      && Fits(f[Matching(f, xs[r].source)[0]].orientacionFuente, xs[r].source.orientacion)
  {
    var w := Run(Start(t), xs, |xs|);
    var p := xs[r].source;
    RunShape(t, xs, |xs|);
    PendingRun(t, xs, |xs|);
    AtMostOneMatching(t.sources, p);
    if Matching(t.sources, p) == [] {
      var q := QueuedWhenUnmatched(t, xs, r);
      SettledNew(t, xs, w, r, q);
    } else {
      LoadedFitRun(t, xs, |xs|);
      SettledLoaded(t, xs, w, r);
      LoadedFitCommitted(t, xs, w, r);
    }
  }

  lemma LoadedFitCommitted(t: Tables, xs: seq<RowInput>, w: Work, r: nat)
    requires r < |xs| && xs[r].Upsert? && LoadedFit(t, xs, |xs|, w.sources)
    requires |Matching(t.sources, xs[r].source)| == 1
    ensures Fits(FinalSources(w)[Matching(t.sources, xs[r].source)[0]].orientacionFuente, xs[r].source.orientacion)
  {
    var j := Matching(t.sources, xs[r].source)[0];
    assert KeyMatch(t.sources[j], xs[r].source);
    assert FinalSources(w)[j] == w.sources[j];
  }

  /** After a first run with no error over rows whose ids are consistent,
      the committed store holds every row's values. */
  lemma FirstRunSettles(t: Tables, xs: seq<RowInput>)
    requires Numbered(xs) && ConsistentIds(xs)
    requires Run(Start(t), xs, |xs|).summary.errors == []
    ensures Settled(Committed(t, Run(Start(t), xs, |xs|)), xs)
  {
    NoErrorsClean(t, xs);
    CoursesRun(t, xs, |xs|);
    forall r | 0 <= r < |xs|
      ensures var f := FinalSources(Run(Start(t), xs, |xs|));
        |Matching(f, xs[r].source)| == 1
        && Fits(f[Matching(f, xs[r].source)[0]].orientacionFuente, xs[r].source.orientacion)
    {
      SettledRow(t, xs, r);
    }
  }

  /** A validated sheet without errors goes through the row loop and the commit. */
  lemma ImportOfChecked(t: Tables, sh: Sheet, parseDate: Cell -> Option<Stamp>)
    requires WellFormed(sh)
    requires ValidateSpec(sh, parseDate).Checked? && ValidateSpec(sh, parseDate).errors == []
    ensures var w := Run(Start(t), Inputs(ValidateSpec(sh, parseDate).frame), |ValidateSpec(sh, parseDate).frame.rows|);
      ImportSpec(t, Loaded(sh), parseDate)
        == if CommitOk(w) then (w.summary, Committed(t, w)) else (w.summary.(errors := w.summary.errors + [CommitFailed]), t)
  {
  }

  /** A first import without errors ran the loop over a checked sheet and committed. */
  lemma CleanFirstImport(t: Tables, sh: Sheet, parseDate: Cell -> Option<Stamp>)
    requires WellFormed(sh)
    requires ImportSpec(t, Loaded(sh), parseDate).0.errors == []
    ensures ValidateSpec(sh, parseDate).Checked? && ValidateSpec(sh, parseDate).errors == []
    ensures var w := Run(Start(t), Inputs(ValidateSpec(sh, parseDate).frame), |ValidateSpec(sh, parseDate).frame.rows|);
      CommitOk(w) && w.summary.errors == [] && ImportSpec(t, Loaded(sh), parseDate).1 == Committed(t, w)
  {
    ImportOfChecked(t, sh, parseDate);
  }

  /** An import whose every row is already settled commits nothing new. */
  lemma SettledImport(t: Tables, sh: Sheet, parseDate: Cell -> Option<Stamp>)
    requires WellFormed(sh) && SourcesUnique(t.sources)
    requires ValidateSpec(sh, parseDate).Checked? && ValidateSpec(sh, parseDate).errors == []
    requires Settled(t, Inputs(ValidateSpec(sh, parseDate).frame))
    ensures ImportSpec(t, Loaded(sh), parseDate) == (Zero, t)
  {
    var xs := Inputs(ValidateSpec(sh, parseDate).frame);
    IdleRun(t, xs, |xs|);
    StartCommits(t);
    ImportOfChecked(t, sh, parseDate);
  }

  /** Committing a loop that found nothing to do leaves the store as it was. */
  lemma StartCommits(t: Tables)
    requires SourcesUnique(t.sources)
    ensures CommitOk(Start(t)) && Committed(t, Start(t)) == t
  {
    assert FinalSources(Start(t)) == t.sources;
    assert FinalCourses(Start(t)) == t.courses;
  }

  /** Importing, with no error, a sheet whose rows sharing a MateriaID
      describe the same course, and then importing it again: the second
      import reports nothing created, nothing updated and no error, and
      leaves the store unchanged. */
  lemma ReimportChangesNothing(t: Tables, sh: Sheet, parseDate: Cell -> Option<Stamp>)
    requires WellFormed(sh)
    requires ImportSpec(t, Loaded(sh), parseDate).0.errors == []
    requires ValidateSpec(sh, parseDate).Checked? ==> ConsistentIds(Inputs(ValidateSpec(sh, parseDate).frame))
    ensures ImportSpec(ImportSpec(t, Loaded(sh), parseDate).1, Loaded(sh), parseDate)
      == (Zero, ImportSpec(t, Loaded(sh), parseDate).1)
  {
    CleanFirstImport(t, sh, parseDate);
    var v := ValidateSpec(sh, parseDate);
    var xs := Inputs(v.frame);
    InputsNumbered(v.frame);
    FirstRunSettles(t, xs);
    SettledImport(ImportSpec(t, Loaded(sh), parseDate).1, sh, parseDate);
  }
}
