/**
 * The reports page (pages/06_Reportes.py): the demand for each course among
 * the open plans, the demand by module and starting month, the compliance
 * figures of the 5-of-8 rule, and the risk table with its level filter.
 * Every report reads one snapshot of the tables.
 */
module Reportes {
  import opened Wrappers
  import opened Dates
  import opened Models
  import opened Counter
  import Seqs
  import Metrics
  import Rutas

  const NA: string := "N/A"
  const SinModulo: string := "Sin módulo"

  // ---------------------------------------------------------------------
  // demand per course

  /** The three selections of the page; the empty string selects all. */
  datatype DemandFilter = DemandFilter(programa: string, anio: string, orientacion: string)

  /** A row of the join of plan items with their course and their plan. */
  datatype JoinRow = JoinRow(item: PlanItem, course: Course, plan: PlanVersion)

  /** The rows of `PlanVersion` an item joins with that are still open. */
  function OpenPlans(t: Tables, planId: nat): seq<PlanVersion> {
    Seqs.Filter(t.plans, (p: PlanVersion) => p.id == planId && p.hasta.None?)
  }

  function RowsFor(item: PlanItem, c: Course, ps: seq<PlanVersion>): (rs: seq<JoinRow>)
    ensures |rs| == |ps| && forall i :: 0 <= i < |ps| ==> rs[i] == JoinRow(item, c, ps[i])
  {
    seq(|ps|, i requires 0 <= i < |ps| => JoinRow(item, c, ps[i]))
  }

  /** The query of the demand report: every planned item whose course
      exists, once for each open plan it joins with, in item order. */
  function PlannedJoin(t: Tables, items: seq<PlanItem>): seq<JoinRow>
    decreases |items|
  {
    if items == [] then []
    else
      var it := items[|items| - 1];
      var init := PlannedJoin(t, items[..|items| - 1]);
      if it.estado == PlanState.Planned && it.courseId in t.courses then
        init + RowsFor(it, t.courses[it.courseId], OpenPlans(t, it.planId))
      else init
  }

  /** The conditions of the join and of the query's two filters. */
  predicate JoinsWith(t: Tables, items: seq<PlanItem>, r: JoinRow) {
    r.item in items && r.item.estado == PlanState.Planned
    && r.item.courseId in t.courses && r.course == t.courses[r.item.courseId]
    && r.plan in t.plans && r.plan.id == r.item.planId && r.plan.hasta.None?
  }

  /** The join holds a row exactly when the row meets the join's conditions. */
  lemma {:induction false} PlannedJoinExact(t: Tables, items: seq<PlanItem>, r: JoinRow)
    ensures r in PlannedJoin(t, items) <==> JoinsWith(t, items, r)
    decreases |items|
  {
    if items != [] {
      var it := items[|items| - 1];
      var init := items[..|items| - 1];
      assert items == init + [it];
      PlannedJoinExact(t, init, r);
      var p := (p: PlanVersion) => p.id == it.planId && p.hasta.None?;
      if it.estado == PlanState.Planned && it.courseId in t.courses {
        var ps := OpenPlans(t, it.planId);
        var more := RowsFor(it, t.courses[it.courseId], ps);
        assert PlannedJoin(t, items) == PlannedJoin(t, init) + more;
        Seqs.FilterMember(t.plans, p, r.plan);
        if r in more {
          var k :| 0 <= k < |more| && more[k] == r;
          assert ps[k] in ps;
        }
        if JoinsWith(t, items, r) && r.item !in init {
          var k :| 0 <= k < |ps| && ps[k] == r.plan;
          assert more[k] == r;
        }
      }
    }
  }

  /** The page's three filters, each applied only when a value is selected;
      the year is compared as `str(anio)`. */
  predicate Passes(c: Course, f: DemandFilter) {
    (f.programa == "" || c.programa == Some(f.programa))
    && (f.anio == "" || Rutas.YearText(c.anio) == f.anio)
    && (f.orientacion == "" || c.orientacion == Some(f.orientacion))
  }

  /** The course id of every row that passes the filters, in row order. */
  function DemandKeys(rs: seq<JoinRow>, f: DemandFilter): seq<string>
    decreases |rs|
  {
    if rs == [] then []
    else
      var r := rs[|rs| - 1];
      DemandKeys(rs[..|rs| - 1], f) + (if Passes(r.course, f) then [r.course.courseId] else [])
  }

  /** `course_demand` as written: one unit for every joined row that passes
      the filters, so per plan item and not per student. */
  function DemandAsWritten(t: Tables, f: DemandFilter): (d: Tally<string>)
    ensures Total(d) == |DemandKeys(PlannedJoin(t, t.items), f)|
  {
    TallyOfShape(DemandKeys(PlannedJoin(t, t.items), f));
    TallyOf(DemandKeys(PlannedJoin(t, t.items), f))
  }

  lemma {:induction false} DemandKeysCount(rs: seq<JoinRow>, f: DemandFilter, k: string)
    ensures Occurrences(DemandKeys(rs, f), k)
         == Seqs.Count(rs, (r: JoinRow) => Passes(r.course, f) && r.course.courseId == k)
    decreases |rs|
  {
    if rs != [] {
      var init := rs[..|rs| - 1];
      var r := rs[|rs| - 1];
      DemandKeysCount(init, f, k);
      assert rs == init + [r];
      var p := (r: JoinRow) => Passes(r.course, f) && r.course.courseId == k;
      Seqs.FilterAppend(init, r, p);
      assert Seqs.Filter(rs, p) == Seqs.Filter(init, p) + (if p(r) then [r] else []);
      if Passes(r.course, f) {
        assert DemandKeys(rs, f) == DemandKeys(init, f) + [r.course.courseId];
        OccurrencesAppend(DemandKeys(init, f), r.course.courseId, k);
        assert p(r) == (r.course.courseId == k);
      } else {
        assert DemandKeys(rs, f) == DemandKeys(init, f);
        assert !p(r);
      }
    }
  }

  /** As written, the count of a course is the number of joined rows of it
      that pass the filters. */
  lemma DemandAsWrittenCounts(t: Tables, f: DemandFilter, k: string)
    ensures Get(DemandAsWritten(t, f), k)
         == Seqs.Count(PlannedJoin(t, t.items), (r: JoinRow) => Passes(r.course, f) && r.course.courseId == k)
  {
    TallyOfGet(DemandKeys(PlannedJoin(t, t.items), f), k);
    DemandKeysCount(PlannedJoin(t, t.items), f, k);
  }

  /** The (student, course) pair of every row that passes the filters. */
  function Pairs(rs: seq<JoinRow>, f: DemandFilter): seq<(nat, string)>
    decreases |rs|
  {
    if rs == [] then []
    else
      var r := rs[|rs| - 1];
      Pairs(rs[..|rs| - 1], f) + (if Passes(r.course, f) then [(r.plan.studentId, r.course.courseId)] else [])
  }

  /** A pair is listed exactly when some row that passes the filters has
      that student and that course. */
  lemma {:induction false} PairsMember(rs: seq<JoinRow>, f: DemandFilter, sid: nat, k: string)
    ensures (sid, k) in Pairs(rs, f) <==> exists r :: r in rs && Passes(r.course, f) && r.plan.studentId == sid && r.course.courseId == k
    decreases |rs|
  {
    if rs != [] {
      var init := rs[..|rs| - 1];
      var r := rs[|rs| - 1];
      assert rs == init + [r];
      PairsMember(init, f, sid, k);
      if exists x :: x in rs && Passes(x.course, f) && x.plan.studentId == sid && x.course.courseId == k {
        var x :| x in rs && Passes(x.course, f) && x.plan.studentId == sid && x.course.courseId == k;
        if x != r {
          assert x in init;
        }
      }
    }
  }

  /** The first occurrence of every pair, in order. */
  function Dedup(xs: seq<(nat, string)>): (ys: seq<(nat, string)>)
    ensures forall x :: x in ys <==> x in xs
    decreases |xs|
  {
    if xs == [] then []
    else
      var init := xs[..|xs| - 1];
      var x := xs[|xs| - 1];
      assert xs == init + [x];
      Dedup(init) + (if x in init then [] else [x])
  }

  function Courses(ps: seq<(nat, string)>): (cs: seq<string>)
    ensures |cs| == |ps| && forall i :: 0 <= i < |ps| ==> cs[i] == ps[i].1
  {
    seq(|ps|, i requires 0 <= i < |ps| => ps[i].1)
  }

  /** The students paired with course `k`. */
  function StudentsFor(ps: seq<(nat, string)>, k: string): set<nat> {
    set p | p in ps && p.1 == k :: p.0
  }

  /** The demand the page describes: for each course, the number of distinct
      students with a planned item of it in an open plan. */
  function StudentDemand(t: Tables, f: DemandFilter): Tally<string> {
    TallyOf(Courses(Dedup(Pairs(PlannedJoin(t, t.items), f))))
  }

  lemma StudentsForSnoc(init: seq<(nat, string)>, x: (nat, string), k: string)
    ensures StudentsFor(init + [x], k) == StudentsFor(init, k) + (if x.1 == k then {x.0} else {})
    ensures x.1 == k && x !in init ==> x.0 !in StudentsFor(init, k)
  {
    var a, b := StudentsFor(init + [x], k), StudentsFor(init, k) + (if x.1 == k then {x.0} else {});
    forall n | n in a ensures n in b {
      var p :| p in init + [x] && p.1 == k && p.0 == n;
      if p != x {
        assert p in init;
      }
    }
    forall n | n in b ensures n in a {
      if n in StudentsFor(init, k) {
        var p :| p in init && p.1 == k && p.0 == n;
        assert p in init + [x];
      } else {
        assert x in init + [x];
      }
    }
  }

  lemma DedupSeenCount(init: seq<(nat, string)>, x: (nat, string), k: string)
    requires x in init
    ensures Courses(Dedup(init + [x])) == Courses(Dedup(init))
    ensures StudentsFor(init + [x], k) == StudentsFor(init, k)
  {
    assert (init + [x])[..|init|] == init;
    StudentsForSnoc(init, x, k);
    if x.1 == k {
      assert x.0 in StudentsFor(init, k);
    }
  }

  lemma DedupNewCount(init: seq<(nat, string)>, x: (nat, string), k: string)
    requires x !in init
    ensures Occurrences(Courses(Dedup(init + [x])), k)
         == Occurrences(Courses(Dedup(init)), k) + (if x.1 == k then 1 else 0)
    ensures |StudentsFor(init + [x], k)| == |StudentsFor(init, k)| + (if x.1 == k then 1 else 0)
  {
    assert (init + [x])[..|init|] == init;
    var d := Dedup(init);
    assert Dedup(init + [x]) == d + [x];
    assert Courses(d + [x]) == Courses(d) + [x.1];
    OccurrencesAppend(Courses(d), x.1, k);
    StudentsForSnoc(init, x, k);
  }

  lemma {:induction false} DedupCounts(ps: seq<(nat, string)>, k: string)
    ensures Occurrences(Courses(Dedup(ps)), k) == |StudentsFor(ps, k)|
    decreases |ps|
  {
    if ps == [] {
      assert StudentsFor(ps, k) == {};
    } else {
      var init := ps[..|ps| - 1];
      var x := ps[|ps| - 1];
      assert ps == init + [x];
      DedupCounts(init, k);
      if x in init {
        DedupSeenCount(init, x, k);
      } else {
        DedupNewCount(init, x, k);
      }
    }
  }

  /** The corrected count of a course is the number of students that have a
      planned item of it, in an open plan, whose course passes the filters. */
  lemma StudentDemandCounts(t: Tables, f: DemandFilter, k: string, sid: nat)
    ensures Get(StudentDemand(t, f), k) == |StudentsFor(Pairs(PlannedJoin(t, t.items), f), k)|
    ensures sid in StudentsFor(Pairs(PlannedJoin(t, t.items), f), k)
        <==> exists r :: JoinsWith(t, t.items, r) && Passes(r.course, f) && r.course.courseId == k && r.plan.studentId == sid
  {
    var rs := PlannedJoin(t, t.items);
    var ps := Pairs(rs, f);
    TallyOfGet(Courses(Dedup(ps)), k);
    DedupCounts(ps, k);
    PairsMember(rs, f, sid, k);
    assert sid in StudentsFor(ps, k) <==> (sid, k) in ps;
    if (sid, k) in ps {
      var r :| r in rs && Passes(r.course, f) && r.plan.studentId == sid && r.course.courseId == k;
      PlannedJoinExact(t, t.items, r);
    }
    if exists r :: JoinsWith(t, t.items, r) && Passes(r.course, f) && r.course.courseId == k && r.plan.studentId == sid {
      var r :| JoinsWith(t, t.items, r) && Passes(r.course, f) && r.course.courseId == k && r.plan.studentId == sid;
      PlannedJoinExact(t, t.items, r);
    }
  }

  /** One student, two open plans that both plan the same course: the
      report as written counts the course twice, the corrected count once. */
  lemma DemandCountsItemsTwice(t: Tables, c: Course, p1: PlanVersion, p2: PlanVersion, i1: PlanItem, i2: PlanItem)
    requires c.courseId == "M1" && t.courses == map["M1" := c]
    requires p1.id == 1 && p2.id == 2 && p1.studentId == 7 && p2.studentId == 7
    requires p1.hasta.None? && p2.hasta.None? && t.plans == [p1, p2]
    requires i1.planId == 1 && i2.planId == 2 && i1.courseId == "M1" && i2.courseId == "M1"
    requires i1.estado == PlanState.Planned && i2.estado == PlanState.Planned && t.items == [i1, i2]
    ensures Get(DemandAsWritten(t, DemandFilter("", "", "")), "M1") == 2
    ensures Get(StudentDemand(t, DemandFilter("", "", "")), "M1") == 1
  {
    var f := DemandFilter("", "", "");
    JoinOfTwo(t, c, p1, p2, i1, i2);
    var rs := PlannedJoin(t, t.items);
    RowsOfOneStudent(rs, JoinRow(i1, c, p1), JoinRow(i2, c, p2), f);
    DemandAsWrittenCounts(t, f, "M1");
    StudentDemandCounts(t, f, "M1", 7);
  }

  /** Two passing rows of one student and one course. */
  lemma RowsOfOneStudent(rs: seq<JoinRow>, r1: JoinRow, r2: JoinRow, f: DemandFilter)
    requires rs == [r1, r2] && Passes(r1.course, f) && Passes(r2.course, f)
    requires r1.course.courseId == "M1" && r2.course.courseId == "M1"
    requires r1.plan.studentId == 7 && r2.plan.studentId == 7
    ensures Seqs.Count(rs, (r: JoinRow) => Passes(r.course, f) && r.course.courseId == "M1") == 2
    ensures |StudentsFor(Pairs(rs, f), "M1")| == 1
  {
    CountOfTwo(rs, r1, r2, (r: JoinRow) => Passes(r.course, f) && r.course.courseId == "M1");
    PairsOfTwo(rs, r1, r2, f);
    assert StudentsFor(Pairs(rs, f), "M1") == {7};
  }

  lemma CountOfTwo(rs: seq<JoinRow>, r1: JoinRow, r2: JoinRow, p: JoinRow -> bool)
    requires rs == [r1, r2] && p(r1) && p(r2)
    ensures Seqs.Count(rs, p) == 2
  {
    assert rs == [r1] + [r2] && [r1] == [] + [r1];
    Seqs.FilterAppend([r1], r2, p);
    Seqs.FilterAppend([], r1, p);
  }

  lemma PairsOfTwo(rs: seq<JoinRow>, r1: JoinRow, r2: JoinRow, f: DemandFilter)
    requires rs == [r1, r2] && Passes(r1.course, f) && Passes(r2.course, f)
    ensures Pairs(rs, f) == [(r1.plan.studentId, r1.course.courseId), (r2.plan.studentId, r2.course.courseId)]
  {
    assert rs[..1] == [r1] && [r1][..0] == [];
    assert Pairs([r1], f) == [(r1.plan.studentId, r1.course.courseId)];
  }

  lemma JoinOfTwo(t: Tables, c: Course, p1: PlanVersion, p2: PlanVersion, i1: PlanItem, i2: PlanItem)
    requires c.courseId == "M1" && t.courses == map["M1" := c]
    requires p1.id == 1 && p2.id == 2
    requires p1.hasta.None? && p2.hasta.None? && t.plans == [p1, p2]
    requires i1.planId == 1 && i2.planId == 2 && i1.courseId == "M1" && i2.courseId == "M1"
    requires i1.estado == PlanState.Planned && i2.estado == PlanState.Planned && t.items == [i1, i2]
    ensures PlannedJoin(t, t.items) == [JoinRow(i1, c, p1), JoinRow(i2, c, p2)]
  {
    OpenPlansOfTwo(t, p1, p2, 1);
    OpenPlansOfTwo(t, p1, p2, 2);
    assert [i1, i2][..1] == [i1] && [i1][..0] == [];
    assert PlannedJoin(t, [i1]) == [JoinRow(i1, c, p1)];
  }

  lemma OpenPlansOfTwo(t: Tables, p1: PlanVersion, p2: PlanVersion, id: nat)
    requires p1.id == 1 && p2.id == 2
    requires p1.hasta.None? && p2.hasta.None? && t.plans == [p1, p2]
    ensures id == 1 ==> OpenPlans(t, id) == [p1]
    ensures id == 2 ==> OpenPlans(t, id) == [p2]
  {
    var p := (p: PlanVersion) => p.id == id && p.hasta.None?;
    assert [p1, p2] == [p1] + [p2] && [p1] == [] + [p1];
    Seqs.FilterAppend([p1], p2, p);
    Seqs.FilterAppend([], p1, p);
  }

  lemma PairsStep(rs: seq<JoinRow>, i: nat, f: DemandFilter)
    requires i < |rs|
    ensures Pairs(rs[..i + 1], f)
         == Pairs(rs[..i], f) + (if Passes(rs[i].course, f) then [(rs[i].plan.studentId, rs[i].course.courseId)] else [])
  {
    assert rs[..i + 1][..i] == rs[..i];
  }

  /** A pair adds its course to the corrected keys only the first time. */
  lemma DedupStep(ps: seq<(nat, string)>, x: (nat, string))
    ensures Courses(Dedup(ps + [x])) == Courses(Dedup(ps)) + (if x in ps then [] else [x.1])
  {
    assert (ps + [x])[..|ps|] == ps;
    if x !in ps {
      assert Courses(Dedup(ps) + [x]) == Courses(Dedup(ps)) + [x.1];
    }
  }

  /** One row of the loop: a passing row whose pair is new adds one to its
      course, any other row changes nothing. */
  lemma DemandStep(rs: seq<JoinRow>, i: nat, f: DemandFilter)
    requires i < |rs|
    ensures var key := (rs[i].plan.studentId, rs[i].course.courseId);
      TallyOf(Courses(Dedup(Pairs(rs[..i + 1], f))))
      == if Passes(rs[i].course, f) && key !in Pairs(rs[..i], f)
         then Bump(TallyOf(Courses(Dedup(Pairs(rs[..i], f)))), key.1, 1)
         else TallyOf(Courses(Dedup(Pairs(rs[..i], f))))
  {
    PairsStep(rs, i, f);
    var ps := Pairs(rs[..i], f);
    var key := (rs[i].plan.studentId, rs[i].course.courseId);
    if Passes(rs[i].course, f) {
      assert Pairs(rs[..i + 1], f) == ps + [key];
      DedupStep(ps, key);
      if key !in ps {
        TallyOfAppend(Courses(Dedup(ps)), key.1);
      } else {
        assert Courses(Dedup(ps + [key])) == Courses(Dedup(ps));
      }
    } else {
      assert Pairs(rs[..i + 1], f) == ps;
    }
  }

  function Elements(ps: seq<(nat, string)>): set<(nat, string)> {
    set p | p in ps
  }

  lemma ElementsMember(ps: seq<(nat, string)>, x: (nat, string))
    ensures x in Elements(ps) <==> x in ps
  {
  }

  /** The pairs seen so far: a passing row's pair is new exactly when it is
      not among them, and the set grows by every new pair. */
  lemma SeenStep(rs: seq<JoinRow>, i: nat, f: DemandFilter, seen: set<(nat, string)>)
    requires i < |rs| && seen == Elements(Pairs(rs[..i], f))
    ensures var key := (rs[i].plan.studentId, rs[i].course.courseId);
      && (key in seen <==> key in Pairs(rs[..i], f))
      && (if Passes(rs[i].course, f) && key !in seen then seen + {key} else seen) == Elements(Pairs(rs[..i + 1], f))
  {
    PairsStep(rs, i, f);
    var ps := Pairs(rs[..i], f);
    var key := (rs[i].plan.studentId, rs[i].course.courseId);
    ElementsMember(ps, key);
    if Passes(rs[i].course, f) {
      assert Elements(ps + [key]) == Elements(ps) + {key};
    }
  }

  /** The demand loop as written: each joined row that passes the filters
      adds one to its course. */
  method CourseDemandAsWritten(t: Tables, f: DemandFilter) returns (d: Tally<string>)
    ensures d == DemandAsWritten(t, f)
    ensures DistinctKeys(d) && AllPositive(d)
    ensures forall k :: Get(d, k) == Seqs.Count(PlannedJoin(t, t.items), (r: JoinRow) => Passes(r.course, f) && r.course.courseId == k)
  {
    var rs := PlannedJoin(t, t.items);
    d := CountRows(rs, f);
    TallyOfShape(DemandKeys(rs, f));
    forall k ensures Get(d, k) == Seqs.Count(rs, (r: JoinRow) => Passes(r.course, f) && r.course.courseId == k) {
      DemandAsWrittenCounts(t, f, k);
    }
  }

  /** The loop of the demand report as written, over the rows of its query. */
  method CountRows(rs: seq<JoinRow>, f: DemandFilter) returns (d: Tally<string>)
    ensures d == TallyOf(DemandKeys(rs, f))
  {
    d := [];
    for i := 0 to |rs|
      invariant d == TallyOf(DemandKeys(rs[..i], f))
    {
      assert rs[..i + 1][..i] == rs[..i];
      var ks := DemandKeys(rs[..i], f);
      if Passes(rs[i].course, f) {
        assert DemandKeys(rs[..i + 1], f) == ks + [rs[i].course.courseId];
        assert (ks + [rs[i].course.courseId])[..|ks|] == ks;
        d := Bump(d, rs[i].course.courseId, 1);
      } else {
        assert DemandKeys(rs[..i + 1], f) == ks;
      }
    }
    assert rs[..|rs|] == rs;
  }

  /** One iteration of the intended loop on the pairs so far: a passing
      row's pair that is new joins the seen set and adds one to its course;
      any other row changes neither. */
  lemma NewPairStep(ps: seq<(nat, string)>, key: (nat, string), passes: bool, seen: set<(nat, string)>, d: Tally<string>)
    requires seen == Elements(ps) && d == TallyOf(Courses(Dedup(ps)))
    ensures var ps' := ps + (if passes then [key] else []);
      var counts := passes && key !in seen;
      && (if counts then seen + {key} else seen) == Elements(ps')
      && (if counts then Bump(d, key.1, 1) else d) == TallyOf(Courses(Dedup(ps')))
  {
    ElementsMember(ps, key);
    if passes {
      DedupStep(ps, key);
      assert Elements(ps + [key]) == Elements(ps) + {key};
      if key !in ps {
        TallyOfAppend(Courses(Dedup(ps)), key.1);
      } else {
        assert Courses(Dedup(ps + [key])) == Courses(Dedup(ps));
      }
    } else {
      assert ps + [] == ps;
    }
  }

  /** The demand loop as intended: each row that passes the filters adds one
      to its course, unless the same student was already counted for that
      course. */
  method CourseDemand(t: Tables, f: DemandFilter) returns (d: Tally<string>)
    ensures d == StudentDemand(t, f)
    ensures DistinctKeys(d) && AllPositive(d)
  {
    var rs := PlannedJoin(t, t.items);
    d := CountStudents(rs, f);
    TallyOfShape(Courses(Dedup(Pairs(rs, f))));
  }

  /** The loop of the intended demand report over the rows of its query. */
  method CountStudents(rs: seq<JoinRow>, f: DemandFilter) returns (d: Tally<string>)
    ensures d == TallyOf(Courses(Dedup(Pairs(rs, f))))
  {
    var seen: set<(nat, string)> := {};
    d := [];
    ghost var ps: seq<(nat, string)> := [];
    var i := 0;
    while i < |rs|
      invariant 0 <= i <= |rs|
      invariant ps == Pairs(rs[..i], f)
      invariant seen == Elements(ps)
      invariant d == TallyOf(Courses(Dedup(ps)))
    {
      var r := rs[i];
      var key := (r.plan.studentId, r.course.courseId);
      PairsStep(rs, i, f);
      NewPairStep(ps, key, Passes(r.course, f), seen, d);
      var counts := Passes(r.course, f) && key !in seen;
      d := if counts then Bump(d, key.1, 1) else d;
      seen := if counts then seen + {key} else seen;
      ps := ps + (if Passes(r.course, f) then [key] else []);
      i := i + 1;
    }
    assert rs[..i] == rs;
  }

  /** One line of the demand table. */
  datatype DemandRow = DemandRow(
    materiaId: string,
    materia: Option<string>,
    programa: Option<string>,
    anio: Option<int>,
    tipo: Option<string>,
    orientacion: string,
    estudiantes: nat)

  /** The line of a course with its count; the orientation reads "N/A"
      when it is missing. */
  function DemandRowOf(c: Course, n: nat): (r: DemandRow)
    ensures r.materiaId == c.courseId && r.estudiantes == n
    ensures r.orientacion == OrDefault(c.orientacion, NA)
  {
    DemandRow(c.courseId, c.materia, c.programa, c.anio, c.tipoMateria, OrDefault(c.orientacion, NA), n)
  }

  /** The demand table in the dictionary's order, one line per counted
      course, described by the catalog row of its course id. */
  function DemandTable(t: Tables, d: Tally<string>): (rows: seq<DemandRow>)
    requires forall i :: 0 <= i < |d| ==> d[i].0 in t.courses
    ensures |rows| == |d|
    ensures forall i :: 0 <= i < |d| ==> rows[i] == DemandRowOf(t.courses[d[i].0], d[i].1)
  {
    seq(|d|, i requires 0 <= i < |d| => DemandRowOf(t.courses[d[i].0], d[i].1))
  }

  /** Every course counted by the report is in the catalog. */
  lemma DemandKeysKnown(t: Tables, f: DemandFilter)
    requires CoursesKeyed(t.courses)
    ensures forall i :: 0 <= i < |StudentDemand(t, f)| ==> StudentDemand(t, f)[i].0 in t.courses
  {
    var rs := PlannedJoin(t, t.items);
    var ks := Courses(Dedup(Pairs(rs, f)));
    TallyOfKeys(ks);
    forall i | 0 <= i < |StudentDemand(t, f)| ensures StudentDemand(t, f)[i].0 in t.courses {
      var k := StudentDemand(t, f)[i].0;
      assert k in KeySet(StudentDemand(t, f));
      var j :| 0 <= j < |ks| && ks[j] == k;
      var q := Dedup(Pairs(rs, f))[j];
      assert q in Pairs(rs, f);
      PairsMember(rs, f, q.0, k);
      var r :| r in rs && Passes(r.course, f) && r.plan.studentId == q.0 && r.course.courseId == k;
      PlannedJoinExact(t, t.items, r);
    }
  }

  /** `sort_values("Estudiantes Planned", ascending=False)`: by count,
      largest first. */
  function DemandOrder(rows: seq<DemandRow>): seq<DemandRow> {
    Seqs.SortDesc(rows, (r: DemandRow) => r.estudiantes)
  }

  /** The ordered table lists the same lines, largest count first. */
  lemma DemandOrdered(rows: seq<DemandRow>)
    ensures Seqs.SortedDesc(DemandOrder(rows), (r: DemandRow) => r.estudiantes)
    ensures multiset(DemandOrder(rows)) == multiset(rows)
  {
    Seqs.SortDescCorrect(rows, (r: DemandRow) => r.estudiantes);
  }

  // ---------------------------------------------------------------------
  // demand by module and starting month

  /** The `count()` of the planned items of a course, over every plan,
      open or closed. */
  function PlannedCount(t: Tables, courseId: string): (n: nat)
    ensures n <= |t.items|
  {
    Seqs.Count(t.items, (i: PlanItem) => i.courseId == courseId && i.estado == PlanState.Planned)
  }

  /** Stored dates are calendar dates, as Python's `date` values are. */
  predicate StartDatesValid(t: Tables) {
    forall k :: k in t.courses && t.courses[k].inicio.Some? ==> ValidDate(t.courses[k].inicio.value)
  }

  /** The month of `course.inicio` as `strftime("%B %Y")`, or "Sin fecha". */
  function MonthLabel(d: Option<Date>): string
    requires d.Some? ==> ValidDate(d.value)
  {
    if d.None? then "Sin fecha" else MonthYear(d.value)
  }

  /** The bucket of a source that joins with a course. */
  function Bucket(t: Tables, s: CourseSource): (string, string)
    requires StartDatesValid(t) && s.courseId in t.courses
  {
    (OrDefault(s.modulo, SinModulo), MonthLabel(t.courses[s.courseId].inicio))
  }

  /** What one source adds: the planned count of the course it joins with,
      nothing when it joins with none. */
  function SourceDemand(t: Tables, s: CourseSource): nat {
    if s.courseId in t.courses then PlannedCount(t, t.courses[s.courseId].courseId) else 0
  }

  /** `demand_temporal` after the sources `ss`: every source with a positive
      count adds it to its bucket; buckets are in order of first use. */
  function Temporal(t: Tables, ss: seq<CourseSource>): (d: Tally<(string, string)>)
    requires StartDatesValid(t)
    ensures DistinctKeys(d) && AllPositive(d)
    decreases |ss|
  {
    if ss == [] then []
    else
      var s := ss[|ss| - 1];
      var d := Temporal(t, ss[..|ss| - 1]);
      if SourceDemand(t, s) > 0 then
        BumpKeys(d, Bucket(t, s), SourceDemand(t, s));
        Bump(d, Bucket(t, s), SourceDemand(t, s))
      else d
  }

  /** What one source adds to bucket `key`. */
  function ShareOf(t: Tables, key: (string, string), s: CourseSource): nat
    requires StartDatesValid(t)
  {
    if SourceDemand(t, s) > 0 && Bucket(t, s) == key then SourceDemand(t, s) else 0
  }

  /** The buckets add up to the planned counts of all sources: a course with
      several sources is counted once per source. */
  lemma {:induction false} TemporalTotal(t: Tables, ss: seq<CourseSource>)
    requires StartDatesValid(t)
    ensures Total(Temporal(t, ss)) == Seqs.Sum(ss, (s: CourseSource) => SourceDemand(t, s))
    decreases |ss|
  {
    if ss != [] {
      var s := ss[|ss| - 1];
      TemporalTotal(t, ss[..|ss| - 1]);
      if SourceDemand(t, s) > 0 {
        BumpTotal(Temporal(t, ss[..|ss| - 1]), Bucket(t, s), SourceDemand(t, s));
      }
    }
  }

  /** Each bucket holds the planned counts of exactly the sources in it. */
  lemma {:induction false} TemporalGet(t: Tables, ss: seq<CourseSource>, key: (string, string))
    requires StartDatesValid(t)
    ensures Get(Temporal(t, ss), key) == Seqs.Sum(ss, (s: CourseSource) => ShareOf(t, key, s))
    decreases |ss|
  {
    if ss != [] {
      var s := ss[|ss| - 1];
      TemporalGet(t, ss[..|ss| - 1], key);
      if SourceDemand(t, s) > 0 {
        BumpGet(Temporal(t, ss[..|ss| - 1]), Bucket(t, s), SourceDemand(t, s), key);
      }
    }
  }

  lemma TemporalStep(t: Tables, ss: seq<CourseSource>, i: nat)
    requires StartDatesValid(t) && i < |ss|
    ensures Temporal(t, ss[..i + 1])
         == if SourceDemand(t, ss[i]) > 0 then Bump(Temporal(t, ss[..i]), Bucket(t, ss[i]), SourceDemand(t, ss[i]))
            else Temporal(t, ss[..i])
  {
    assert ss[..i + 1][..i] == ss[..i];
  }

  /** The temporal loop over the sources joined with their course. */
  method TemporalDemand(t: Tables) returns (d: Tally<(string, string)>)
    requires StartDatesValid(t)
    ensures d == Temporal(t, t.sources)
  {
    d := [];
    for i := 0 to |t.sources|
      invariant d == Temporal(t, t.sources[..i])
    {
      var s := t.sources[i];
      TemporalStep(t, t.sources, i);
      if s.courseId in t.courses {
        var course := t.courses[s.courseId];
        var plannedCount := PlannedCount(t, course.courseId);
        if plannedCount > 0 {
          var modulo := OrDefault(s.modulo, SinModulo);
          var mes := "Sin fecha";
          if course.inicio.Some? {
            mes := MonthYear(course.inicio.value);
          }
          d := Bump(d, (modulo, mes), plannedCount);
        }
      }
    }
    assert t.sources[..|t.sources|] == t.sources;
  }

  /** `sorted(demand_temporal.items(), key=count, reverse=True)`. */
  function TemporalOrder(d: Tally<(string, string)>): Tally<(string, string)> {
    Seqs.SortDesc(d, (e: ((string, string), nat)) => e.1)
  }

  /** The ordered buckets are the same buckets, largest demand first. */
  lemma TemporalOrdered(d: Tally<(string, string)>)
    ensures Seqs.SortedDesc(TemporalOrder(d), (e: ((string, string), nat)) => e.1)
    ensures multiset(TemporalOrder(d)) == multiset(d)
  {
    Seqs.SortDescCorrect(d, (e: ((string, string), nat)) => e.1);
  }

  // ---------------------------------------------------------------------
  // compliance with the 5-of-8 rule

  /** `elective_counts_by_orientation(student_id)` with its defaults. */
  function Counts(t: Tables, s: Student): (d: Tally<string>)
    ensures DistinctKeys(d) && AllPositive(d)
    ensures Total(d) == Metrics.CountElectivesCompleted(t, s.id, Metrics.Electiva)
  {
    Metrics.ElectiveCountsByOrientation(t, s.id, Metrics.Electiva)
  }

  /** `total_electives_completed`: the total of every student with counts. */
  function Totals(t: Tables, ss: seq<Student>): seq<nat>
    decreases |ss|
  {
    if ss == [] then []
    else
      var c := Counts(t, ss[|ss| - 1]);
      Totals(t, ss[..|ss| - 1]) + (if c != [] then [Total(c)] else [])
  }

  /** `orientation_distribution`: every student's counts added together. */
  function Distribution(t: Tables, ss: seq<Student>): (d: Tally<string>)
    ensures DistinctKeys(d) && AllPositive(d)
    decreases |ss|
  {
    if ss == [] then []
    else
      var d := Distribution(t, ss[..|ss| - 1]);
      var c := Counts(t, ss[|ss| - 1]);
      if c != [] then
        AddAllKeys(d, c);
        AddAll(d, c)
      else d
  }

  /** What the compliance tab computes from the students. */
  datatype Compliance = Compliance(students: nat, compliant: nat, totals: seq<nat>, distribution: Tally<string>)

  /** The figures over the students `ss`. */
  function ComplianceOver(t: Tables, ss: seq<Student>): (c: Compliance)
    ensures c.compliant <= c.students == |ss|
  {
    Compliance(|ss|, Metrics.CompliantCount(t, Metrics.StudentIds(ss), Metrics.Electiva),
               Totals(t, ss), Distribution(t, ss))
  }

  function ComplianceOf(t: Tables): (c: Compliance)
    ensures c.compliant <= c.students == |t.students|
  {
    ComplianceOver(t, t.students)
  }

  /** `sum(xs)`. */
  function SumOf(xs: seq<nat>): nat
    decreases |xs|
  {
    if xs == [] then 0 else SumOf(xs[..|xs| - 1]) + xs[|xs| - 1]
  }

  lemma SumOfAppend(xs: seq<nat>, x: nat)
    ensures SumOf(xs + [x]) == SumOf(xs) + x
  {
    assert (xs + [x])[..|xs|] == xs;
  }

  /** `rule_58_compliant / len(all_students) * 100`. */
  function CompliancePercent(c: Compliance): (p: real)
    requires 0 < c.students && c.compliant <= c.students
    ensures 0.0 <= p <= 100.0
    ensures p == 100.0 <==> c.compliant == c.students
  {
    Metrics.Rate(c.compliant, c.students) * 100.0
  }

  /** `sum(total_electives_completed) / len(all_students)`. */
  function AverageElectives(c: Compliance): (a: real)
    requires 0 < c.students
    ensures a * c.students as real == SumOf(c.totals) as real
  {
    SumOf(c.totals) as real / c.students as real
  }

  lemma TrueCountAppend(bs: seq<bool>, b: bool)
    ensures Metrics.TrueCount(bs + [b]) == Metrics.TrueCount(bs) + (if b then 1 else 0)
  {
    assert (bs + [b])[..|bs|] == bs;
  }

  lemma CompliantStep(t: Tables, ss: seq<Student>, s: Student)
    ensures Metrics.CompliantCount(t, Metrics.StudentIds(ss + [s]), Metrics.Electiva)
         == Metrics.CompliantCount(t, Metrics.StudentIds(ss), Metrics.Electiva)
            + (if Metrics.Complies(t, s.id, Metrics.Electiva) then 1 else 0)
  {
    var ids := Metrics.StudentIds(ss);
    assert Metrics.StudentIds(ss + [s]) == ids + [s.id];
    var bs := Metrics.Verdicts(t, ids, Metrics.Electiva);
    var b := Metrics.Complies(t, s.id, Metrics.Electiva);
    assert Metrics.Verdicts(t, ids + [s.id], Metrics.Electiva) == bs + [b];
    TrueCountAppend(bs, b);
  }

  lemma FiguresStep(t: Tables, ss: seq<Student>, s: Student)
    ensures Totals(t, ss + [s]) == Totals(t, ss) + (if Counts(t, s) != [] then [Total(Counts(t, s))] else [])
    ensures Distribution(t, ss + [s])
         == if Counts(t, s) != [] then AddAll(Distribution(t, ss), Counts(t, s)) else Distribution(t, ss)
  {
    assert (ss + [s])[..|ss|] == ss;
  }

  /** One student of the loop: a compliant one adds one to the count, one
      with counts adds its total and its counts. */
  lemma ComplianceStep(t: Tables, ss: seq<Student>, i: nat)
    requires i < |ss|
    ensures var c := ComplianceOver(t, ss[..i]);
      var counts := Counts(t, ss[i]);
      ComplianceOver(t, ss[..i + 1])
      == Compliance(c.students + 1, c.compliant + (if Metrics.Complies(t, ss[i].id, Metrics.Electiva) then 1 else 0),
                    if counts != [] then c.totals + [Total(counts)] else c.totals,
                    if counts != [] then AddAll(c.distribution, counts) else c.distribution)
  {
    assert ss[..i + 1] == ss[..i] + [ss[i]];
    CompliantStep(t, ss[..i], ss[i]);
    FiguresStep(t, ss[..i], ss[i]);
  }

  /** One iteration of the loop: `check_rule_5_of_8` and
      `elective_counts_by_orientation` of one student, added to the figures. */
  method AddStudent(t: Tables, s: Student, compliant: nat, totals: seq<nat>, dist: Tally<string>)
    returns (compliant': nat, totals': seq<nat>, dist': Tally<string>)
    ensures compliant' == compliant + (if Metrics.Complies(t, s.id, Metrics.Electiva) then 1 else 0)
    ensures totals' == if Counts(t, s) != [] then totals + [Total(Counts(t, s))] else totals
    ensures dist' == if Counts(t, s) != [] then AddAll(dist, Counts(t, s)) else dist
  {
    var rule := Metrics.CheckRule5Of8(t, s.id, Metrics.Electiva, Metrics.RequiredCount);
    compliant', totals', dist' := compliant, totals, dist;
    if rule.ok {
      compliant' := compliant + 1;
    }
    var counts := Metrics.ElectiveCountsByOrientation(t, s.id, Metrics.Electiva);
    if counts != [] {
      totals' := totals + [Total(counts)];
      dist' := AddAll(dist, counts);
    }
  }

  /** The loop over the students `ss`. */
  method Tabulate(t: Tables, ss: seq<Student>) returns (compliant: nat, totals: seq<nat>, dist: Tally<string>)
    ensures Compliance(|ss|, compliant, totals, dist) == ComplianceOver(t, ss)
  {
    compliant := 0;
    totals := [];
    dist := [];
    for i := 0 to |ss|
      invariant Compliance(i, compliant, totals, dist) == ComplianceOver(t, ss[..i])
    {
      ComplianceStep(t, ss, i);
      compliant, totals, dist := AddStudent(t, ss[i], compliant, totals, dist);
    }
    assert ss[..|ss|] == ss;
  }

  /** The compliance figures of all students. */
  method ComplianceReport(t: Tables) returns (c: Compliance)
    ensures c == ComplianceOf(t)
  {
    var compliant, totals, dist := Tabulate(t, t.students);
    c := Compliance(|t.students|, compliant, totals, dist);
  }

  /** The totals add up to the completed electives of all students: those
      without electives add nothing to the sum but still count in the
      denominator of the average. */
  lemma {:induction false} TotalsSum(t: Tables, ss: seq<Student>)
    ensures SumOf(Totals(t, ss)) == Metrics.CompletedSum(t, Metrics.StudentIds(ss), Metrics.Electiva)
    decreases |ss|
  {
    if ss != [] {
      var init := ss[..|ss| - 1];
      var s := ss[|ss| - 1];
      TotalsSum(t, init);
      var ids := Metrics.StudentIds(ss);
      assert ids[..|ids| - 1] == Metrics.StudentIds(init);
      Metrics.ByOrientationTotal(t, s.id, Metrics.Electiva);
      assert ids[|ids| - 1] == s.id;
      assert Metrics.CompletedSum(t, ids, Metrics.Electiva)
          == Metrics.CompletedSum(t, Metrics.StudentIds(init), Metrics.Electiva) + Metrics.CountElectivesCompleted(t, s.id, Metrics.Electiva);
      var c := Counts(t, s);
      if c != [] {
        assert Totals(t, ss) == Totals(t, init) + [Total(c)];
        SumOfAppend(Totals(t, init), Total(c));
      } else {
        assert Totals(t, ss) == Totals(t, init);
      }
    }
  }

  /** The average and the compliant count are those of the metrics
      module's aggregate over all students. */
  lemma AverageIsAggregate(t: Tables)
    requires t.students != []
    ensures AverageElectives(ComplianceOf(t))
         == Metrics.AggregateOf(t, Metrics.StudentIds(t.students), Metrics.Electiva).avgCompleted
    ensures ComplianceOf(t).compliant
         == Metrics.AggregateOf(t, Metrics.StudentIds(t.students), Metrics.Electiva).compliant
  {
    TotalsSum(t, t.students);
  }

  /** The distribution holds, for each label, the sum of every student's
      count for it. */
  lemma {:induction false} DistributionGet(t: Tables, ss: seq<Student>, k: string)
    ensures Get(Distribution(t, ss), k) == Seqs.Sum(ss, (s: Student) => Get(Counts(t, s), k))
    decreases |ss|
  {
    if ss != [] {
      var init := ss[..|ss| - 1];
      var s := ss[|ss| - 1];
      DistributionGet(t, init, k);
      var c := Counts(t, s);
      if c != [] {
        AddAllGet(Distribution(t, init), c, k);
      } else {
        assert Get(c, k) == 0;
      }
    }
  }

  /** The distribution adds up to the totals. */
  lemma {:induction false} DistributionTotal(t: Tables, ss: seq<Student>)
    ensures Total(Distribution(t, ss)) == SumOf(Totals(t, ss))
    decreases |ss|
  {
    if ss != [] {
      var init := ss[..|ss| - 1];
      var s := ss[|ss| - 1];
      DistributionTotal(t, init);
      var c := Counts(t, s);
      if c != [] {
        assert Totals(t, ss) == Totals(t, init) + [Total(c)];
        assert Distribution(t, ss) == AddAll(Distribution(t, init), c);
        AddAllTotal(Distribution(t, init), c);
        SumOfAppend(Totals(t, init), Total(c));
      } else {
        assert Totals(t, ss) == Totals(t, init);
      }
    }
  }

  // ---------------------------------------------------------------------
  // students at risk

  /** `risk_level.upper()`. */
  function LevelLabel(l: Metrics.Level): (s: string)
    ensures s == "LOW" <==> l == Metrics.Low
    ensures s == "MEDIUM" <==> l == Metrics.Medium
    ensures s == "HIGH" <==> l == Metrics.High
  {
    match l
    case Low => "LOW"
    case Medium => "MEDIUM"
    case High => "HIGH"
  }

  const Yes: string := "✅ Sí"
  const No: string := "❌ No"

  datatype RiskRow = RiskRow(
    estudiante: string,
    email: string,
    programa: Option<string>,
    cohorte: string,
    orientacion: string,
    completadas: nat,
    mejor: nat,
    gap: int,
    nivel: string,
    cumple: string)

  /** The line of one student: the rule and the risk with their defaults. */
  function RiskRowOf(t: Tables, s: Student): (r: RiskRow)
    ensures r.email == s.email && r.programa == s.programa
    ensures r.nivel == "LOW" <==> r.cumple == Yes
    ensures r.cumple == Yes <==> Metrics.CheckRule5Of8(t, s.id, Metrics.Electiva, Metrics.RequiredCount).ok
    ensures r.completadas == 0 ==> r.nivel == "HIGH" && r.orientacion == NA
  {
    var rule := Metrics.CheckRule5Of8(t, s.id, Metrics.Electiva, Metrics.RequiredCount);
    var risk := Metrics.RiskScore(t, s.id, Metrics.Electiva, Metrics.RequiredCount);
    RiskRow(s.nombre + " " + s.apellido, s.email, s.programa, OrDefault(s.cohorte, NA), OrDefault(rule.best, NA),
            risk.total, risk.bestCount, risk.gap, LevelLabel(risk.level), if rule.ok then Yes else No)
  }

  /** A line reads "LOW" exactly when it reads that the student complies,
      and its counts are those of the student's completed electives. */
  lemma RiskRowMeaning(t: Tables, s: Student)
    ensures RiskRowOf(t, s).nivel in ["LOW", "MEDIUM", "HIGH"] && RiskRowOf(t, s).cumple in [Yes, No]
    ensures RiskRowOf(t, s).nivel == "LOW" <==> RiskRowOf(t, s).cumple == Yes
    ensures RiskRowOf(t, s).cumple == Yes <==> Metrics.Complies(t, s.id, Metrics.Electiva)
    ensures RiskRowOf(t, s).completadas == Metrics.CountElectivesCompleted(t, s.id, Metrics.Electiva)
    ensures RiskRowOf(t, s).nivel == "HIGH" <==> RiskRowOf(t, s).gap > 2 || RiskRowOf(t, s).completadas == 0
  {
    Metrics.LowRiskIffRule(Metrics.ElectiveCountsByOrientation(t, s.id, Metrics.Electiva), Metrics.RequiredCount);
    Metrics.RiskBands(t, s.id, Metrics.Electiva, Metrics.RequiredCount);
  }

  /** The risk loop: one line per student, in key order. */
  method RiskTable(t: Tables) returns (rows: seq<RiskRow>)
    ensures |rows| == |t.students|
    ensures forall i :: 0 <= i < |t.students| ==> rows[i] == RiskRowOf(t, t.students[i])
  {
    rows := [];
    for i := 0 to |t.students|
      invariant |rows| == i
      invariant forall j :: 0 <= j < i ==> rows[j] == RiskRowOf(t, t.students[j])
    {
      var line := RiskLine(t, t.students[i]);
      rows := rows + [line];
    }
  }

  /** The line of one student, as the loop body builds it. */
  method RiskLine(t: Tables, s: Student) returns (line: RiskRow)
    ensures line == RiskRowOf(t, s)
  {
    var rule := Metrics.CheckRule5Of8(t, s.id, Metrics.Electiva, Metrics.RequiredCount);
    var risk := Metrics.RiskScore(t, s.id, Metrics.Electiva, Metrics.RequiredCount);
    line := RiskRow(s.nombre + " " + s.apellido, s.email, s.programa, OrDefault(s.cohorte, NA), OrDefault(rule.best, NA),
      risk.total, risk.bestCount, risk.gap, LevelLabel(risk.level), if rule.ok then Yes else No);
  }

  /** `df_risk[df_risk["Nivel Riesgo"].isin(risk_levels)]` when levels are
      selected, the whole table otherwise. */
  function Shown(rows: seq<RiskRow>, levels: seq<string>): (r: seq<RiskRow>)
    ensures levels == [] ==> r == rows
    ensures levels != [] ==> forall x :: x in r <==> x in rows && x.nivel in levels
    ensures |r| <= |rows|
  {
    if levels == [] then rows
    else
      var p := (x: RiskRow) => x.nivel in levels;
      assert forall x :: x in rows && p(x) ==> x in Seqs.Filter(rows, p) by {
        forall x | x in rows && p(x) ensures x in Seqs.Filter(rows, p) {
          Seqs.FilterMember(rows, p, x);
        }
      }
      Seqs.Filter(rows, p)
  }

  /** With the page's default selection, a line is shown exactly when the
      student does not comply. */
  lemma DefaultSelection(t: Tables, rows: seq<RiskRow>, x: RiskRow)
    requires |rows| == |t.students|
    requires forall i :: 0 <= i < |t.students| ==> rows[i] == RiskRowOf(t, t.students[i])
    ensures x in Shown(rows, ["MEDIUM", "HIGH"]) <==> x in rows && x.cumple == No
  {
    var levels := ["MEDIUM", "HIGH"];
    assert x in Shown(rows, levels) <==> x in rows && x.nivel in levels;
    if x in rows {
      var i :| 0 <= i < |rows| && rows[i] == x;
      RiskRowMeaning(t, t.students[i]);
      LevelShown(x);
    }
  }

  lemma LevelShown(x: RiskRow)
    requires x.nivel in ["LOW", "MEDIUM", "HIGH"] && x.cumple in [Yes, No]
    requires x.nivel == "LOW" <==> x.cumple == Yes
    ensures x.nivel in ["MEDIUM", "HIGH"] <==> x.cumple == No
  {
  }
}
