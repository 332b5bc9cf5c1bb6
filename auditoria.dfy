/**
 * The audit page (pages/05_Auditoria.py): the change-log query with its date
 * window, its user, entity and student filters and its newest-first order,
 * and the summary counts of changes per entity and per user.
 */
module Auditoria {
  import opened Wrappers
  import opened Dates
  import opened Text
  import opened Models
  import opened Counter
  import Seqs

  /** The filters of the page: the two dates, the two texts (empty when not
      used) and the chosen student, if any. */
  datatype AuditFilter = AuditFilter(
    desde: Date,
    hasta: Date,
    user: string,
    entidad: string,
    student: Option<nat>)

  // ---------------------------------------------------------------------
  // the filters

  /** `desde 00:00:00 <= ts <= hasta 23:59:59.999999`. */
  predicate InWindow(f: AuditFilter, e: ChangeLog) {
    StampLe(StartOfDay(f.desde), e.ts) && StampLe(e.ts, EndOfDay(f.hasta))
  }

  /** `value ILIKE '%pattern%'` on SQLite: `lower(value)` contains `lower(pattern)`. */
  predicate Ilike(value: string, pattern: string) {
    Contains(LowerAscii(value), LowerAscii(pattern))
  }

  /** The user filter; a NULL user never matches a non-empty filter. */
  predicate UserOk(f: AuditFilter, e: ChangeLog) {
    f.user == "" || (e.user.Some? && Ilike(e.user.value, f.user))
  }

  predicate EntityOk(f: AuditFilter, e: ChangeLog) {
    f.entidad == "" || Ilike(e.entidad, f.entidad)
  }

  /** `if student_filter_id:` — a chosen student whose id is truthy. */
  predicate StudentActive(f: AuditFilter) {
    f.student.Some? && f.student.value != 0
  }

  /** The student filter as written: the id matches, OR the entity is a student. */
  predicate StudentOkAsWritten(f: AuditFilter, e: ChangeLog) {
    !StudentActive(f) || e.entidadId == Some(NatToString(f.student.value)) || e.entidad == "Student"
  }

  /** The student filter as intended: the entry is about the chosen student. */
  predicate StudentOk(f: AuditFilter, e: ChangeLog) {
    !StudentActive(f) || (e.entidad == "Student" && e.entidadId == Some(NatToString(f.student.value)))
  }

  predicate KeptAsWritten(f: AuditFilter, e: ChangeLog) {
    InWindow(f, e) && UserOk(f, e) && EntityOk(f, e) && StudentOkAsWritten(f, e)
  }

  predicate Kept(f: AuditFilter, e: ChangeLog) {
    InWindow(f, e) && UserOk(f, e) && EntityOk(f, e) && StudentOk(f, e)
  }

  /** The ordering key of `ORDER BY ts`. */
  function TsKey(e: ChangeLog): int {
    StampKey(e.ts)
  }

  /** `ORDER BY ts DESC`; entries with equal timestamps keep the table order. */
  function Newest(xs: seq<ChangeLog>): (r: seq<ChangeLog>)
    ensures |r| == |xs|
  {
    Seqs.SortDesc(xs, TsKey)
  }

  /** The query of the page with the student filter as written. */
  function AuditLogAsWritten(t: Tables, f: AuditFilter): (r: seq<ChangeLog>)
    ensures |r| <= |t.logs|
  {
    Newest(Seqs.Filter(t.logs, (e: ChangeLog) => KeptAsWritten(f, e)))
  }

  /** The query of the page with the intended student filter. */
  function AuditLog(t: Tables, f: AuditFilter): (r: seq<ChangeLog>)
    ensures |r| <= |t.logs|
  {
    Newest(Seqs.Filter(t.logs, (e: ChangeLog) => Kept(f, e)))
  }

  // ---------------------------------------------------------------------
  // what the query returns

  /** The result holds every kept entry as often as the table does, and no
      other entry. */
  lemma AuditLogExact(t: Tables, f: AuditFilter, e: ChangeLog)
    ensures multiset(AuditLog(t, f))[e] == if Kept(f, e) then multiset(t.logs)[e] else 0
    ensures e in AuditLog(t, f) <==> e in t.logs && Kept(f, e)
  {
    var p := (e: ChangeLog) => Kept(f, e);
    var q := Seqs.Filter(t.logs, p);
    Seqs.SortDescCorrect(q, TsKey);
    Seqs.FilterMultiset(t.logs, p, e);
    assert AuditLog(t, f) == Seqs.SortDesc(q, TsKey);
  }

  /** As written, the result holds every entry the written filter keeps as
      often as the table does, and no other entry. */
  lemma AuditLogAsWrittenExact(t: Tables, f: AuditFilter, e: ChangeLog)
    ensures multiset(AuditLogAsWritten(t, f))[e] == if KeptAsWritten(f, e) then multiset(t.logs)[e] else 0
    ensures e in AuditLogAsWritten(t, f) <==> e in t.logs && KeptAsWritten(f, e)
  {
    var p := (e: ChangeLog) => KeptAsWritten(f, e);
    var q := Seqs.Filter(t.logs, p);
    Seqs.SortDescCorrect(q, TsKey);
    Seqs.FilterMultiset(t.logs, p, e);
    assert AuditLogAsWritten(t, f) == Seqs.SortDesc(q, TsKey);
  }

  /** On timestamps that exist, the result is ordered newest first. */
  lemma AuditLogNewestFirst(t: Tables, f: AuditFilter)
    requires forall i :: 0 <= i < |t.logs| ==> ValidStamp(t.logs[i].ts)
    ensures forall i, j :: 0 <= i < j < |AuditLog(t, f)| ==> StampLe(AuditLog(t, f)[j].ts, AuditLog(t, f)[i].ts)
  {
    var r := AuditLog(t, f);
    var q := Seqs.Filter(t.logs, (e: ChangeLog) => Kept(f, e));
    assert r == Seqs.SortDesc(q, TsKey);
    Seqs.SortDescCorrect(q, TsKey);
    forall i, j | 0 <= i < j < |r| ensures StampLe(r[j].ts, r[i].ts) {
      assert r[i] in multiset(q) && r[j] in multiset(q);
      assert ValidStamp(r[i].ts) && ValidStamp(r[j].ts);
      StampKeyOrder(r[j].ts, r[i].ts);
    }
  }

  /** On a timestamp that exists, the window keeps exactly the entries dated
      from `desde` to `hasta`, both days included. */
  lemma InWindowDays(f: AuditFilter, e: ChangeLog)
    requires ValidStamp(e.ts)
    ensures InWindow(f, e) <==> DateLe(f.desde, e.ts.date) && DateLe(e.ts.date, f.hasta)
  {
    DayWindow(f.desde, f.hasta, e.ts);
  }

  /** The filter texts match regardless of ASCII case, and an entry whose text
      contains the filter text literally always matches. */
  lemma IlikeMeaning(value: string, pattern: string)
    ensures Ilike(value, pattern) <==> exists i :: OccursAt(LowerAscii(value), LowerAscii(pattern), i)
    ensures Ilike(value, pattern) == Ilike(LowerAscii(value), pattern) == Ilike(value, LowerAscii(pattern))
    ensures Contains(value, pattern) ==> Ilike(value, pattern)
  {
    ContainsAt(LowerAscii(value), LowerAscii(pattern));
    LowerTwice(value);
    LowerTwice(pattern);
    if Contains(value, pattern) {
      ContainsAt(value, pattern);
      var i :| OccursAt(value, pattern, i);
      LowerOccurrence(value, pattern, i);
    }
  }

  lemma LowerTwice(s: string)
    ensures LowerAscii(LowerAscii(s)) == LowerAscii(s)
  {
  }

  /** Lowering both texts keeps an occurrence where it is. */
  lemma LowerOccurrence(value: string, pattern: string, i: int)
    requires OccursAt(value, pattern, i)
    ensures OccursAt(LowerAscii(value), LowerAscii(pattern), i)
  {
    var lv, lp := LowerAscii(value), LowerAscii(pattern);
    forall k | 0 <= k < |lp| ensures lv[i + k] == lp[k] {
      assert value[i..i + |pattern|][k] == pattern[k];
    }
    assert lv[i..i + |lp|] == lp;
  }

  /** Without texts and without a student every entry of the window is kept;
      with a user text, entries without a user are dropped. */
  lemma FilterDefaults(f: AuditFilter, e: ChangeLog)
    ensures Kept(f, e) ==> InWindow(f, e)
    ensures f.user == "" && f.entidad == "" && !StudentActive(f) ==> (Kept(f, e) <==> InWindow(f, e))
    ensures f.user != "" && e.user.None? ==> !Kept(f, e)
  {
  }

  /** The intended student filter keeps only the log of the chosen student. */
  lemma StudentOkExact(f: AuditFilter, e: ChangeLog, n: nat)
    requires StudentActive(f)
    requires e.entidadId == Some(NatToString(n))
    ensures StudentOk(f, e) <==> e.entidad == "Student" && n == f.student.value
  {
    NatToStringValue(n);
    NatToStringValue(f.student.value);
  }

  /** As written, choosing a student keeps the student log of any other
      student, and the log of any other entity whose id is the same number. */
  lemma StudentFilterKeepsOthers(f: AuditFilter, other: ChangeLog, enrollment: ChangeLog)
    requires StudentActive(f)
    requires other.entidad == "Student" && other.entidadId == Some(NatToString(f.student.value + 1))
    requires enrollment.entidad == "Enrollment" && enrollment.entidadId == Some(NatToString(f.student.value))
    ensures StudentOkAsWritten(f, other) && !StudentOk(f, other)
    ensures StudentOkAsWritten(f, enrollment) && !StudentOk(f, enrollment)
  {
    StudentOkExact(f, other, f.student.value + 1);
  }

  /** A log of one entry about another student: the page as written lists it
      for the chosen student, the intended query does not. */
  lemma AsWrittenListsOtherStudent(t: Tables, f: AuditFilter, other: ChangeLog)
    requires StudentActive(f) && f.user == "" && f.entidad == ""
    requires InWindow(f, other)
    requires other.entidad == "Student" && other.entidadId == Some(NatToString(f.student.value + 1))
    requires t.logs == [other]
    ensures other in AuditLogAsWritten(t, f)
    ensures AuditLog(t, f) == []
  {
    StudentOkExact(f, other, f.student.value + 1);
    var p := (e: ChangeLog) => KeptAsWritten(f, e);
    var q := (e: ChangeLog) => Kept(f, e);
    assert t.logs == [] + [other];
    Seqs.FilterAppend([], other, p);
    Seqs.FilterAppend([], other, q);
    assert Seqs.Filter(t.logs, p) == [other];
    Seqs.SortDescCorrect([other], TsKey);
    assert AuditLogAsWritten(t, f) == Seqs.SortDesc([other], TsKey);
    assert other in multiset(AuditLogAsWritten(t, f));
  }

  // ---------------------------------------------------------------------
  // statistics

  /** `if log.user:` — a user that is neither NULL nor empty. */
  predicate HasUser(e: ChangeLog) {
    e.user.Some? && e.user.value != ""
  }

  /** The entity of every entry, in table order. */
  function Entities(logs: seq<ChangeLog>): seq<string> {
    seq(|logs|, i requires 0 <= i < |logs| => logs[i].entidad)
  }

  /** The user of every entry that has one, in table order. */
  function Users(logs: seq<ChangeLog>): seq<string>
    decreases |logs|
  {
    if logs == [] then []
    else
      var e := logs[|logs| - 1];
      Users(logs[..|logs| - 1]) + (if HasUser(e) then [e.user.value] else [])
  }

  lemma StatsStep(logs: seq<ChangeLog>, i: nat)
    requires i < |logs|
    ensures TallyOf(Entities(logs[..i + 1])) == Bump(TallyOf(Entities(logs[..i])), logs[i].entidad, 1)
    ensures TallyOf(Users(logs[..i + 1]))
         == if HasUser(logs[i]) then Bump(TallyOf(Users(logs[..i])), logs[i].user.value, 1)
            else TallyOf(Users(logs[..i]))
  {
    assert logs[..i + 1][..i] == logs[..i];
    assert Entities(logs[..i + 1]) == Entities(logs[..i]) + [logs[i].entidad];
    TallyOfAppend(Entities(logs[..i]), logs[i].entidad);
    var u := Users(logs[..i]);
    if HasUser(logs[i]) {
      assert Users(logs[..i + 1]) == u + [logs[i].user.value];
      TallyOfAppend(u, logs[i].user.value);
    } else {
      assert Users(logs[..i + 1]) == u;
    }
  }

  /** The loop of the statistics section: the count of every entity, and the
      count of every user over the entries that have one. */
  method Stats(logs: seq<ChangeLog>) returns (entidades: Tally<string>, usuarios: Tally<string>)
    ensures entidades == TallyOf(Entities(logs))
    ensures usuarios == TallyOf(Users(logs))
  {
    entidades := [];
    usuarios := [];
    for i := 0 to |logs|
      invariant entidades == TallyOf(Entities(logs[..i]))
      invariant usuarios == TallyOf(Users(logs[..i]))
    {
      StatsStep(logs, i);
      entidades := Bump(entidades, logs[i].entidad, 1);
      if logs[i].user.Some? && logs[i].user.value != "" {
        usuarios := Bump(usuarios, logs[i].user.value, 1);
      }
    }
    assert logs[..|logs|] == logs;
  }

  lemma {:induction false} EntitiesCount(logs: seq<ChangeLog>, k: string)
    ensures Occurrences(Entities(logs), k) == Seqs.Count(logs, (e: ChangeLog) => e.entidad == k)
    decreases |logs|
  {
    if logs != [] {
      var init := logs[..|logs| - 1];
      var e := logs[|logs| - 1];
      EntitiesCount(init, k);
      assert logs == init + [e];
      var p := (e: ChangeLog) => e.entidad == k;
      Seqs.FilterAppend(init, e, p);
      assert Seqs.Filter(logs, p) == Seqs.Filter(init, p) + (if p(e) then [e] else []);
      assert Entities(logs) == Entities(init) + [e.entidad];
      OccurrencesAppend(Entities(init), e.entidad, k);
    }
  }

  lemma {:induction false} UsersCount(logs: seq<ChangeLog>, u: string)
    ensures Occurrences(Users(logs), u) == Seqs.Count(logs, (e: ChangeLog) => HasUser(e) && e.user.value == u)
    ensures |Users(logs)| == Seqs.Count(logs, HasUser)
    decreases |logs|
  {
    if logs != [] {
      var init := logs[..|logs| - 1];
      var e := logs[|logs| - 1];
      UsersCount(init, u);
      assert logs == init + [e];
      var p := (e: ChangeLog) => HasUser(e) && e.user.value == u;
      Seqs.FilterAppend(init, e, p);
      Seqs.FilterAppend(init, e, HasUser);
      if HasUser(e) {
        assert Users(logs) == Users(init) + [e.user.value];
        assert Seqs.Filter(logs, HasUser) == Seqs.Filter(init, HasUser) + [e];
        OccurrencesAppend(Users(init), e.user.value, u);
        assert Seqs.Filter(logs, p) == Seqs.Filter(init, p) + (if e.user.value == u then [e] else []);
      } else {
        assert Users(logs) == Users(init);
        assert Seqs.Filter(logs, HasUser) == Seqs.Filter(init, HasUser);
        assert Seqs.Filter(logs, p) == Seqs.Filter(init, p);
      }
    }
  }

  lemma {:induction false} UsersMember(logs: seq<ChangeLog>, u: string)
    ensures u in Users(logs) <==> exists i :: 0 <= i < |logs| && HasUser(logs[i]) && logs[i].user.value == u
    decreases |logs|
  {
    if logs != [] {
      var init := logs[..|logs| - 1];
      UsersMember(init, u);
      if exists i :: 0 <= i < |init| && HasUser(init[i]) && init[i].user.value == u {
        var i :| 0 <= i < |init| && HasUser(init[i]) && init[i].user.value == u;
        assert logs[i] == init[i];
      }
      if exists i :: 0 <= i < |logs| && HasUser(logs[i]) && logs[i].user.value == u {
        var i :| 0 <= i < |logs| && HasUser(logs[i]) && logs[i].user.value == u;
        if i < |init| {
          assert init[i] == logs[i];
        }
      }
    }
  }

  /** What the three figures and the two charts of the statistics section show:
      the per-entity counts cover every entry once and sum to the total; the
      per-user counts cover exactly the entries with a user; each key appears
      once, so the numbers of distinct users and entities are the lengths of
      the tallies. */
  lemma StatsMeaning(logs: seq<ChangeLog>, k: string)
    ensures DistinctKeys(TallyOf(Entities(logs))) && DistinctKeys(TallyOf(Users(logs)))
    ensures Total(TallyOf(Entities(logs))) == |logs|
    ensures Total(TallyOf(Users(logs))) == Seqs.Count(logs, HasUser)
    ensures Get(TallyOf(Entities(logs)), k) == Seqs.Count(logs, (e: ChangeLog) => e.entidad == k)
    ensures Get(TallyOf(Users(logs)), k) == Seqs.Count(logs, (e: ChangeLog) => HasUser(e) && e.user.value == k)
    ensures k in KeySet(TallyOf(Entities(logs))) <==> exists i :: 0 <= i < |logs| && logs[i].entidad == k
    ensures k in KeySet(TallyOf(Users(logs))) <==> exists i :: 0 <= i < |logs| && HasUser(logs[i]) && logs[i].user.value == k
    ensures |TallyOf(Entities(logs))| == |KeySet(TallyOf(Entities(logs)))|
    ensures |TallyOf(Users(logs))| == |KeySet(TallyOf(Users(logs)))|
  {
    var es, us := Entities(logs), Users(logs);
    TallyOfShape(es);
    TallyOfShape(us);
    UsersCount(logs, k);
    TallyOfGet(es, k);
    EntitiesCount(logs, k);
    TallyOfGet(us, k);
    TallyOfKeys(es);
    TallyOfKeys(us);
    UsersMember(logs, k);
    if k in us {
      var i :| 0 <= i < |us| && us[i] == k;
    }
    DistinctKeysCard(TallyOf(es));
    DistinctKeysCard(TallyOf(us));
  }
}
