/**
 * `log_change` (lib/helpers.py): appends one entry to the change log, in a
 * session and a commit of its own, stamped with the time of the call.
 */
module Helpers {
  import opened Wrappers
  import opened Dates
  import opened Models

  /** The arguments of `log_change`; the optional ones are `None` when omitted. */
  datatype LogArgs = LogArgs(
    entidad: string,
    entidadId: string,
    campo: Option<string>,
    anterior: Option<LogValue>,
    nuevo: Option<LogValue>,
    motivo: Option<string>,
    user: Option<string>)

  /** A call that passes only the entity and its id. */
  function Bare(entidad: string, entidadId: string): (a: LogArgs)
    ensures a.entidad == entidad && a.entidadId == entidadId
    ensures a.campo.None? && a.anterior.None? && a.nuevo.None? && a.motivo.None? && a.user.None?
  {
    LogArgs(entidad, entidadId, None, None, None, None, None)
  }

  /** The row `log_change` inserts into a log holding `logs`. */
  function NewEntry(logs: seq<ChangeLog>, now: Stamp, a: LogArgs): (e: ChangeLog)
    ensures e.id !in LogIds(logs)
    ensures forall i :: 0 <= i < |logs| ==> logs[i].id < e.id
    ensures e.ts == now
    ensures e.entidad == a.entidad && e.entidadId == Some(a.entidadId) && e.campo == a.campo
    ensures e.anterior == a.anterior && e.nuevo == a.nuevo && e.motivo == a.motivo && e.user == a.user
  {
    assert forall i :: 0 <= i < |logs| ==> LogIds(logs)[i] == logs[i].id;
    ChangeLog(NextId(LogIds(logs)), now, a.user, a.entidad, Some(a.entidadId), a.campo, a.anterior, a.nuevo, a.motivo)
  }

  /** The tables after `log_change(...)` at time `now`. */
  function Logged(t: Tables, now: Stamp, a: LogArgs): Tables {
    t.(logs := t.logs + [NewEntry(t.logs, now, a)])
  }

  /** Logging adds exactly one entry at the end, keeps every earlier entry
      and every other table, and keeps the enforced constraints. */
  lemma LoggedAppendsOne(t: Tables, now: Stamp, a: LogArgs)
    ensures |Logged(t, now, a).logs| == |t.logs| + 1
    ensures Logged(t, now, a).logs[..|t.logs|] == t.logs
    ensures Logged(t, now, a).(logs := t.logs) == t
    ensures Constraints(t) ==> Constraints(Logged(t, now, a))
  {
    var t' := Logged(t, now, a);
    var e := NewEntry(t.logs, now, a);
    assert t'.logs[..|t.logs|] == t.logs;
    if Constraints(t) {
      var ids := LogIds(t'.logs);
      forall i, j | 0 <= i < j < |ids| ensures ids[i] != ids[j] {
        if j == |t.logs| {
          assert ids[i] == t.logs[i].id;
        } else {
          assert ids[i] == LogIds(t.logs)[i] && ids[j] == LogIds(t.logs)[j];
        }
      }
    }
  }

  /** `log_change`. */
  method LogChange(db: Database, now: Stamp, a: LogArgs)
    modifies db
    ensures db.Snapshot() == Logged(old(db.Snapshot()), now, a)
  {
    var e := NewEntry(db.logs, now, a);
    db.logs := db.logs + [e];
  }
}
