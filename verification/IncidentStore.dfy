/**
 The incident tables (internal/store/incidents.go, internal/store/alert_members.go): the
 part of the database the alert pipeline reads and writes. `DB` is the content of the
 tables `alerts` and `alert_members`; `Store` is the object holding it. A store call may
 fail, and then it changes nothing.
 */
module IncidentStore {
  import opened Prelude
  import opened Identity

  datatype Alert = Alert(
    siteID: int, fingerprint: string, groupKey: string, severity: Severity, open: bool, affected: int,
    firstDetected: int, lastUpdated: int, lastNotified: Option<int>, autoClosed: Option<int>)

  datatype DB = DB(rows: map<int, Alert>, members: map<int, set<string>>, nextId: int)

  const EMPTY_DB := DB(map[], map[], 1)

  predicate IsOpen(db: DB, fp: string, id: int) {
    id in db.rows && db.rows[id].open && db.rows[id].fingerprint == fp
  }

  function Members(db: DB, id: int): set<string> {
    if id in db.members then db.members[id] else {}
  }

  /** At most one incident per fingerprint is open. */
  ghost predicate Unique(db: DB) {
    forall fp, i, j :: IsOpen(db, fp, i) && IsOpen(db, fp, j) ==> i == j
  }

  ghost predicate ValidDB(db: DB) {
    && (forall id :: id in db.rows ==> id < db.nextId)
    && db.members.Keys <= db.rows.Keys
    && Unique(db)
  }

  ghost function OpenId(db: DB, fp: string): (r: Option<int>)
    ensures r.Some? ==> IsOpen(db, fp, r.value)
    ensures r.None? ==> forall id :: !IsOpen(db, fp, id)
  {
    if exists id :: IsOpen(db, fp, id) then
      var id :| IsOpen(db, fp, id);
      Some(id)
    else None
  }

  /** The member URLs of the incident now open for a fingerprint. */
  ghost function OpenMembers(db: DB, fp: string): set<string> {
    match OpenId(db, fp)
    case None => {}
    case Some(id) => Members(db, id)
  }

  // ---------- The statements, as functions of the tables ----------

  function Insert(db: DB, a: Alert): DB {
    db.(rows := db.rows[db.nextId := a], nextId := db.nextId + 1)
  }

  /** UPDATE alerts ... WHERE id: identity and detection time are not in its SET list. */
  function Update(db: DB, id: int, a: Alert): DB {
    if id !in db.rows then db
    else
      var row := db.rows[id].(severity := a.severity, open := a.open, affected := a.affected,
                              lastUpdated := a.lastUpdated, lastNotified := a.lastNotified, autoClosed := a.autoClosed);
      db.(rows := db.rows[id := row])
  }

  function Close(db: DB, id: int, at: int, auto: bool): DB {
    if id !in db.rows then db
    else
      var row := db.rows[id].(open := false, lastUpdated := at);
      db.(rows := db.rows[id := if auto then row.(autoClosed := Some(at)) else row])
  }

  /** INSERT OR IGNORE under a foreign key: only rows that exist have members. */
  function AddMember(db: DB, id: int, url: string): DB {
    if id !in db.rows then db else db.(members := db.members[id := Members(db, id) + {url}])
  }

  function RemoveMember(db: DB, id: int, url: string): DB {
    if id !in db.members then db else db.(members := db.members[id := db.members[id] - {url}])
  }

  // ---------- The store object ----------

  datatype Lookup = LookupFailed | NoneOpen | Found(id: int, row: Alert)

  class Store {
    var rows: map<int, Alert>
    var members: map<int, set<string>>
    var nextId: int

    function State(): DB
      reads this
    {
      DB(rows, members, nextId)
    }

    constructor ()
      ensures State() == EMPTY_DB
    {
      rows, members, nextId := map[], map[], 1;
    }

    method GetOpenIncident(fp: string, fails: bool) returns (r: Lookup)
      requires Unique(State())
      ensures r == if fails then LookupFailed
                   else match OpenId(State(), fp) case None => NoneOpen case Some(id) => Found(id, rows[id])
    {
      if fails {
        return LookupFailed;
      }
      if id :| id in rows && rows[id].open && rows[id].fingerprint == fp {
        assert IsOpen(State(), fp, id);
        r := Found(id, rows[id]);
      } else {
        assert forall id :: id in rows ==> !IsOpen(State(), fp, id);
        r := NoneOpen;
      }
    }

    method OpenIncident(a: Alert, fails: bool) returns (id: Option<int>)
      modifies this
      ensures fails ==> id == None && State() == old(State())
      ensures !fails ==> id == Some(old(nextId)) && State() == Insert(old(State()), a)
    {
      if fails {
        return None;
      }
      id := Some(nextId);
      rows := rows[nextId := a];
      nextId := nextId + 1;
    }

    method UpdateIncident(id: int, a: Alert, fails: bool) returns (ok: bool)
      modifies this
      ensures ok == !fails
      ensures State() == if fails then old(State()) else Update(old(State()), id, a)
    {
      if !fails && id in rows {
        var row := rows[id];
        row := row.(severity := a.severity, open := a.open, affected := a.affected);
        row := row.(lastUpdated := a.lastUpdated, lastNotified := a.lastNotified, autoClosed := a.autoClosed);
        rows := rows[id := row];
      }
      ok := !fails;
    }

    method CloseIncident(id: int, at: int, auto: bool, fails: bool) returns (ok: bool)
      modifies this
      ensures ok == !fails
      ensures State() == if fails then old(State()) else Close(old(State()), id, at, auto)
    {
      if !fails && id in rows {
        var row := rows[id].(open := false, lastUpdated := at);
        if auto {
          row := row.(autoClosed := Some(at));
        }
        rows := rows[id := row];
      }
      ok := !fails;
    }

    method AddAlertMember(id: int, url: string, fails: bool) returns (ok: bool)
      modifies this
      ensures ok == !fails
      ensures State() == if fails then old(State()) else AddMember(old(State()), id, url)
    {
      if !fails && id in rows {
        members := members[id := (if id in members then members[id] else {}) + {url}];
      }
      ok := !fails;
    }

    method RemoveAlertMember(id: int, url: string, fails: bool) returns (remaining: Option<nat>)
      modifies this
      ensures fails ==> remaining == None && State() == old(State())
      ensures !fails ==> State() == RemoveMember(old(State()), id, url) && remaining == Some(|Members(State(), id)|)
    {
      if fails {
        return None;
      }
      if id in members {
        members := members[id := members[id] - {url}];
        remaining := Some(|members[id]|);
      } else {
        remaining := Some(0);
      }
    }

    /** The join of alert_members with the open rows of a fingerprint. */
    method HasOpenIncidentMember(fp: string, url: string, fails: bool) returns (found: Option<bool>)
      requires Unique(State())
      ensures found == if fails then None else Some(url in OpenMembers(State(), fp))
    {
      if fails {
        return None;
      }
      found := Some(exists id ::
        id in rows && rows[id].open && rows[id].fingerprint == fp && id in members && url in members[id]);
      if OpenId(State(), fp).None? {
        assert forall id :: id in rows ==> !IsOpen(State(), fp, id);
      } else {
        assert forall id :: id in rows && rows[id].open && rows[id].fingerprint == fp ==> IsOpen(State(), fp, id);
      }
    }

    /** The open incidents, in whatever order. */
    method ListOpenIncidents(fails: bool) returns (listed: Option<seq<int>>)
      ensures listed.None? == fails
      ensures listed.Some? ==> forall id :: id in listed.value <==> id in rows && rows[id].open
    {
      if fails {
        return None;
      }
      var left, ids: seq<int> := rows.Keys, [];
      while left != {}
        invariant left <= rows.Keys
        invariant forall id :: id in ids <==> id in rows && rows[id].open && id !in left
      {
        assert (forall k :: k !in left) ==> left == {};
        var id :| id in left;
        left := left - {id};
        if rows[id].open {
          ids := ids + [id];
        }
      }
      listed := Some(ids);
    }
  }

  // ---------- What the statements keep ----------

  lemma InsertKeepsValid(db: DB, a: Alert)
    requires ValidDB(db) && OpenId(db, a.fingerprint) == None
    ensures ValidDB(Insert(db, a))
    ensures forall fp ::
      OpenId(Insert(db, a), fp) == if a.open && fp == a.fingerprint then Some(db.nextId) else OpenId(db, fp)
  {
    var after := Insert(db, a);
    assert forall fp, id :: IsOpen(after, fp, id) <==>
      IsOpen(db, fp, id) || (id == db.nextId && a.open && fp == a.fingerprint);
    forall fp ensures OpenId(after, fp) == if a.open && fp == a.fingerprint then Some(db.nextId) else OpenId(db, fp) {
      if a.open && fp == a.fingerprint {
        assert IsOpen(after, fp, db.nextId);
      } else if OpenId(db, fp).Some? {
        assert IsOpen(after, fp, OpenId(db, fp).value);
      }
    }
  }

  /** Rewriting a row without changing whether it is open changes no incident's identity. */
  lemma UpdateKeepsValid(db: DB, id: int, a: Alert)
    requires ValidDB(db) && id in db.rows && a.open == db.rows[id].open
    ensures ValidDB(Update(db, id, a))
    ensures forall fp :: OpenId(Update(db, id, a), fp) == OpenId(db, fp)
  {
    var after := Update(db, id, a);
    assert forall fp, i :: IsOpen(after, fp, i) <==> IsOpen(db, fp, i);
  }

  lemma CloseKeepsValid(db: DB, id: int, at: int, auto: bool)
    requires ValidDB(db)
    ensures ValidDB(Close(db, id, at, auto))
    ensures forall fp :: OpenId(Close(db, id, at, auto), fp) == if IsOpen(db, fp, id) then None else OpenId(db, fp)
  {
    var after := Close(db, id, at, auto);
    assert forall fp, i :: IsOpen(after, fp, i) <==> IsOpen(db, fp, i) && i != id;
  }

  lemma MembersKeepValid(db: DB, id: int, url: string)
    requires ValidDB(db)
    ensures ValidDB(AddMember(db, id, url)) && ValidDB(RemoveMember(db, id, url))
    ensures forall fp :: OpenId(AddMember(db, id, url), fp) == OpenId(db, fp)
    ensures forall fp :: OpenId(RemoveMember(db, id, url), fp) == OpenId(db, fp)
  {
    assert forall fp, i :: IsOpen(AddMember(db, id, url), fp, i) <==> IsOpen(db, fp, i);
    assert forall fp, i :: IsOpen(RemoveMember(db, id, url), fp, i) <==> IsOpen(db, fp, i);
  }
}
