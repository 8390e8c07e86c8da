/** The sites table (internal/store): rows by id, one per base URL, each with its proof record. */
module SiteStore {
  import opened Prelude

  /** The lifecycle tier; the column default is Throttled, and anything else is left alone. */
  datatype ProofState = Verified | Attested | Throttled | Other(name: string)

  datatype Proof = Proof(state: ProofState, means: string, token: string, verifiedAt: Option<int>,
                         lastReverifiedAt: Option<int>)

  datatype Budget = Budget(minInterval: int, concurrency: int)

  datatype Row = Row(baseURL: string, enabled: bool, budget: Budget, proof: Proof)

  const NO_PROOF := Proof(Throttled, "", "", None, None)

  type Rows = map<int, Row>

  ghost predicate UniqueURLs(rows: Rows) {
    && (forall i, j :: i in rows && j in rows && rows[i].baseURL == rows[j].baseURL ==> i == j)
    && forall i :: i in rows ==> rows[i].baseURL != ""
  }

  ghost function EnabledURLs(rows: Rows): set<string> {
    set i | i in rows && rows[i].enabled :: rows[i].baseURL
  }

  ghost predicate Has(rows: Rows, url: string) {
    exists i :: i in rows && rows[i].baseURL == url
  }

  datatype Lookup = Found(id: int) | NotFound | Failed

  /** Any operation may fail: the n-th does exactly if faulty(n). A failed write is rolled back. */
  class SiteDB {
    const faulty: nat -> bool
    var ops: nat
    var rows: Rows
    var nextId: int

    ghost predicate Valid()
      reads this
    {
      UniqueURLs(rows) && 0 < nextId && forall i :: i in rows ==> 0 < i < nextId
    }

    /** No operation since a moment has failed. */
    ghost predicate Smooth(since: nat)
      reads this`ops
    {
      forall k :: since <= k < ops ==> !faulty(k)
    }

    constructor (faulty: nat -> bool)
      ensures Valid() && rows == map[] && ops == 0 && this.faulty == faulty
    {
      this.faulty, ops, rows, nextId := faulty, 0, map[], 1;
    }

    /** The next operation: does it go through? */
    method Attempt() returns (ok: bool)
      modifies this`ops
      ensures ops == old(ops) + 1 && ok == !faulty(old(ops))
    {
      ok := !faulty(ops);
      ops := ops + 1;
    }

    method Find(url: string) returns (id: Option<int>)
      ensures id.Some? ==> id.value in rows && rows[id.value].baseURL == url
      ensures id.None? == !Has(rows, url)
    {
      var rest := rows.Keys;
      while rest != {}
        invariant rest <= rows.Keys && forall i :: i in rows.Keys - rest ==> rows[i].baseURL != url
        decreases |rest|
      {
        assert (forall i :: i !in rest) ==> rest == {};
        var i :| i in rest;
        if rows[i].baseURL == url {
          return Some(i);
        }
        rest := rest - {i};
      }
      id := None;
    }

    method GetSiteByBaseURL(url: string) returns (r: Lookup)
      modifies this`ops
      ensures ops == old(ops) + 1 && r.Failed? == faulty(old(ops))
      ensures r.Found? ==> r.id in rows && rows[r.id].baseURL == url
      ensures r.NotFound? ==> !Has(rows, url)
    {
      var ok := Attempt();
      if !ok {
        return Failed;
      }
      var id := Find(url);
      r := if id.Some? then Found(id.value) else NotFound;
    }

    method GetSite(id: int) returns (url: Option<string>)
      modifies this`ops
      ensures ops == old(ops) + 1
      ensures url == if !faulty(old(ops)) && id in rows then Some(rows[id].baseURL) else None
    {
      var ok := Attempt();
      url := if ok && id in rows then Some(rows[id].baseURL) else None;
    }

    /** An insert; the unique index refuses a second row for a base URL. */
    method AddSite(url: string, budget: Budget) returns (ok: bool, id: int)
      requires Valid() && url != ""
      modifies this
      ensures Valid() && ops == old(ops) + 1 && old(nextId) <= nextId
      ensures ok == (!faulty(old(ops)) && !Has(old(rows), url))
      ensures ok ==> id !in old(rows) && old(nextId) <= id && rows == old(rows)[id := Row(url, true, budget, NO_PROOF)]
      ensures !ok ==> rows == old(rows)
    {
      ok := Attempt();
      var existing := Find(url);
      ok, id := ok && existing.None?, nextId;
      if ok {
        rows := rows[id := Row(url, true, budget, NO_PROOF)];
        nextId := nextId + 1;
      }
    }

    method SetSiteEnabled(id: int, enabled: bool) returns (ok: bool)
      requires Valid()
      modifies this`ops, this`rows
      ensures Valid() && ops == old(ops) + 1 && ok == !faulty(old(ops))
      ensures rows == if ok && id in old(rows) then old(rows)[id := old(rows)[id].(enabled := enabled)] else old(rows)
    {
      ok := Attempt();
      if ok && id in rows {
        rows := rows[id := rows[id].(enabled := enabled)];
      }
    }

    method SetSiteThrottle(id: int, budget: Budget) returns (ok: bool)
      requires Valid()
      modifies this`ops, this`rows
      ensures Valid() && ops == old(ops) + 1 && ok == !faulty(old(ops))
      ensures rows == if ok && id in old(rows) then old(rows)[id := old(rows)[id].(budget := budget)] else old(rows)
    {
      ok := Attempt();
      if ok && id in rows {
        rows := rows[id := rows[id].(budget := budget)];
      }
    }

    method DeleteSite(id: int) returns (ok: bool)
      requires Valid()
      modifies this`ops, this`rows
      ensures Valid() && ops == old(ops) + 1 && ok == !faulty(old(ops))
      ensures rows == if ok then old(rows) - {id} else old(rows)
    {
      ok := Attempt();
      if ok {
        rows := rows - {id};
      }
    }

    method GetVerification(id: int) returns (r: Option<Proof>)
      modifies this`ops
      ensures ops == old(ops) + 1
      ensures r == if !faulty(old(ops)) && id in rows then Some(rows[id].proof) else None
    {
      var ok := Attempt();
      r := if ok && id in rows then Some(rows[id].proof) else None;
    }

    method SaveVerification(id: int, proof: Proof) returns (ok: bool)
      requires Valid()
      modifies this`ops, this`rows
      ensures Valid() && ops == old(ops) + 1 && ok == (!faulty(old(ops)) && id in old(rows))
      ensures rows == if ok then old(rows)[id := old(rows)[id].(proof := proof)] else old(rows)
    {
      ok := Attempt();
      ok := ok && id in rows;
      if ok {
        rows := rows[id := rows[id].(proof := proof)];
      }
    }

    /** The ids of all rows, each once. */
    method ListSites() returns (ids: Option<seq<int>>)
      modifies this`ops
      ensures ops == old(ops) + 1 && ids.None? == faulty(old(ops))
      ensures ids.Some? ==> Enumerates(ids.value, rows.Keys)
    {
      var ok := Attempt();
      if !ok {
        return None;
      }
      var all: seq<int> := [];
      var rest := rows.Keys;
      while rest != {}
        invariant rest <= rows.Keys && Enumerates(all, rows.Keys - rest)
        decreases |rest|
      {
        assert (forall i :: i !in rest) ==> rest == {};
        var i :| i in rest;
        all, rest := all + [i], rest - {i};
      }
      ids := Some(all);
    }
  }

  ghost predicate Enumerates(ids: seq<int>, keys: set<int>) {
    && (forall i, j :: 0 <= i < j < |ids| ==> ids[i] != ids[j])
    && (forall i :: 0 <= i < |ids| ==> ids[i] in keys)
    && forall k :: k in keys ==> k in ids
  }
}
