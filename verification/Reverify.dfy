/**
 reverifyAll (internal/cli/reverify.go): the living verification loop. Reads, writes and the verifier
 may fail at every site and the pass may be cancelled between any two; the count is exact all the same.
 */
module Reverify {
  import opened Prelude
  import opened SiteStore

  ghost predicate IsVerified(row: Row) {
    row.proof.state == Verified
  }

  ghost function VerifiedIds(rows: Rows): set<int> {
    set i | i in rows && IsVerified(rows[i])
  }

  /** The sites that went from verified to not verified. */
  ghost function Demoted(before: Rows, after: Rows): set<int>
    requires after.Keys == before.Keys
  {
    set i | i in before && IsVerified(before[i]) && !IsVerified(after[i])
  }

  /** What the verifier says of a row: nothing conclusive, or a record. */
  type Verifier = (int, Row) -> Option<Proof>

  /** What re-checking makes of a row when nothing fails. */
  function Checked(vf: Verifier, id: int, row: Row, now: int): Row {
    if !row.enabled || row.proof.state != Verified then row
    else if row.proof.means == "" then row.(proof := NO_PROOF.(lastReverifiedAt := Some(now)))
    else
      match vf(id, row)
      case None => row
      case Some(record) =>
        if record.state != Verified then row.(proof := record)
        else row.(proof := row.proof.(lastReverifiedAt := Some(now)))
  }

  /** Every row is as it was or as re-checking makes it. */
  ghost predicate Demotes(vf: Verifier, before: Rows, after: Rows, now: int) {
    && after.Keys == before.Keys
    && forall i :: i in before ==> after[i] == before[i] || after[i] == Checked(vf, i, before[i], now)
  }

  /** What that allows: nothing is promoted, human decisions stay, and a proof that holds is kept. */
  lemma CheckedOnlyDemotes(vf: Verifier, id: int, row: Row, now: int)
    ensures var after := Checked(vf, id, row, now);
      && after == row.(proof := after.proof)
      && (!row.enabled || !IsVerified(row) ==> after == row)
      && (IsVerified(after) ==>
           IsVerified(row) && after.proof == row.proof.(lastReverifiedAt := after.proof.lastReverifiedAt))
      && (IsVerified(row) && !IsVerified(after) ==>
           row.proof.means == "" || (vf(id, row).Some? && vf(id, row).value.state != Verified))
  {}

  /** How many of the store operations from one to another fail. */
  function Faults(faulty: nat -> bool, from: nat, to: nat): nat {
    if to <= from then 0 else Faults(faulty, from, to - 1) + if faulty(to - 1) then 1 else 0
  }

  lemma {:induction false} FaultsAdd(faulty: nat -> bool, a: nat, b: nat, c: nat)
    requires a <= b <= c
    ensures Faults(faulty, a, c) == Faults(faulty, a, b) + Faults(faulty, b, c)
  {
    if b < c {
      FaultsAdd(faulty, a, b, c - 1);
    }
  }

  /** One site: whether a demotion landed. */
  method ReverifyOne(db: SiteDB, vf: Verifier, id: int, now: int) returns (demoted: bool)
    requires db.Valid() && id in db.rows
    modifies db
    ensures db.Valid() && db.rows.Keys == old(db.rows.Keys) && old(db.ops) <= db.ops
    ensures forall i :: i in db.rows && i != id ==> db.rows[i] == old(db.rows[i])
    ensures db.rows[id] == old(db.rows[id]) || db.rows[id] == Checked(vf, id, old(db.rows[id]), now)
    ensures db.Smooth(old(db.ops)) ==> db.rows[id] == Checked(vf, id, old(db.rows[id]), now)
    ensures db.rows[id] == Checked(vf, id, old(db.rows[id]), now) || 0 < Faults(db.faulty, old(db.ops), db.ops)
    ensures demoted == (old(IsVerified(db.rows[id])) && !IsVerified(db.rows[id]))
  {
    demoted := false;
    if !db.rows[id].enabled {
      return;
    }
    var rec := db.GetVerification(id);
    if rec.None? {
      return; // a read glitch never demotes
    }
    match rec.value.state {
      case Verified =>
        if rec.value.means == "" {
          demoted := db.SaveVerification(id, NO_PROOF.(lastReverifiedAt := Some(now)));
          return;
        }
        var outcome := vf(id, db.rows[id]);
        if outcome.None? {
          return; // inconclusive
        }
        if outcome.value.state != Verified {
          demoted := db.SaveVerification(id, outcome.value);
          return;
        }
        var saved := db.SaveVerification(id, rec.value.(lastReverifiedAt := Some(now)));
      case _ =>
    }
  }

  lemma DemotedNext(before: Rows, rows: Rows, after: Rows, id: int)
    requires before.Keys == rows.Keys == after.Keys && id in before && rows[id] == before[id]
    requires forall i :: i in after && i != id ==> after[i] == rows[i]
    ensures id !in Demoted(before, rows)
    ensures Demoted(before, after) ==
      Demoted(before, rows) + (if IsVerified(rows[id]) && !IsVerified(after[id]) then {id} else {})
  {
    assert forall i :: (i in before.Keys <==> i in rows.Keys) && (i in before.Keys <==> i in after.Keys);
    var added := if IsVerified(rows[id]) && !IsVerified(after[id]) then {id} else {};
    assert forall i :: i in Demoted(before, after) <==> i in Demoted(before, rows) + added;
  }

  /** The sites from the k-th on are as before the pass. */
  ghost predicate Untouched(sites: seq<int>, k: nat, before: Rows, rows: Rows)
    requires rows.Keys == before.Keys && Enumerates(sites, before.Keys)
  {
    forall j :: k <= j < |sites| ==> rows[sites[j]] == before[sites[j]]
  }

  /** The sites before the k-th are as re-checking makes them. */
  ghost predicate CheckedTo(vf: Verifier, sites: seq<int>, k: nat, before: Rows, rows: Rows, now: int)
    requires rows.Keys == before.Keys && Enumerates(sites, before.Keys)
  {
    forall j :: 0 <= j < k && j < |sites| ==> rows[sites[j]] == Checked(vf, sites[j], before[sites[j]], now)
  }

  lemma OneMore(vf: Verifier, sites: seq<int>, k: nat, before: Rows, rows: Rows, after: Rows, now: int)
    requires rows.Keys == before.Keys == after.Keys && Enumerates(sites, before.Keys) && k < |sites|
    requires Demotes(vf, before, rows, now) && Untouched(sites, k, before, rows)
    requires forall i :: i in after && i != sites[k] ==> after[i] == rows[i]
    requires after[sites[k]] == rows[sites[k]] || after[sites[k]] == Checked(vf, sites[k], rows[sites[k]], now)
    ensures Demotes(vf, before, after, now) && Untouched(sites, k + 1, before, after)
    ensures CheckedTo(vf, sites, k, before, rows, now) && after[sites[k]] == Checked(vf, sites[k], rows[sites[k]], now)
      ==> CheckedTo(vf, sites, k + 1, before, after, now)
    ensures |Demoted(before, after)|
         == |Demoted(before, rows)| + if IsVerified(rows[sites[k]]) && !IsVerified(after[sites[k]]) then 1 else 0
  {
    DemotedNext(before, rows, after, sites[k]);
    assert forall j :: 0 <= j < |sites| && j != k ==> sites[j] != sites[k];
  }

  /** The sites whose proof has vanished: verified without a method to check by, or cleanly missed. */
  ghost function Vanished(vf: Verifier, rows: Rows): set<int> {
    set i | i in rows && rows[i].enabled && rows[i].proof.state == Verified
            && (rows[i].proof.means == "" || (vf(i, rows[i]).Some? && vf(i, rows[i]).value.state != Verified))
  }

  /** The sites that are not as re-checking makes them. */
  ghost function Missed(vf: Verifier, before: Rows, after: Rows, now: int): set<int> {
    set i | i in before && i in after && after[i] != Checked(vf, i, before[i], now)
  }

  ghost function MissedOf(vf: Verifier, ids: seq<int>, before: Rows, after: Rows, now: int): set<int> {
    set i | i in ids && i in Missed(vf, before, after, now)
  }

  lemma MissedNext(vf: Verifier, sites: seq<int>, k: nat, before: Rows, rows: Rows, after: Rows, now: int)
    requires rows.Keys == before.Keys == after.Keys && Enumerates(sites, before.Keys) && k < |sites|
    requires Untouched(sites, k, before, rows) && forall i :: i in after && i != sites[k] ==> after[i] == rows[i]
    ensures |MissedOf(vf, sites[..k + 1], before, after, now)| <=
      |MissedOf(vf, sites[..k], before, rows, now)|
      + if after[sites[k]] == Checked(vf, sites[k], rows[sites[k]], now) then 0 else 1
  {
    var earlier, later := MissedOf(vf, sites[..k], before, rows, now), MissedOf(vf, sites[..k + 1], before, after, now);
    var own := if after[sites[k]] == Checked(vf, sites[k], rows[sites[k]], now) then {} else {sites[k]};
    forall i | i in later ensures i in earlier + own {
      MissedBefore(vf, sites, k, before, rows, after, now, i);
    }
    FewerThan(later, earlier, own);
  }

  /** Whoever is missed after one more site was missed before it, or is that site. */
  lemma MissedBefore(vf: Verifier, sites: seq<int>, k: nat, before: Rows, rows: Rows, after: Rows, now: int, i: int)
    requires rows.Keys == before.Keys == after.Keys && k < |sites| && sites[k] in before
    requires rows[sites[k]] == before[sites[k]]
    requires forall j :: j in after && j != sites[k] ==> after[j] == rows[j]
    requires i in MissedOf(vf, sites[..k + 1], before, after, now)
    ensures i in MissedOf(vf, sites[..k], before, rows, now)
      || (i == sites[k] && after[i] != Checked(vf, i, rows[i], now))
  {
    assert sites[..k + 1] == sites[..k] + [sites[k]];
    assert i in before.Keys && i in rows.Keys;
  }

  lemma FewerThan(a: set<int>, b: set<int>, c: set<int>)
    requires a <= b + c
    ensures |a| <= |b| + |c|
  {
    assert |a| <= |b + c| by {
      assert |(b + c) - a| == |b + c| - |a|;
    }
    assert |b + c| == |b| + |c - b| && |c - b| <= |c| by {
      assert b + c == b + (c - b);
      assert c == (c - b) + (c * b);
    }
  }

  lemma MissedAll(vf: Verifier, sites: seq<int>, before: Rows, after: Rows, now: int)
    requires after.Keys == before.Keys && Enumerates(sites, before.Keys)
    ensures MissedOf(vf, sites, before, after, now) == Missed(vf, before, after, now)
  {}

  /** The pass; cancelled(k) says whether the context is done when the k-th site is up. */
  method ReverifyAll(db: SiteDB, vf: Verifier, now: int, cancelled: nat -> bool)
    returns (demotedCount: nat, finished: bool)
    requires db.Valid()
    modifies db
    ensures db.Valid() && Demotes(vf, old(db.rows), db.rows, now)
    ensures demotedCount == |Demoted(old(db.rows), db.rows)|
    ensures old(db.ops) <= db.ops && (finished && db.Smooth(old(db.ops)) ==> AllChecked(vf, old(db.rows), db.rows, now))
    ensures (forall k :: !cancelled(k)) && !db.faulty(old(db.ops)) ==> finished
    // Best effort: a fault costs at most the one site it hits.
    ensures finished ==> |Missed(vf, old(db.rows), db.rows, now)| <= Faults(db.faulty, old(db.ops), db.ops)
    // Without a fault a finished pass demotes exactly the vanished proofs.
    ensures finished && db.Smooth(old(db.ops)) ==> demotedCount == |Vanished(vf, old(db.rows))|
  {
    demotedCount, finished := 0, false;
    ghost var before, start := db.rows, db.ops;
    assert Demoted(before, before) == {};
    var ids := db.ListSites();
    if ids.None? {
      return;
    }
    var sites := ids.value;
    for k := 0 to |sites|
      invariant db.Valid() && start < db.ops && start == old(db.ops)
      invariant Demotes(vf, before, db.rows, now) && Untouched(sites, k, before, db.rows)
      invariant db.Smooth(start) ==> CheckedTo(vf, sites, k, before, db.rows, now)
      invariant demotedCount == |Demoted(before, db.rows)|
      invariant |MissedOf(vf, sites[..k], before, db.rows, now)| <= Faults(db.faulty, start, db.ops)
    {
      if cancelled(k) {
        return;
      }
      ghost var rows, ops := db.rows, db.ops;
      var demoted := ReverifyOne(db, vf, sites[k], now);
      OneMore(vf, sites, k, before, rows, db.rows, now);
      MissedNext(vf, sites, k, before, rows, db.rows, now);
      FaultsAdd(db.faulty, start, ops, db.ops);
      if demoted {
        demotedCount := demotedCount + 1;
      }
    }
    finished := true;
    assert sites[..|sites|] == sites;
    MissedAll(vf, sites, before, db.rows, now);
    if db.Smooth(start) {
      FinishedPass(vf, before, db.rows, now);
    }
  }

  /**
   After a finished pass without a fault an enabled verified site falls in one of four cases: no method,
   a clean miss, a proof that holds, or no answer. Every other site is as it was, and the sites that
   went from verified to not verified are those whose proof has vanished.
   */
  lemma FinishedPass(vf: Verifier, before: Rows, after: Rows, now: int)
    requires AllChecked(vf, before, after, now)
    ensures forall i :: i in before && before[i].enabled && before[i].proof.state == Verified ==>
      var proof, answer := before[i].proof, vf(i, before[i]);
      && (proof.means == "" ==> after[i] == before[i].(proof := Proof(Throttled, "", "", None, Some(now))))
      && (proof.means != "" && answer.Some? && answer.value.state != Verified ==>
            after[i] == before[i].(proof := answer.value))
      && (proof.means != "" && answer.Some? && answer.value.state == Verified ==>
            after[i] == before[i].(proof := proof.(lastReverifiedAt := Some(now))))
      && (proof.means != "" && answer.None? ==> after[i] == before[i])
    ensures forall i :: i in before && !(before[i].enabled && before[i].proof.state == Verified) ==>
      after[i] == before[i]
    ensures Demoted(before, after) == Vanished(vf, before)
  {
    assert forall i :: i in before.Keys <==> i in after.Keys;
    assert forall i :: i in Demoted(before, after) <==> i in Vanished(vf, before);
  }

  ghost predicate AllChecked(vf: Verifier, before: Rows, after: Rows, now: int) {
    after.Keys == before.Keys && forall i :: i in before ==> after[i] == Checked(vf, i, before[i], now)
  }

  // ---------- Many passes ----------

  function Sum(counts: seq<nat>): nat {
    if counts == [] then 0 else counts[0] + Sum(counts[1..])
  }

  /** Tables between passes, each pass's verifier and time, and their counts. */
  ghost predicate Passes(vfs: seq<Verifier>, tables: seq<Rows>, times: seq<int>, counts: seq<nat>) {
    && |tables| == |counts| + 1 == |times| + 1 == |vfs| + 1
    && forall k :: 0 <= k < |counts| ==> IsPass(vfs[k], tables[k], tables[k + 1], times[k], counts[k])
  }

  ghost predicate IsPass(vf: Verifier, before: Rows, after: Rows, now: int, count: nat) {
    Demotes(vf, before, after, now) && count == |Demoted(before, after)|
  }

  lemma PassConserves(vf: Verifier, before: Rows, after: Rows, now: int)
    requires Demotes(vf, before, after, now)
    ensures |VerifiedIds(before)| == |VerifiedIds(after)| + |Demoted(before, after)|
    ensures VerifiedIds(after) <= VerifiedIds(before)
  {
    assert forall i :: i in before.Keys <==> i in after.Keys;
    assert forall i :: i in before && IsVerified(after[i]) ==> IsVerified(before[i]);
    assert VerifiedIds(before) == VerifiedIds(after) + Demoted(before, after);
    assert VerifiedIds(after) !! Demoted(before, after);
  }

  /**
   Over any number of passes, whatever each pass's verifier answers, the counts and the sites still
   verified add up to the sites verified at first.
   */
  lemma {:induction false} CountsAddUp(vfs: seq<Verifier>, tables: seq<Rows>, times: seq<int>, counts: seq<nat>)
    requires Passes(vfs, tables, times, counts)
    ensures Sum(counts) + |VerifiedIds(tables[|counts|])| == |VerifiedIds(tables[0])|
    ensures VerifiedIds(tables[|counts|]) <= VerifiedIds(tables[0])
  {
    if counts != [] {
      assert IsPass(vfs[0], tables[0], tables[1], times[0], counts[0]);
      PassConserves(vfs[0], tables[0], tables[1], times[0]);
      forall k | 0 <= k < |counts[1..]|
        ensures IsPass(vfs[1..][k], tables[1..][k], tables[1..][k + 1], times[1..][k], counts[1..][k])
      {
        assert IsPass(vfs[k + 1], tables[k + 1], tables[k + 2], times[k + 1], counts[k + 1]);
      }
      CountsAddUp(vfs[1..], tables[1..], times[1..], counts[1..]);
    }
  }

  /** The proof a still verified site shows was there before the first pass. */
  lemma {:induction false} ProofSurvives(vfs: seq<Verifier>, tables: seq<Rows>, times: seq<int>, counts: seq<nat>,
                                         id: int)
    requires Passes(vfs, tables, times, counts) && id in VerifiedIds(tables[|counts|])
    ensures id in VerifiedIds(tables[0])
    ensures var first, last := tables[0][id].proof, tables[|counts|][id].proof;
      last == first.(lastReverifiedAt := last.lastReverifiedAt)
  {
    if counts != [] {
      var n := |counts| - 1;
      assert IsPass(vfs[n], tables[n], tables[n + 1], times[n], counts[n]);
      ProofSurvives(vfs[..n], tables[..n + 1], times[..n], counts[..n], id);
    }
  }
}
