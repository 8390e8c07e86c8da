/**
 The per-recipient sliding-hour cap (internal/alerts/throttle.go).

 A recipient's window is the Go slice `w.sends`: a backing array that `allow` compacts in
 place (`kept := w.sends[:0]` aliases it) and then appends to. The specification is a pure
 filter of a sequence of send times.
 */
module Throttling {
  import opened Identity

  /** time.Hour, in nanoseconds. */
  const HOUR: int := 3_600_000_000_000

  // ---------- Specification ----------

  /** The send times that lie strictly after the cutoff, in order. */
  function After(sends: seq<int>, cutoff: int): seq<int> {
    if sends == [] then []
    else
      var init, last := sends[..|sends| - 1], sends[|sends| - 1];
      if last > cutoff then After(init, cutoff) + [last] else After(init, cutoff)
  }

  /** How many send times lie in the half-open hour that ends at t. */
  function InHour(sends: seq<int>, t: int): nat {
    if sends == [] then 0
    else InHour(sends[..|sends| - 1], t)
         + if t - 60 * 60 * 1_000_000_000 < sends[|sends| - 1] <= t then 1 else 0
  }

  function WindowOf(windows: map<string, seq<int>>, recipient: string): seq<int> {
    if recipient in windows then windows[recipient] else []
  }

  datatype Verdict = Verdict(admitted: bool, windows: map<string, seq<int>>)

  /** One call of `allow`: the verdict and the windows it leaves. */
  function AllowSpec(cap: int, windows: map<string, seq<int>>, now: int, recipient: string,
                     severity: Severity): Verdict {
    if severity == Critical || cap <= 0 then Verdict(true, windows)
    else
      var kept := After(WindowOf(windows, recipient), now - HOUR);
      if |kept| >= cap then Verdict(false, windows[recipient := kept])
      else Verdict(true, windows[recipient := kept + [now]])
  }

  /** The three updates the code makes to the table of windows add up to AllowSpec. */
  lemma AllowInSteps(cap: int, before: map<string, seq<int>>, ensured: map<string, seq<int>>,
                     pruned: map<string, seq<int>>, now: int, recipient: string, severity: Severity)
    requires severity != Critical && cap > 0
    requires ensured == before[recipient := WindowOf(before, recipient)]
    requires pruned == ensured[recipient := After(ensured[recipient], now - HOUR)]
    ensures AllowSpec(cap, before, now, recipient, severity) ==
      if |pruned[recipient]| < cap then Verdict(true, pruned[recipient := pruned[recipient] + [now]])
      else Verdict(false, pruned)
  {
    var kept := After(WindowOf(before, recipient), now - HOUR);
    assert pruned == before[recipient := kept];
    assert pruned[recipient := kept + [now]] == before[recipient := kept + [now]];
  }

  // ---------- The windows in memory ----------

  /** A Go slice of send times: a backing array of which the first `len` cells are in use. */
  class Window {
    var sends: array<int>
    var len: nat

    ghost predicate Valid()
      reads this
    {
      len <= sends.Length
    }

    ghost function Contents(): seq<int>
      requires Valid()
      reads this, sends
    {
      sends[..len]
    }

    constructor ()
      ensures Valid() && fresh(sends) && Contents() == []
    {
      sends := new int[0];
      len := 0;
    }

    /** The aliasing compaction: survivors are written over the slice being read. */
    method Compact(cutoff: int)
      requires Valid()
      modifies this`len, sends
      ensures Valid() && sends == old(sends)
      ensures Contents() == After(old(Contents()), cutoff)
    {
      ghost var was := Contents();
      var kept := 0;
      for i := 0 to len
        invariant kept <= i <= len == old(len) <= sends.Length && sends == old(sends)
        invariant sends[..kept] == After(was[..i], cutoff)
        invariant sends[i..len] == was[i..]
      {
        var ts := sends[i];
        assert ts == was[i] by { assert sends[i..len][0] == was[i..][0]; }
        assert was[..i + 1][..i] == was[..i];
        assert sends[i + 1..len] == sends[i..len][1..];
        if ts > cutoff {
          sends[kept] := ts;
          kept := kept + 1;
        }
      }
      assert was[..len] == was;
      len := kept;
    }

    /** append: reuses the backing array while it has room, else moves to a larger one. */
    method Append(ts: int)
      requires Valid()
      modifies this, sends
      ensures Valid() && (sends == old(sends) || fresh(sends))
      ensures Contents() == old(Contents()) + [ts]
    {
      if len == sends.Length {
        var grown := new int[2 * len + 1];
        for i := 0 to len
          invariant grown.Length == 2 * len + 1 && len == old(len) && sends == old(sends)
          invariant grown[..i] == sends[..i]
          modifies grown
        {
          grown[i] := sends[i];
        }
        sends := grown;
      }
      sends[len] := ts;
      len := len + 1;
    }
  }

  class Throttle {
    const cap: int
    var counts: map<string, Window>
    ghost var windows: map<string, seq<int>>  // what the windows hold, per recipient
    ghost var holder: map<object, string>     // whose window each object in memory belongs to
    ghost var repr: set<object>

    ghost predicate Valid()
      reads this, repr
      ensures Valid() ==> this in repr
    {
      && this in repr
      && windows.Keys == counts.Keys
      && (forall r {:trigger Owns(r)} :: r in counts ==> Owns(r))
    }

    /** No object is shared by two recipients, since `holder` is a map. */
    ghost predicate Owns(r: string)
      requires r in counts && r in windows
      reads this, repr
    {
      var w := counts[r];
      && w in repr && w in holder && holder[w] == r
      && w.sends in repr && w.sends in holder && holder[w.sends] == r
      && w.Valid()
      && windows[r] == w.Contents()
    }

    constructor (cap: int)
      ensures Valid() && fresh(repr) && this.cap == cap && windows == map[]
    {
      this.cap := cap;
      counts, windows, holder := map[], map[], map[];
      repr := {this};
    }

    /** A recipient whose own objects are untouched still owns them. */
    twostate lemma OwnsKept(r: string)
      requires r in old(counts) && r in old(windows) && old(Owns(r))
      requires r in counts && r in windows && counts[r] == old(counts[r]) && windows[r] == old(windows[r])
      requires unchanged(counts[r]) && unchanged(counts[r].sends)
      requires counts[r] in holder && holder[counts[r]] == r && counts[r].sends in holder
      requires holder[counts[r].sends] == r
      requires old(repr) <= repr
      ensures Owns(r)
    {}

    /** Creates the recipient's window, empty, on its first use. */
    method Ensure(recipient: string)
      requires Valid()
      modifies this
      ensures Valid() && fresh(repr - old(repr)) && recipient in counts
      ensures windows == old(windows)[recipient := WindowOf(old(windows), recipient)]
    {
      if recipient !in counts {
        var w := new Window();
        counts := counts[recipient := w];
        windows := windows[recipient := []];
        holder := holder[w := recipient][w.sends := recipient];
        repr := repr + {w, w.sends};
        forall r | r in counts && r != recipient ensures Owns(r) {
          assert old(Owns(r));
          OwnsKept(r);
        }
      }
    }

    /** Drops the sends of one recipient that have aged out. */
    method Prune(recipient: string, cutoff: int) returns (kept: nat)
      requires Valid() && recipient in counts
      modifies repr
      ensures Valid() && repr == old(repr) && counts == old(counts)
      ensures windows == old(windows)[recipient := After(old(windows)[recipient], cutoff)]
      ensures kept == |windows[recipient]|
    {
      assert Owns(recipient);
      var w := counts[recipient];
      w.Compact(cutoff);
      windows := windows[recipient := w.Contents()];
      forall r | r in counts && r != recipient ensures Owns(r) {
        assert old(Owns(r)) && old(Owns(recipient));
        OwnsKept(r);
      }
      kept := w.len;
    }

    method Record(recipient: string, ts: int)
      requires Valid() && recipient in counts
      modifies repr
      ensures Valid() && fresh(repr - old(repr)) && counts == old(counts)
      ensures windows == old(windows)[recipient := old(windows)[recipient] + [ts]]
    {
      assert Owns(recipient);
      var w := counts[recipient];
      w.Append(ts);
      windows := windows[recipient := w.Contents()];
      holder := holder[w.sends := recipient];
      repr := repr + {w.sends};
      assert Owns(recipient);
      forall r | r in counts && r != recipient ensures Owns(r) {
        assert old(Owns(r)) && old(Owns(recipient));
        OwnsKept(r);
      }
    }

    /** `now` is read inside the mutex; the whole method is one critical section. */
    method Allow(now: int, recipient: string, severity: Severity) returns (admitted: bool)
      requires Valid()
      modifies repr
      ensures Valid() && fresh(repr - old(repr))
      ensures Verdict(admitted, windows) == AllowSpec(cap, old(windows), now, recipient, severity)
    {
      if severity == Critical || cap <= 0 {
        return true;
      }
      ghost var before := windows;
      Ensure(recipient);
      ghost var ensured := windows;
      var kept := Prune(recipient, now - HOUR);
      AllowInSteps(cap, before, ensured, windows, now, recipient, severity);
      admitted := kept < cap;
      if admitted {
        Record(recipient, now);
      }
    }
  }

  // ---------- Properties of the specification ----------

  lemma {:induction false} AfterAppend(s: seq<int>, x: int, cutoff: int)
    ensures After(s + [x], cutoff) == if x > cutoff then After(s, cutoff) + [x] else After(s, cutoff)
  {
    assert (s + [x])[..|s|] == s;
  }

  /** A later cutoff makes an earlier one irrelevant: pruning loses nothing still needed. */
  lemma {:induction false} AfterAfter(s: seq<int>, c: int, d: int)
    requires c <= d
    ensures After(After(s, c), d) == After(s, d)
  {
    if s != [] {
      var init, x := s[..|s| - 1], s[|s| - 1];
      AfterAfter(init, c, d);
      if x > c {
        AfterAppend(After(init, c), x, d);
      }
    }
  }

  /** Sends in an hour that ends at t or later are among those after x - HOUR, if x <= t. */
  lemma {:induction false} InHourBelowTrailing(s: seq<int>, x: int, t: int)
    requires x <= t
    ensures InHour(s, t) <= |After(s, x - HOUR)|
  {
    if s != [] {
      InHourBelowTrailing(s[..|s| - 1], x, t);
    }
  }

  lemma {:induction false} TrailingIsInHour(s: seq<int>, now: int)
    requires forall i :: 0 <= i < |s| ==> s[i] <= now
    ensures |After(s, now - HOUR)| == InHour(s, now)
  {
    if s != [] {
      TrailingIsInHour(s[..|s| - 1], now);
    }
  }

  /** Every half-open rolling hour holds at most cap sends. */
  ghost predicate Capped(sends: seq<int>, cap: int) {
    forall t :: InHour(sends, t) <= cap
  }

  lemma AdmissionKeepsCapped(s: seq<int>, cap: int, now: int)
    requires Capped(s, cap)
    requires |After(s, now - HOUR)| < cap
    ensures Capped(s + [now], cap)
  {
    forall t ensures InHour(s + [now], t) <= cap {
      assert (s + [now])[..|s|] == s;
      assert InHour(s, t) <= cap;
      if now <= t {
        InHourBelowTrailing(s, now, t);
      }
    }
  }

  // ---------- Whole runs ----------

  datatype Call = Call(now: int, recipient: string, severity: Severity)

  function RunWindows(cap: int, calls: seq<Call>): map<string, seq<int>> {
    if calls == [] then map[]
    else
      var c := calls[|calls| - 1];
      AllowSpec(cap, RunWindows(cap, calls[..|calls| - 1]), c.now, c.recipient, c.severity).windows
  }

  function VerdictOn(cap: int, calls: seq<Call>, c: Call): bool {
    AllowSpec(cap, RunWindows(cap, calls), c.now, c.recipient, c.severity).admitted
  }

  /** The full, never pruned history of a recipient's sends that consumed the cap. */
  function Admissions(cap: int, calls: seq<Call>, recipient: string): seq<int> {
    if calls == [] then []
    else
      var init, c := calls[..|calls| - 1], calls[|calls| - 1];
      var earlier := Admissions(cap, init, recipient);
      if c.recipient == recipient && c.severity != Critical && VerdictOn(cap, init, c) then earlier + [c.now]
      else earlier
  }

  /** The clock read inside the mutex never goes back. */
  ghost predicate Monotone(calls: seq<Call>) {
    forall i, j :: 0 <= i <= j < |calls| ==> calls[i].now <= calls[j].now
  }

  /** A pruned window agrees with the full history on everything after some old cutoff. */
  ghost predicate Tracks(window: seq<int>, history: seq<int>, clock: int) {
    exists cutoff :: cutoff <= clock - HOUR && window == After(history, cutoff)
  }

  lemma TracksLater(window: seq<int>, history: seq<int>, clock: int, later: int)
    requires Tracks(window, history, clock) && clock <= later
    ensures Tracks(window, history, later)
    ensures After(window, later - HOUR) == After(history, later - HOUR)
  {
    var cutoff :| cutoff <= clock - HOUR && window == After(history, cutoff);
    assert cutoff <= later - HOUR;
    AfterAfter(history, cutoff, later - HOUR);
  }

  /**
   One non-critical call on a tracked window with a cap: it is admitted iff fewer than cap
   sends of the full history lie in the trailing hour, and tracking and the cap survive.
   */
  lemma AllowTracks(cap: int, windows: map<string, seq<int>>, history: seq<int>, clock: int, c: Call)
    requires cap > 0 && c.severity != Critical && clock <= c.now
    requires Tracks(WindowOf(windows, c.recipient), history, clock) && Capped(history, cap)
    ensures var v := AllowSpec(cap, windows, c.now, c.recipient, c.severity);
            var grown := if v.admitted then history + [c.now] else history;
            && (v.admitted <==> |After(history, c.now - HOUR)| < cap)
            && WindowOf(v.windows, c.recipient) == After(grown, c.now - HOUR)
            && Tracks(WindowOf(v.windows, c.recipient), grown, c.now)
            && Capped(grown, cap)
  {
    TracksLater(WindowOf(windows, c.recipient), history, clock, c.now);
    AfterAppend(history, c.now, c.now - HOUR);
    if |After(history, c.now - HOUR)| < cap {
      AdmissionKeepsCapped(history, cap, c.now);
    }
  }

  /** The verdict alone, read off the full history. */
  lemma VerdictFromHistory(cap: int, windows: map<string, seq<int>>, history: seq<int>, clock: int, c: Call)
    requires cap > 0 && c.severity != Critical && clock <= c.now
    requires Tracks(WindowOf(windows, c.recipient), history, clock)
    ensures AllowSpec(cap, windows, c.now, c.recipient, c.severity).admitted <==> |After(history, c.now - HOUR)| < cap
  {
    TracksLater(WindowOf(windows, c.recipient), history, clock, c.now);
  }

  lemma EmptyTracks(clock: int, cap: int)
    requires cap > 0
    ensures Tracks([], [], clock) && Capped([], cap)
  {
    assert After([], clock - HOUR) == [];
  }

  lemma {:induction false} AdmissionsInThePast(cap: int, calls: seq<Call>, recipient: string, now: int)
    requires forall i :: 0 <= i < |calls| ==> calls[i].now <= now
    ensures forall k :: 0 <= k < |Admissions(cap, calls, recipient)| ==> Admissions(cap, calls, recipient)[k] <= now
  {
    if calls != [] {
      AdmissionsInThePast(cap, calls[..|calls| - 1], recipient, now);
    }
  }

  lemma {:induction false} RunTracks(cap: int, calls: seq<Call>, recipient: string, now: int)
    requires cap > 0 && Monotone(calls)
    requires forall i :: 0 <= i < |calls| ==> calls[i].now <= now
    ensures Tracks(WindowOf(RunWindows(cap, calls), recipient), Admissions(cap, calls, recipient), now)
    ensures Capped(Admissions(cap, calls, recipient), cap)
  {
    if calls == [] {
      EmptyTracks(now, cap);
    } else {
      var init, c := calls[..|calls| - 1], calls[|calls| - 1];
      assert forall i :: 0 <= i < |init| ==> init[i] == calls[i];
      RunTracks(cap, init, recipient, c.now);
      var windows, history := RunWindows(cap, init), Admissions(cap, init, recipient);
      if c.recipient == recipient && c.severity != Critical {
        AllowTracks(cap, windows, history, c.now, c);
      } else {
        assert WindowOf(RunWindows(cap, calls), recipient) == WindowOf(windows, recipient);
      }
      var window, full := WindowOf(RunWindows(cap, calls), recipient), Admissions(cap, calls, recipient);
      assert Tracks(window, full, c.now);
      TracksLater(window, full, c.now, now);
    }
  }

  lemma CappedCall(cap: int, calls: seq<Call>, c: Call)
    requires cap > 0 && Monotone(calls + [c]) && c.severity != Critical
    ensures !VerdictOn(cap, calls, c) <==> InHour(Admissions(cap, calls, c.recipient), c.now) == cap
    ensures forall t :: InHour(Admissions(cap, calls + [c], c.recipient), t) <= cap
    ensures WindowOf(RunWindows(cap, calls + [c]), c.recipient)
         == After(Admissions(cap, calls + [c], c.recipient), c.now - HOUR)
  {
    MonotonePrefix(calls, c);
    var history := Admissions(cap, calls, c.recipient);
    RunTracks(cap, calls, c.recipient, c.now);
    AllowTracks(cap, RunWindows(cap, calls), history, c.now, c);
    LastCall(cap, calls, c);
    RefusedWhenFull(cap, calls, c);
    assert Capped(Admissions(cap, calls + [c], c.recipient), cap);
  }

  /** Criticals, and every send under a non-positive cap, pass and leave the windows and the history alone. */
  lemma BypassConsumesNothing(cap: int, calls: seq<Call>, c: Call)
    requires c.severity == Critical || cap <= 0
    ensures VerdictOn(cap, calls, c) && RunWindows(cap, calls + [c]) == RunWindows(cap, calls)
    ensures c.severity == Critical ==> Admissions(cap, calls + [c], c.recipient) == Admissions(cap, calls, c.recipient)
  {
    assert (calls + [c])[..|calls|] == calls;
  }

  /**
   Sliding-window refinement over whole runs: after any run with a clock that does not go
   back, a send is refused iff there is a cap, it is not critical, and exactly cap sends already lie
   in its trailing half-open hour; every half-open hour of the recipient's history holds at most cap;
   and a send that may pass uncounted leaves every window alone.
   */
  lemma SlidingWindow(cap: int, calls: seq<Call>, c: Call)
    requires Monotone(calls + [c])
    ensures !VerdictOn(cap, calls, c) <==>
      cap > 0 && c.severity != Critical && InHour(Admissions(cap, calls, c.recipient), c.now) == cap
    ensures cap > 0 ==> forall t :: InHour(Admissions(cap, calls + [c], c.recipient), t) <= cap
    ensures if cap <= 0 || c.severity == Critical then RunWindows(cap, calls + [c]) == RunWindows(cap, calls)
            else WindowOf(RunWindows(cap, calls + [c]), c.recipient)
                 == After(Admissions(cap, calls + [c], c.recipient), c.now - HOUR)
  {
    MonotonePrefix(calls, c);
    if cap > 0 && c.severity != Critical {
      CappedCall(cap, calls, c);
    } else {
      BypassConsumesNothing(cap, calls, c);
      if cap > 0 {
        RunTracks(cap, calls, c.recipient, c.now);
      }
    }
  }

  lemma MonotonePrefix(calls: seq<Call>, c: Call)
    requires Monotone(calls + [c])
    ensures Monotone(calls) && forall i :: 0 <= i < |calls| ==> calls[i].now <= c.now
  {
    var all := calls + [c];
    assert forall i :: 0 <= i < |calls| ==> all[i] == calls[i];
    assert all[|calls|] == c;
  }

  lemma LastCall(cap: int, calls: seq<Call>, c: Call)
    ensures RunWindows(cap, calls + [c]) ==
      AllowSpec(cap, RunWindows(cap, calls), c.now, c.recipient, c.severity).windows
    ensures c.severity != Critical ==>
      Admissions(cap, calls + [c], c.recipient) ==
      if VerdictOn(cap, calls, c) then Admissions(cap, calls, c.recipient) + [c.now]
      else Admissions(cap, calls, c.recipient)
  {
    assert (calls + [c])[..|calls|] == calls;
  }

  lemma RefusedWhenFull(cap: int, calls: seq<Call>, c: Call)
    requires cap > 0 && Monotone(calls) && c.severity != Critical
    requires forall i :: 0 <= i < |calls| ==> calls[i].now <= c.now
    ensures !VerdictOn(cap, calls, c) <==> InHour(Admissions(cap, calls, c.recipient), c.now) == cap
  {
    var history := Admissions(cap, calls, c.recipient);
    RunTracks(cap, calls, c.recipient, c.now);
    VerdictFromHistory(cap, RunWindows(cap, calls), history, c.now, c);
    AdmissionsInThePast(cap, calls, c.recipient, c.now);
    TrailingIsInHour(history, c.now);
    assert InHour(history, c.now) <= cap;
  }

  ghost predicate At(calls: seq<Call>, window: seq<int>, history: seq<int>) {
    WindowOf(RunWindows(2, calls), "r") == window && Admissions(2, calls, "r") == history
  }

  /** One admitted send under a cap of two. */
  lemma Admits(calls: seq<Call>, window: seq<int>, history: seq<int>, kept: seq<int>, now: int)
    returns (longer: seq<Call>)
    requires At(calls, window, history)
    requires After(window, now - HOUR) == kept && |kept| < 2
    ensures longer == calls + [Call(now, "r", Warning)] && At(longer, kept + [now], history + [now])
  {
    longer := calls + [Call(now, "r", Warning)];
    LastCall(2, calls, Call(now, "r", Warning));
  }

  lemma {:induction false} InHourAppend(s: seq<int>, x: int, t: int)
    ensures InHour(s + [x], t) == InHour(s, t) + if t - HOUR < x <= t then 1 else 0
  {
    assert (s + [x])[..|s|] == s;
  }

  /** Two sends at 0 and 1, then one just over an hour later, which prunes both. */
  lemma ThreeSends() returns (calls: seq<Call>)
    ensures At(calls, [] + [HOUR + 1], [] + [0] + [1] + [HOUR + 1])
    ensures |calls| == 3 && calls[2].now == HOUR + 1
  {
    calls := Admits([], [], [], [], 0);
    AfterAppend([], 0, 1 - HOUR);
    calls := Admits(calls, [] + [0], [] + [0], [] + [0], 1);
    AfterAppend([], 0, 1);
    AfterAppend([] + [0], 1, 1);
    calls := Admits(calls, [] + [0] + [1], [] + [0] + [1], [], HOUR + 1);
  }

  lemma FourSendsInAnHour()
    ensures InHour([] + [0] + [1] + [HOUR + 1] + [2], 59) == 3
  {
    InHourAppend([], 0, 59);
    InHourAppend([] + [0], 1, 59);
    InHourAppend([] + [0] + [1], HOUR + 1, 59);
    InHourAppend([] + [0] + [1] + [HOUR + 1], 2, 59);
  }

  /** The clock condition is needed: after a step back, one hour can hold cap + 1 sends. */
  lemma ClockStepBackBreaksCap()
    ensures exists calls: seq<Call> :: !Monotone(calls) && InHour(Admissions(2, calls, "r"), 59) > 2
  {
    var calls := ThreeSends();
    assert After([] + [HOUR + 1], 2 - HOUR) == [] + [HOUR + 1] by {
      AfterAppend([], HOUR + 1, 2 - HOUR);
    }
    var longer := Admits(calls, [] + [HOUR + 1], [] + [0] + [1] + [HOUR + 1], [] + [HOUR + 1], 2);
    FourSendsInAnHour();
    assert longer[2].now > longer[3].now;
  }
}
