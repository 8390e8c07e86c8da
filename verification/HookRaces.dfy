/**
 Interleavings of the mutating hooks and of SIGHUP reloads (internal/cli/run.go).

 A hook holds cfgWriteMu from its first check to its return; every reload, a hook's or a
 hang-up's, holds cfgMu while it loads the file. Each read or write of the file or the table is
 one atomic step, and the scheduler is arbitrary.
 */
module HookRaces {
  import opened Prelude
  import opened ConfigEdits
  import opened Reconcile

  datatype Call = AddCall(site: SiteConfig) | DropCall(url: string) | SetCall(key: string, value: string) | Hangup

  datatype PC =
    | Waiting                                             // a hook: cfgWriteMu comes next
    | Locked                                              // the admission check comes next
    | Checked                                             // reading the file comes next
    | Editing(seen: File)                                 // writing the edited file comes next
    | Reloading                                           // cfgMu comes next
    | Loading                                             // config.Load and the unlock of cfgMu come next
    | Enabling(urls: seq<string>, i: nat)                 // the next entry of the snapshot, or listing the table
    | Disabling(wanted: set<string>, todo: set<string>)   // the next listed row that is not wanted
    | Unlocking(wrote: bool)                              // releasing cfgWriteMu comes next
    | Finished(wrote: bool)

  datatype Worker = Worker(call: Call, pc: PC)

  datatype Sys = Sys(file: File, enabled: set<string>, writer: Option<nat>, loader: Option<nat>,
                     workers: seq<Worker>,
                     commits: seq<Call>, took: seq<nat>)  // the edits written, in that order, and by whom

  /** Which worker moves, and which row a disabling step takes. */
  datatype Label = Label(w: nat, pick: string)

  function Apply(f: File, c: Call): Option<File> {
    match c
    case AddCall(site) => AddSite(f, site)
    case DropCall(url) => RemoveSite(f, url)
    case SetCall(key, value) => SetKey(f, key, value)
    case Hangup => None
  }

  /** The committed edits, applied one after the other. */
  function Fold(f: File, commits: seq<Call>): File {
    if commits == [] then f
    else
      var before := Fold(f, commits[..|commits| - 1]);
      Apply(before, commits[|commits| - 1]).GetOr(before)
  }

  predicate Refused(env: Env, s: Sys, c: Call) {
    c.AddCall? && (!Admitted(env, c.site.url) || c.site.url in s.enabled)
  }

  /** What keeps a call from ever taking the lock, and what the source never passes on. */
  predicate Sane(c: Call) {
    && (c.DropCall? ==> c.url != "")
    && (c.SetCall? ==> Allowed(c.key))
  }

  function AdmittedOnly(env: Env, urls: seq<string>): seq<string> {
    if urls == [] then []
    else (if Admitted(env, urls[0]) then [urls[0]] else []) + AdmittedOnly(env, urls[1..])
  }

  function AfterReload(c: Call): PC {
    if c.Hangup? then Finished(false) else Unlocking(true)
  }

  predicate Enabled(s: Sys, l: Label) {
    l.w < |s.workers| &&
    match s.workers[l.w].pc
    case Waiting => s.workers[l.w].call.Hangup? || s.writer.None?
    case Reloading => s.loader.None?
    case Disabling(_, todo) => todo == {} || l.pick in todo
    case Finished(_) => false
    case _ => true
  }

  function Move(s: Sys, w: nat, pc: PC): Sys
    requires w < |s.workers|
  {
    s.(workers := s.workers[w := s.workers[w].(pc := pc)])
  }

  ghost function Advance(env: Env, s: Sys, l: Label): Sys
    requires Enabled(s, l)
  {
    var w, c := l.w, s.workers[l.w].call;
    match s.workers[w].pc
    case Waiting => if c.Hangup? then Move(s, w, Reloading) else Move(s, w, Locked).(writer := Some(w))
    case Locked => Move(s, w, if Refused(env, s, c) then Unlocking(false) else Checked)
    case Checked => Move(s, w, Editing(s.file))
    case Editing(seen) =>
      (match Apply(seen, c)
       case None => Move(s, w, Unlocking(false))
       case Some(f) => Move(s, w, Reloading).(file := f, commits := s.commits + [c], took := s.took + [w]))
    case Reloading => Move(s, w, Loading).(loader := Some(w))
    case Loading =>
      var loaded := if LoadRoot(s.file).None? then AfterReload(c) else Enabling(AdmittedOnly(env, FileUrls(s.file)), 0);
      Move(s, w, loaded).(loader := None)
    case Enabling(urls, i) =>
      if i < |urls| then Move(s, w, Enabling(urls, i + 1)).(enabled := s.enabled + {urls[i]})
      else
        var wanted := set u | u in urls;
        Move(s, w, Disabling(wanted, s.enabled - wanted))
    case Disabling(wanted, todo) =>
      if todo == {} then Move(s, w, AfterReload(c))
      else Move(s, w, Disabling(wanted, todo - {l.pick})).(enabled := s.enabled - {l.pick})
    case Unlocking(wrote) => Move(s, w, Finished(wrote)).(writer := None)
  }

  ghost predicate Runs(env: Env, s: Sys, labels: seq<Label>, t: Sys)
    decreases |labels|
  {
    if labels == [] then t == s
    else Enabled(s, labels[0]) && Runs(env, Advance(env, s, labels[0]), labels[1..], t)
  }

  // ---------- Locks ----------

  predicate HoldsWrite(wk: Worker) {
    !wk.call.Hangup? && !wk.pc.Waiting? && !wk.pc.Finished?
  }

  predicate MayBe(wk: Worker) {
    wk.call.Hangup? ==>
      wk.pc.Waiting? || wk.pc.Reloading? || wk.pc.Loading? || wk.pc.Enabling? || wk.pc.Disabling? || wk.pc.Finished?
  }

  /** A worker and the locks agree on what it holds. */
  predicate Accounted(s: Sys, w: nat)
    requires w < |s.workers|
  {
    && (HoldsWrite(s.workers[w]) <==> s.writer == Some(w))
    && (s.workers[w].pc.Loading? <==> s.loader == Some(w))
    && MayBe(s.workers[w])
  }

  ghost predicate LocksInv(s: Sys) {
    && (forall w :: 0 <= w < |s.workers| ==> Accounted(s, w))
    && (s.writer.Some? ==> s.writer.value < |s.workers|)
    && (s.loader.Some? ==> s.loader.value < |s.workers|)
  }

  /** A step moves one worker, and the only locks it takes or frees are its own. */
  lemma StepFrame(env: Env, s: Sys, l: Label)
    requires LocksInv(s) && Enabled(s, l)
    ensures var t := Advance(env, s, l);
      && |t.workers| == |s.workers| && t.workers == s.workers[l.w := t.workers[l.w]]
        && t.workers[l.w].call == s.workers[l.w].call
      && (t.writer == s.writer || t.writer == Some(l.w) || s.writer == Some(l.w))
      && (t.loader == s.loader || t.loader == Some(l.w) || s.loader == Some(l.w))
      && (t.writer.Some? && t.writer != s.writer ==> s.writer.None?)
      && (t.loader.Some? && t.loader != s.loader ==> s.loader.None?)
  {
    assert Accounted(s, l.w);
  }

  lemma StepAccounts(env: Env, s: Sys, l: Label)
    requires LocksInv(s) && Enabled(s, l)
    ensures Accounted(Advance(env, s, l), l.w)
  {
    assert Accounted(s, l.w);
  }

  lemma LocksStep(env: Env, s: Sys, l: Label)
    requires LocksInv(s) && Enabled(s, l)
    ensures LocksInv(Advance(env, s, l))
  {
    StepFrame(env, s, l);
    StepAccounts(env, s, l);
    var t := Advance(env, s, l);
    forall w | 0 <= w < |t.workers| ensures Accounted(t, w) {
      assert Accounted(s, w);
    }
  }

  /** The nesting of the two locks cannot block everybody: somebody can always move. */
  lemma NoDeadlock(s: Sys)
    requires LocksInv(s)
    requires exists w :: 0 <= w < |s.workers| && !s.workers[w].pc.Finished?
    ensures exists l :: Enabled(s, l)
  {
    var w :| 0 <= w < |s.workers| && !s.workers[w].pc.Finished?;
    var v := if s.loader.Some? then s.loader.value else if s.writer.Some? then s.writer.value else w;
    var pick := if s.workers[v].pc.Disabling? then AnyOf(s.workers[v].pc.todo) else "";
    assert Accounted(s, v) && Accounted(s, w);
    assert Enabled(s, Label(v, pick));
  }

  ghost function AnyOf(todo: set<string>): (u: string)
    ensures todo != {} ==> u in todo
  {
    if todo == {} then ""
    else
      assert (forall u :: u !in todo) ==> todo == {};
      var u :| u in todo; u
  }

  // ---------- No lost update ----------

  predicate HasWritten(wk: Worker) {
    !wk.call.Hangup? && match wk.pc
                        case Reloading => true
                        case Loading => true
                        case Enabling(_, _) => true
                        case Disabling(_, _) => true
                        case Unlocking(wrote) => wrote
                        case Finished(wrote) => wrote
                        case _ => false
  }

  /** Whoever is editing has seen the file as it is, and those that have written are on record. */
  predicate Recorded(s: Sys, w: nat)
    requires w < |s.workers|
  {
    && (s.workers[w].pc.Editing? ==> s.workers[w].pc.seen == s.file)
    && (HasWritten(s.workers[w]) <==> w in s.took)
  }

  /** The file is the fold of what was committed, each worker's edit at most once. */
  ghost predicate FileInv(start: File, s: Sys) {
    && LocksInv(s)
    && s.file == Fold(start, s.commits)
    && |s.took| == |s.commits|
    && (forall i :: 0 <= i < |s.took| ==> s.took[i] < |s.workers| && s.commits[i] == s.workers[s.took[i]].call)
    && (forall i, j :: 0 <= i < j < |s.took| ==> s.took[i] != s.took[j])
    && forall w :: 0 <= w < |s.workers| ==> Recorded(s, w)
  }

  lemma FoldOne(start: File, commits: seq<Call>, c: Call)
    ensures Fold(start, commits + [c]) == Apply(Fold(start, commits), c).GetOr(Fold(start, commits))
  {
    assert (commits + [c])[..|commits|] == commits;
  }

  lemma CommitFrame(env: Env, s: Sys, l: Label)
    requires Enabled(s, l)
    ensures var t, wk := Advance(env, s, l), s.workers[l.w];
      if wk.pc.Editing? && Apply(wk.pc.seen, wk.call).Some?
      then t.file == Apply(wk.pc.seen, wk.call).value && t.commits == s.commits + [wk.call] && t.took == s.took + [l.w]
      else t.file == s.file && t.commits == s.commits && t.took == s.took
  {}

  lemma StepRecords(env: Env, s: Sys, l: Label)
    requires LocksInv(s) && Enabled(s, l) && Recorded(s, l.w)
    ensures Recorded(Advance(env, s, l), l.w)
    ensures s.workers[l.w].pc.Editing? ==> !HasWritten(s.workers[l.w]) && HoldsWrite(s.workers[l.w])
  {
    assert Accounted(s, l.w);
    assert l.w in s.took + [l.w];
  }

  lemma FileStep(env: Env, start: File, s: Sys, l: Label)
    requires FileInv(start, s) && Enabled(s, l)
    ensures FileInv(start, Advance(env, s, l))
  {
    var t, c := Advance(env, s, l), s.workers[l.w].call;
    LocksStep(env, s, l);
    StepFrame(env, s, l);
    CommitFrame(env, s, l);
    FoldOne(start, s.commits, c);
    assert Recorded(s, l.w);
    StepRecords(env, s, l);
    forall w | 0 <= w < |t.workers| && w != l.w ensures Recorded(t, w) {
      assert Recorded(s, w);
      assert w in s.took + [l.w] <==> w in s.took;
      if s.workers[w].pc.Editing? && s.workers[l.w].pc.Editing? {
        OneWriter(s, w, l.w);
      }
    }
  }

  lemma OneWriter(s: Sys, v: nat, w: nat)
    requires LocksInv(s) && v < |s.workers| && w < |s.workers| && v != w && s.workers[v].pc.Editing?
    ensures !s.workers[w].pc.Editing?
  {
    assert Accounted(s, v) && Accounted(s, w);
  }

  ghost predicate Fresh(s: Sys) {
    && s.writer == None && s.loader == None && s.commits == [] && s.took == []
    && forall w :: 0 <= w < |s.workers| ==> s.workers[w].pc == Waiting && Sane(s.workers[w].call)
  }

  /**
   However hooks and hang-ups interleave, the file is the fold of the committed edits in commit
   order, and every call that reports a write is in it exactly once.
   */
  lemma NoLostUpdate(env: Env, s: Sys, labels: seq<Label>, t: Sys)
    requires Fresh(s) && Runs(env, s, labels, t)
    ensures t.file == Fold(s.file, t.commits) && LocksInv(t)
    ensures |t.took| == |t.commits| && forall i, j :: 0 <= i < j < |t.took| ==> t.took[i] != t.took[j]
    ensures forall i :: 0 <= i < |t.took| ==> t.took[i] < |t.workers| && t.commits[i] == t.workers[t.took[i]].call
    ensures forall w :: 0 <= w < |t.workers| && !t.workers[w].call.Hangup? && t.workers[w].pc.Finished? ==>
      (t.workers[w].pc.wrote <==> w in t.took)
  {
    forall w | 0 <= w < |s.workers| ensures Recorded(s, w) {}
    NoLostUpdateFrom(env, s.file, s, labels, t);
    forall w | 0 <= w < |t.workers| && !t.workers[w].call.Hangup? && t.workers[w].pc.Finished?
      ensures t.workers[w].pc.wrote <==> w in t.took
    {
      assert Recorded(t, w);
    }
  }

  lemma {:induction false} NoLostUpdateFrom(env: Env, start: File, s: Sys, labels: seq<Label>, t: Sys)
    requires FileInv(start, s) && Runs(env, s, labels, t)
    ensures FileInv(start, t)
    decreases |labels|
  {
    if labels != [] {
      FileStep(env, start, s, labels[0]);
      NoLostUpdateFrom(env, start, Advance(env, s, labels[0]), labels[1..], t);
    }
  }

  /** Nobody is ever stuck while a call is unfinished. */
  lemma NeverStuck(env: Env, s: Sys, labels: seq<Label>, t: Sys)
    requires Fresh(s) && Runs(env, s, labels, t)
    requires exists w :: 0 <= w < |t.workers| && !t.workers[w].pc.Finished?
    ensures exists l :: Enabled(t, l)
  {
    NoLostUpdate(env, s, labels, t);
    NoDeadlock(t);
  }
}
