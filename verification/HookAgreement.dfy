/**
 Agreement of config.yaml and the sites table under concurrent hooks and hang-ups: whenever cfgWriteMu
 is free, provided no hook changes the file's valid URLs while a hang-up is between its load and its return.
 */
module HookAgreement {
  import opened Prelude
  import opened ConfigEdits
  import opened Reconcile
  import opened Hooks
  import opened HookRaces

  ghost predicate Listed(f: File) {
    ProperFile(f) && LoadRoot(f).Some? && NoRepeats(FileUrls(f))
  }

  /** The call has passed its check and the check still holds. */
  predicate Clear(env: Env, s: Sys, c: Call) {
    Sane(c) && (c.AddCall? ==> Admitted(env, c.site.url) && c.site.url !in s.enabled)
  }

  /** What holds while a hook is inside, by where it stands. */
  ghost predicate Stage(env: Env, s: Sys, wk: Worker) {
    match wk.pc
    case Checked => Agrees(env, s.file, s.enabled) && Clear(env, s, wk.call)
    case Editing(seen) => Agrees(env, s.file, s.enabled) && Clear(env, s, wk.call) && seen == s.file
    case Reloading => Listed(s.file)
    case Loading => Listed(s.file)
    case Enabling(urls, i) =>
      && Listed(s.file) && urls == AdmittedOnly(env, FileUrls(s.file))
      && i <= |urls| && forall j :: 0 <= j < i ==> urls[j] in s.enabled
    case Disabling(wanted, todo) =>
      Listed(s.file) && wanted == ValidUrls(env, FileUrls(s.file)) && wanted <= s.enabled <= wanted + todo
        && todo !! wanted
    case _ => Agrees(env, s.file, s.enabled)
  }

  /** A hang-up that has loaded the file and has not returned yet. */
  predicate Reconciling(wk: Worker) {
    wk.call.Hangup? && (wk.pc.Enabling? || wk.pc.Disabling?)
  }

  /** What a hang-up works from is what the file says now. */
  ghost predicate UpToDate(env: Env, f: File, wk: Worker) {
    Reconciling(wk) ==>
      match wk.pc
      case Enabling(urls, _) => (set u | u in urls) == ValidUrls(env, FileUrls(f))
      case Disabling(wanted, todo) => wanted == ValidUrls(env, FileUrls(f)) && todo !! wanted
      case _ => true
  }

  ghost predicate AgreeInv(env: Env, s: Sys) {
    && LocksInv(s)
    && (forall w :: 0 <= w < |s.workers| ==> Sane(s.workers[w].call))
    && (forall w :: 0 <= w < |s.workers| ==> UpToDate(env, s.file, s.workers[w]))
    && if s.writer.Some? then Stage(env, s, s.workers[s.writer.value]) else Agrees(env, s.file, s.enabled)
  }

  /** The URLs to enable do not change under a hang-up that has loaded them. */
  ghost predicate Quiet(env: Env, s: Sys, l: Label)
    requires Enabled(s, l)
  {
    (exists w :: 0 <= w < |s.workers| && Reconciling(s.workers[w])) ==>
      ValidUrls(env, FileUrls(Advance(env, s, l).file)) == ValidUrls(env, FileUrls(s.file))
  }

  ghost predicate QuietRun(env: Env, s: Sys, labels: seq<Label>)
    decreases |labels|
  {
    labels != [] && Enabled(s, labels[0]) ==>
      Quiet(env, s, labels[0]) && QuietRun(env, Advance(env, s, labels[0]), labels[1..])
  }

  lemma {:induction false} AdmittedAreValid(env: Env, urls: seq<string>)
    ensures forall u :: u in AdmittedOnly(env, urls) <==> u in ValidUrls(env, urls)
  {
    if urls != [] {
      AdmittedAreValid(env, urls[1..]);
      assert forall u :: u in urls <==> u == urls[0] || u in urls[1..];
    }
  }

  /** An edit that passed its check leaves no URL listed twice. */
  lemma EditKeepsListed(env: Env, f: File, enabled: set<string>, c: Call)
    requires Agrees(env, f, enabled) && Sane(c) && (c.AddCall? ==> Admitted(env, c.site.url) && c.site.url !in enabled)
    requires Apply(f, c).Some?
    ensures Listed(Apply(f, c).value)
  {
    match c
    case AddCall(site) =>
      assert site.url !in FileUrls(f);
      AddKeepsUnique(f, site);
    case DropCall(url) =>
      RemoveKeepsUnique(f, url);
    case SetCall(key, value) =>
      AllowedKeyIsHarmless(f, key, value, []);
    case Hangup =>
  }

  /** A step of the hook inside: from stage to stage, and out with agreement. */
  lemma StageStep(env: Env, s: Sys, l: Label)
    requires LocksInv(s) && Enabled(s, l) && s.writer == Some(l.w) && Sane(s.workers[l.w].call)
    requires Stage(env, s, s.workers[l.w])
    ensures var t := Advance(env, s, l);
      if t.writer.Some? then t.writer == Some(l.w) && Stage(env, t, t.workers[l.w]) else Agrees(env, t.file, t.enabled)
  {
    assert Accounted(s, l.w);
    var c := s.workers[l.w].call;
    match s.workers[l.w].pc {
      case Editing(seen) =>
        if Apply(seen, c).Some? {
          EditKeepsListed(env, s.file, s.enabled, c);
        }
      case Enabling(urls, i) =>
        EnablingStep(env, s, l);
      case Disabling(wanted, todo) =>
        assert todo == {} ==> s.enabled == wanted;
      case _ =>
    }
  }

  lemma AllEnabled(env: Env, urls: seq<string>, enabled: set<string>)
    requires forall j :: 0 <= j < |AdmittedOnly(env, urls)| ==> AdmittedOnly(env, urls)[j] in enabled
    ensures var wanted := set u | u in AdmittedOnly(env, urls);
      wanted == ValidUrls(env, urls) && wanted <= enabled
  {
    AdmittedAreValid(env, urls);
    forall u | u in AdmittedOnly(env, urls) ensures u in enabled {
      var j :| 0 <= j < |AdmittedOnly(env, urls)| && AdmittedOnly(env, urls)[j] == u;
    }
  }

  lemma EnablingStep(env: Env, s: Sys, l: Label)
    requires LocksInv(s) && Enabled(s, l) && s.writer == Some(l.w) && Sane(s.workers[l.w].call)
    requires Stage(env, s, s.workers[l.w])
    requires s.workers[l.w].pc.Enabling?
    ensures Stage(env, Advance(env, s, l), Advance(env, s, l).workers[l.w])
  {
    if s.workers[l.w].pc.i == |s.workers[l.w].pc.urls| {
      AllEnabled(env, FileUrls(s.file), s.enabled);
    }
  }

  /** A hang-up's own step leaves the hook's stage, or agreement, as it is. */
  lemma HangupStep(env: Env, s: Sys, l: Label)
    requires AgreeInv(env, s) && Enabled(s, l) && s.workers[l.w].call.Hangup?
    ensures var t := Advance(env, s, l);
      && t.file == s.file && t.writer == s.writer && UpToDate(env, t.file, t.workers[l.w])
      && if s.writer.Some? then Stage(env, t, s.workers[s.writer.value]) else Agrees(env, t.file, t.enabled)
  {
    assert Accounted(s, l.w) && UpToDate(env, s.file, s.workers[l.w]);
    AdmittedAreValid(env, FileUrls(s.file));
    match s.workers[l.w].pc {
      case Enabling(urls, i) =>
        assert i < |urls| ==> urls[i] in urls;
      case _ =>
    }
  }

  lemma AgreeStep(env: Env, s: Sys, l: Label)
    requires AgreeInv(env, s) && Enabled(s, l) && Quiet(env, s, l)
    ensures AgreeInv(env, Advance(env, s, l))
  {
    var t := Advance(env, s, l);
    LocksStep(env, s, l);
    StepFrame(env, s, l);
    assert Accounted(s, l.w);
    if s.workers[l.w].call.Hangup? {
      HangupStep(env, s, l);
    } else if s.writer == Some(l.w) {
      StageStep(env, s, l);
    }
    forall w | 0 <= w < |t.workers| ensures UpToDate(env, t.file, t.workers[w]) {
      if w != l.w {
        assert t.workers[w] == s.workers[w] && UpToDate(env, s.file, s.workers[w]);
      }
    }
  }

  /**
   From agreement, with any number of concurrent hooks and hang-ups: whenever cfgWriteMu is free the
   file lists no URL twice and the enabled sites are exactly its valid URLs, if no step changes the
   file's valid URLs while a hang-up is between its load and its return. HangupRace.HangupUndoesHook
   is the converse: any one such change can leave them in disagreement.
   */
  lemma AgreementWhenFree(env: Env, s: Sys, labels: seq<Label>, t: Sys)
    requires Fresh(s) && Agrees(env, s.file, s.enabled) && Runs(env, s, labels, t) && QuietRun(env, s, labels)
    ensures t.writer.None? ==> Agrees(env, t.file, t.enabled)
  {
    assert forall w :: 0 <= w < |s.workers| ==> Accounted(s, w);
    AgreementFrom(env, s, labels, t);
  }

  lemma {:induction false} AgreementFrom(env: Env, s: Sys, labels: seq<Label>, t: Sys)
    requires AgreeInv(env, s) && Runs(env, s, labels, t) && QuietRun(env, s, labels)
    ensures AgreeInv(env, t)
    decreases |labels|
  {
    if labels != [] {
      AgreeStep(env, s, labels[0]);
      AgreementFrom(env, Advance(env, s, labels[0]), labels[1..], t);
    }
  }

  /** Which steps change the file's URLs at all: the commits of adds and removes. */
  lemma OnlyCommitsDisturb(env: Env, s: Sys, l: Label)
    requires AgreeInv(env, s) && Enabled(s, l) && FileUrls(Advance(env, s, l).file) != FileUrls(s.file)
    ensures s.workers[l.w].pc.Editing? && (s.workers[l.w].call.AddCall? || s.workers[l.w].call.DropCall?)
  {
    assert Accounted(s, l.w) && Sane(s.workers[l.w].call);
    CommitFrame(env, s, l);
    if s.workers[l.w].call.SetCall? && s.workers[l.w].pc.Editing? {
      HarmlessIf(s.file, s.workers[l.w].call.key, s.workers[l.w].call.value);
    }
  }

  predicate OnlyHooks(s: Sys) {
    forall w :: 0 <= w < |s.workers| ==> !s.workers[w].call.Hangup?
  }

  /** Without hang-ups every run is quiet. */
  lemma {:induction false} HooksAloneAreQuiet(env: Env, s: Sys, labels: seq<Label>, t: Sys)
    requires LocksInv(s) && OnlyHooks(s) && Runs(env, s, labels, t)
    ensures QuietRun(env, s, labels)
    decreases |labels|
  {
    if labels != [] {
      LocksStep(env, s, labels[0]);
      StepFrame(env, s, labels[0]);
      HooksAloneAreQuiet(env, Advance(env, s, labels[0]), labels[1..], t);
    }
  }
}
