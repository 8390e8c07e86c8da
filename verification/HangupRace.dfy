/**
 A hang-up reloads outside cfgWriteMu. Loaded before a hook's edit and finished after it, its reload
 takes the table back to where it was before the edit, and nobody is left to notice.
 */
module HangupRace {
  import opened Prelude
  import opened ConfigEdits
  import opened Reconcile
  import opened Hooks
  import opened HookRaces
  import HookAgreement

  ghost predicate Reached(env: Env, start: Sys, s: Sys) {
    exists labels :: Runs(env, start, labels, s)
  }

  lemma {:induction false} RunsOne(env: Env, s: Sys, labels: seq<Label>, t: Sys, l: Label)
    requires Runs(env, s, labels, t) && Enabled(t, l)
    ensures Runs(env, s, labels + [l], Advance(env, t, l))
    decreases |labels|
  {
    if labels == [] {
      assert [l][1..] == [];
      assert Runs(env, Advance(env, s, l), [], Advance(env, t, l));
    } else {
      assert (labels + [l])[1..] == labels[1..] + [l];
      RunsOne(env, Advance(env, s, labels[0]), labels[1..], t, l);
    }
  }

  lemma Onward(env: Env, start: Sys, s: Sys, l: Label)
    requires Reached(env, start, s) && Enabled(s, l)
    ensures Reached(env, start, Advance(env, s, l))
  {
    var labels :| Runs(env, start, labels, s);
    RunsOne(env, start, labels, s, l);
  }

  // ---------- One reload, undisturbed ----------

  function SetOf(urls: seq<string>): set<string> {
    set u | u in urls
  }

  lemma {:induction false} EnablesAll(env: Env, start: Sys, s: Sys, w: nat, urls: seq<string>, i: nat) returns (t: Sys)
    requires Reached(env, start, s) && w < |s.workers| && s.workers[w].pc == Enabling(urls, i) && i <= |urls|
    ensures Reached(env, start, t)
    ensures t == Move(s, w, Enabling(urls, |urls|)).(enabled := s.enabled + SetOf(urls[i..]))
    decreases |urls| - i
  {
    if i == |urls| {
      t := s;
      assert t.workers == s.workers[w := s.workers[w].(pc := Enabling(urls, |urls|))];
      assert SetOf(urls[i..]) == {};
    } else {
      Onward(env, start, s, Label(w, ""));
      t := EnablesAll(env, start, Advance(env, s, Label(w, "")), w, urls, i + 1);
      assert urls[i..] == [urls[i]] + urls[i + 1..];
      assert SetOf(urls[i..]) == {urls[i]} + SetOf(urls[i + 1..]);
    }
  }

  lemma {:induction false} DisablesAll(env: Env, start: Sys, s: Sys, w: nat, wanted: set<string>, todo: set<string>)
    returns (t: Sys)
    requires Reached(env, start, s) && w < |s.workers| && s.workers[w].pc == Disabling(wanted, todo)
    ensures Reached(env, start, t)
    ensures t == Move(s, w, Disabling(wanted, {})).(enabled := s.enabled - todo)
    decreases todo
  {
    if todo == {} {
      t := s;
      assert t.workers == s.workers[w := s.workers[w].(pc := Disabling(wanted, {}))];
    } else {
      var url := AnyOf(todo);
      Onward(env, start, s, Label(w, url));
      t := DisablesAll(env, start, Advance(env, s, Label(w, url)), w, wanted, todo - {url});
      assert s.enabled - {url} - (todo - {url}) == s.enabled - todo;
    }
  }

  /** A reload that nobody disturbs from its load on ends with exactly what it loaded. */
  lemma Reconciles(env: Env, start: Sys, s: Sys, w: nat, urls: seq<string>) returns (t: Sys)
    requires Reached(env, start, s) && w < |s.workers| && s.workers[w].pc == Enabling(urls, 0)
    ensures Reached(env, start, t)
    ensures t == Move(s, w, AfterReload(s.workers[w].call)).(enabled := SetOf(urls))
  {
    var wanted, go := SetOf(urls), Label(w, "");
    var s1 := EnablesAll(env, start, s, w, urls, 0);
    assert urls[0..] == urls;
    Onward(env, start, s1, go);
    var s2 := DisablesAll(env, start, Advance(env, s1, go), w, wanted, s1.enabled - wanted);
    assert s1.enabled - (s1.enabled - wanted) == wanted;
    Onward(env, start, s2, go);
    t := Advance(env, s2, go);
  }

  // ---------- The schedule ----------

  /** A hook and a hang-up. */
  function Two(f: File, enabled: set<string>, writer: Option<nat>, loader: Option<nat>, c: Call, hook: PC, hup: PC,
               wrote: bool): Sys {
    Sys(f, enabled, writer, loader, [Worker(c, hook), Worker(Hangup, hup)], if wrote then [c] else [],
        if wrote then [0] else [])
  }

  const HOOK := Label(0, "")
  const HUP := Label(1, "")

  /** The hang-up loads the file. */
  lemma HangupLoads(env: Env, f: File, enabled: set<string>, c: Call)
    requires LoadRoot(f).Some?
    ensures Reached(env, Two(f, enabled, None, None, c, Waiting, Waiting, false),
                    Two(f, enabled, None, None, c, Waiting, Enabling(AdmittedOnly(env, FileUrls(f)), 0), false))
  {
    var s := Two(f, enabled, None, None, c, Waiting, Waiting, false);
    var s1 := Two(f, enabled, None, None, c, Waiting, Reloading, false);
    var s2 := Two(f, enabled, None, Some(1), c, Waiting, Loading, false);
    assert Runs(env, s, [], s);
    Onward(env, s, s, HUP);
    assert Advance(env, s, HUP) == s1;
    Onward(env, s, s1, HUP);
    assert Advance(env, s1, HUP) == s2;
    Onward(env, s, s2, HUP);
    assert Advance(env, s2, HUP) == Two(f, enabled, None, None, c, Waiting, Enabling(AdmittedOnly(env, FileUrls(f)), 0),
                                        false);
  }

  /** The hook takes the lock and passes its check. */
  lemma HookPasses(env: Env, start: Sys, f: File, enabled: set<string>, c: Call, h: PC)
    requires !c.Hangup? && !(c.AddCall? && (!Admitted(env, c.site.url) || c.site.url in enabled))
    requires Reached(env, start, Two(f, enabled, None, None, c, Waiting, h, false))
    ensures Reached(env, start, Two(f, enabled, Some(0), None, c, Checked, h, false))
  {
    var s := Two(f, enabled, None, None, c, Waiting, h, false);
    var s1 := Two(f, enabled, Some(0), None, c, Locked, h, false);
    Onward(env, start, s, HOOK);
    assert Advance(env, s, HOOK) == s1;
    Onward(env, start, s1, HOOK);
    assert !Refused(env, s1, c);
    assert Advance(env, s1, HOOK) == Two(f, enabled, Some(0), None, c, Checked, h, false);
  }

  /** The hook reads the file and writes the edited one. */
  lemma HookWrites(env: Env, start: Sys, f: File, enabled: set<string>, c: Call, h: PC, g: File)
    requires Apply(f, c) == Some(g)
    requires Reached(env, start, Two(f, enabled, Some(0), None, c, Checked, h, false))
    ensures Reached(env, start, Two(g, enabled, Some(0), None, c, Reloading, h, true))
  {
    var s := Two(f, enabled, Some(0), None, c, Checked, h, false);
    var s1 := Two(f, enabled, Some(0), None, c, Editing(f), h, false);
    Onward(env, start, s, HOOK);
    assert Advance(env, s, HOOK) == s1;
    Onward(env, start, s1, HOOK);
    WriteStep(env, f, enabled, c, h, g);
  }

  lemma WriteStep(env: Env, f: File, enabled: set<string>, c: Call, h: PC, g: File)
    requires Apply(f, c) == Some(g)
    ensures Advance(env, Two(f, enabled, Some(0), None, c, Editing(f), h, false), HOOK)
      == Two(g, enabled, Some(0), None, c, Reloading, h, true)
  {
    var s := Two(f, enabled, Some(0), None, c, Editing(f), h, false);
    assert s.workers[HOOK.w].pc == Editing(f);
  }

  /** The hook loads the file it wrote. */
  lemma HookLoads(env: Env, start: Sys, g: File, enabled: set<string>, c: Call, h: PC)
    requires !c.Hangup? && LoadRoot(g).Some?
    requires Reached(env, start, Two(g, enabled, Some(0), None, c, Reloading, h, true))
    ensures Reached(env, start, Two(g, enabled, Some(0), None, c, Enabling(AdmittedOnly(env, FileUrls(g)), 0), h, true))
  {
    var s := Two(g, enabled, Some(0), None, c, Reloading, h, true);
    var s1 := Two(g, enabled, Some(0), Some(0), c, Loading, h, true);
    Onward(env, start, s, HOOK);
    assert Advance(env, s, HOOK) == s1;
    Onward(env, start, s1, HOOK);
    assert Advance(env, s1, HOOK) == Two(g, enabled, Some(0), None, c, Enabling(AdmittedOnly(env, FileUrls(g)), 0), h,
                                         true);
  }

  /** The hook reconciles and returns. */
  lemma HookReturns(env: Env, start: Sys, g: File, enabled: set<string>, c: Call, h: PC, urls: seq<string>)
    requires !c.Hangup?
    requires Reached(env, start, Two(g, enabled, Some(0), None, c, Enabling(urls, 0), h, true))
    ensures Reached(env, start, Two(g, SetOf(urls), None, None, c, Finished(true), h, true))
  {
    var s := Reconciles(env, start, Two(g, enabled, Some(0), None, c, Enabling(urls, 0), h, true), 0, urls);
    assert s == Two(g, SetOf(urls), Some(0), None, c, Unlocking(true), h, true);
    Onward(env, start, s, HOOK);
    assert Advance(env, s, HOOK) == Two(g, SetOf(urls), None, None, c, Finished(true), h, true);
  }

  /** The hang-up goes on with its snapshot. */
  lemma HangupReloads(env: Env, start: Sys, g: File, enabled: set<string>, c: Call, urls: seq<string>)
    requires Reached(env, start, Two(g, enabled, None, None, c, Finished(true), Enabling(urls, 0), true))
    ensures Reached(env, start, Two(g, SetOf(urls), None, None, c, Finished(true), Finished(false), true))
  {
    var s := Two(g, enabled, None, None, c, Finished(true), Enabling(urls, 0), true);
    var t := Reconciles(env, start, s, 1, urls);
    assert t == Two(g, SetOf(urls), None, None, c, Finished(true), Finished(false), true);
  }

  /** All of it: the edit is in the file and the table is what the hang-up loaded. */
  lemma Schedule(env: Env, f: File, enabled: set<string>, c: Call, g: File)
    requires LoadRoot(f).Some? && !c.Hangup? && Apply(f, c) == Some(g) && LoadRoot(g).Some?
    requires !(c.AddCall? && (!Admitted(env, c.site.url) || c.site.url in enabled))
    ensures Reached(env, Two(f, enabled, None, None, c, Waiting, Waiting, false),
                    Two(g, SetOf(AdmittedOnly(env, FileUrls(f))), None, None, c, Finished(true), Finished(false), true))
  {
    var urls := AdmittedOnly(env, FileUrls(f));
    var s := Two(f, enabled, None, None, c, Waiting, Waiting, false);
    HangupLoads(env, f, enabled, c);
    HookPasses(env, s, f, enabled, c, Enabling(urls, 0));
    HookWrites(env, s, f, enabled, c, Enabling(urls, 0), g);
    HookLoads(env, s, g, enabled, c, Enabling(urls, 0));
    HookReturns(env, s, g, enabled, c, Enabling(urls, 0), AdmittedOnly(env, FileUrls(g)));
    HangupReloads(env, s, g, SetOf(AdmittedOnly(env, FileUrls(g))), c, urls);
  }

  predicate AllOver(s: Sys) {
    s.writer.None? && s.loader.None? && forall w :: 0 <= w < |s.workers| ==> s.workers[w].pc.Finished?
  }

  /** Whether an edit that was written changes which URLs are to be enabled. */
  ghost predicate Matters(env: Env, f: File, c: Call) {
    Apply(f, c).Some? && ValidUrls(env, FileUrls(Apply(f, c).value)) != ValidUrls(env, FileUrls(f))
  }

  lemma DisagreesIfItMatters(env: Env, f: File, enabled: set<string>, c: Call)
    requires Agrees(env, f, enabled) && Sane(c) && Apply(f, c).Some?
    requires c.AddCall? ==> Admitted(env, c.site.url) && c.site.url !in enabled
    ensures LoadRoot(Apply(f, c).value).Some?
    ensures !Agrees(env, Apply(f, c).value, enabled) <==> Matters(env, f, c)
  {
    HookAgreement.EditKeepsListed(env, f, enabled, c);
  }

  lemma StartAndEnd(f: File, g: File, enabled: set<string>, c: Call)
    requires Sane(c)
    ensures Fresh(Two(f, enabled, None, None, c, Waiting, Waiting, false))
    ensures AllOver(Two(g, enabled, None, None, c, Finished(true), Finished(false), true))
  {}

  lemma EnabledAreListed(env: Env, f: File, enabled: set<string>)
    requires Agrees(env, f, enabled)
    ensures SetOf(AdmittedOnly(env, FileUrls(f))) == enabled
  {
    HookAgreement.AdmittedAreValid(env, FileUrls(f));
  }

  /**
   For every file and table in agreement and every hook that is not refused and whose edit goes through
   there is a run with one hang-up after which both locks are free, everybody has returned, the edit is
   in the file - and the table is the one from before it. It disagrees exactly if the edit matters.
   */
  lemma HangupUndoesHook(env: Env, f: File, enabled: set<string>, c: Call) returns (s: Sys, labels: seq<Label>, t: Sys)
    requires Agrees(env, f, enabled) && Sane(c) && !c.Hangup? && Apply(f, c).Some?
    requires c.AddCall? ==> Admitted(env, c.site.url) && c.site.url !in enabled
    ensures Fresh(s) && s.file == f && s.enabled == enabled && Runs(env, s, labels, t) && AllOver(t)
    ensures t.file == Apply(f, c).value && t.commits == [c] && t.enabled == enabled
    ensures !Agrees(env, t.file, t.enabled) <==> Matters(env, f, c)
  {
    var g := Apply(f, c).value;
    DisagreesIfItMatters(env, f, enabled, c);
    EnabledAreListed(env, f, enabled);
    StartAndEnd(f, g, enabled, c);
    Schedule(env, f, enabled, c, g);
    s := Two(f, enabled, None, None, c, Waiting, Waiting, false);
    t := Two(g, enabled, None, None, c, Finished(true), Finished(false), true);
    labels :| Runs(env, s, labels, t);
  }

  /** Adding a valid URL that is not listed matters. */
  lemma HangupDisablesFreshSite(env: Env, f: File, enabled: set<string>, site: SiteConfig)
    returns (s: Sys, labels: seq<Label>, t: Sys)
    requires Agrees(env, f, enabled) && Admitted(env, site.url) && site.url !in FileUrls(f) && AddSite(f, site).Some?
    ensures Fresh(s) && s.file == f && s.enabled == enabled && Runs(env, s, labels, t) && AllOver(t)
    ensures site.url in FileUrls(t.file) && site.url !in t.enabled && !Agrees(env, t.file, t.enabled)
  {
    AddKeepsUnique(f, site);
    assert site.url in ValidUrls(env, FileUrls(AddSite(f, site).value));
    s, labels, t := HangupUndoesHook(env, f, enabled, AddCall(site));
  }

  /** Removing a valid URL that is listed matters. */
  lemma HangupEnablesRemovedSite(env: Env, f: File, enabled: set<string>, url: string)
    returns (s: Sys, labels: seq<Label>, t: Sys)
    requires Agrees(env, f, enabled) && url in enabled
    ensures Fresh(s) && s.file == f && s.enabled == enabled && Runs(env, s, labels, t) && AllOver(t)
    ensures url !in FileUrls(t.file) && url in t.enabled && !Agrees(env, t.file, t.enabled)
  {
    RemoveKeepsUnique(f, url);
    WithoutKeeps(FileUrls(f), url);
    s, labels, t := HangupUndoesHook(env, f, enabled, DropCall(url));
  }
}
