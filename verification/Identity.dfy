/**
 Incident identity (internal/alerts/fingerprint.go).

 The source hashes the four fields of an event, separated by NUL bytes, and elides the
 URL first. The hash is taken to be injective, so a fingerprint is represented here by
 the encoded bytes themselves; what is left to prove is that the encoding tells two
 incidents apart exactly when their site, change type or severity differ.
 */
module Identity {

  datatype Severity = Critical | Warning | Info

  datatype Event = Event(siteID: int, site: string, url: string, changeType: string, severity: Severity)

  const NUL: char := '\0'

  const MONITORING_BLOCKED := "monitoring_blocked"
  const MONITORING_UNREACHABLE := "monitoring_unreachable"

  function SeverityName(s: Severity): string {
    match s
    case Critical => "critical"
    case Warning => "warning"
    case Info => "info"
  }

  /** The bytes hashed by Fingerprint: site NUL url NUL change_type NUL severity. */
  function Encode(site: string, url: string, changeType: string, severity: string): string {
    site + [NUL] + url + [NUL] + changeType + [NUL] + severity
  }

  /** groupFingerprint: the same encoding with the URL elided. */
  function GroupFingerprint(e: Event): string {
    Encode(e.site, "", e.changeType, SeverityName(e.severity))
  }

  function GroupKey(site: string, changeType: string): string {
    site + "|" + changeType
  }

  predicate SameIdentity(d: Event, e: Event) {
    d.site == e.site && d.changeType == e.changeType && d.severity == e.severity
  }

  /** Two strings split at a NUL whose right parts are NUL-free split at the same place. */
  lemma LastNulSplits(a: string, x: string, b: string, y: string)
    requires NUL !in x && NUL !in y
    requires a + [NUL] + x == b + [NUL] + y
    ensures a == b && x == y
  {
    var s := a + [NUL] + x;
    var t := b + [NUL] + y;
    assert s[|a|] == NUL && t[|b|] == NUL;
    assert |a| >= |b| by {
      if |a| < |b| { assert false; }
    }
    assert |a| <= |b| by {
      if |a| > |b| { assert false; }
    }
    assert s[..|a|] == a && t[..|b|] == b;
    assert s[|a| + 1..] == x && t[|b| + 1..] == y;
  }

  lemma SeverityNamesDiffer(s: Severity, t: Severity)
    ensures NUL !in SeverityName(s)
    ensures SeverityName(s) == SeverityName(t) <==> s == t
  {
    assert |SeverityName(Critical)| == 8;
    assert |SeverityName(Warning)| == 7;
    assert |SeverityName(Info)| == 4;
  }

  /**
   Two events share an incident exactly when site, change type and severity agree.
   Only the change type has to be NUL-free: the site may contain anything, because the
   encoding can be read back from its right end.
   */
  lemma FingerprintIsIdentity(d: Event, e: Event)
    requires NUL !in d.changeType && NUL !in e.changeType
    ensures GroupFingerprint(d) == GroupFingerprint(e) <==> SameIdentity(d, e)
  {
    SeverityNamesDiffer(d.severity, e.severity);
    SeverityNamesDiffer(e.severity, d.severity);
    if GroupFingerprint(d) == GroupFingerprint(e) {
      LastNulSplits(d.site + [NUL] + "" + [NUL] + d.changeType, SeverityName(d.severity),
                    e.site + [NUL] + "" + [NUL] + e.changeType, SeverityName(e.severity));
      LastNulSplits(d.site + [NUL] + "", d.changeType, e.site + [NUL] + "", e.changeType);
      LastNulSplits(d.site, "", e.site, "");
    }
  }

  /** Without that condition the separator is not enough: a change type may imitate it. */
  lemma NulInChangeTypeCollides(siteID: int, severity: Severity)
    ensures var d := Event(siteID, "a", "", "\0\0x", severity);
            var e := Event(siteID, "a\0\0", "", "x", severity);
            !SameIdentity(d, e) && GroupFingerprint(d) == GroupFingerprint(e)
  {
    var name := SeverityName(severity);
    assert Encode("a", "", "\0\0x", name) == "a\0\0\0\0x\0" + name;
    assert Encode("a\0\0", "", "x", name) == "a\0\0\0\0x\0" + name;
    assert "a" != "a\0\0" by { assert |"a"| == 1 && |"a\0\0"| == 3; }
  }

  /** The URL never separates two incidents. */
  lemma FingerprintElidesUrl(e: Event, url: string)
    ensures GroupFingerprint(e.(url := url)) == GroupFingerprint(e)
  {}

  /** The bytes that are hashed: the fields in order, each ended by a NUL but the last, and no URL. */
  lemma FingerprintBytes(e: Event)
    ensures GroupFingerprint(e) ==
      e.site + "\0\0" + e.changeType + "\0"
      + (if e.severity == Critical then "critical" else if e.severity == Warning then "warning" else "info")
  {}
}
