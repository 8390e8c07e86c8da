/**
 The crawl budget of a site (internal/config/throttle.go): 64-bit arithmetic as the source does it,
 and what the unverified floor guarantees. Durations are nanoseconds; a configured duration is
 absent when it does not parse.
 */
module CrawlBudget {
  import opened Prelude

  const MAX_INT64 := 0x7FFF_FFFF_FFFF_FFFF
  const MILLISECOND := 1_000_000
  const SECOND := 1000 * MILLISECOND
  const MINUTE := 60 * SECOND

  const FLOOR_RATE_FALLBACK := 60 * SECOND
  const FLOOR_CONC_FALLBACK := 1
  const FLOOR_MAX_PAGES_FALLBACK := 50
  const FLOOR_MIN_INTERVAL_FALLBACK := 30 * MINUTE
  const MIN_PER_HOST_RATE := 250 * MILLISECOND

  // ---------- Arithmetic ----------

  predicate IsInt64(n: int) {
    -MAX_INT64 - 1 <= n <= MAX_INT64
  }

  /** Two's complement wrap-around. */
  function Wrap64(n: int): (r: int)
    ensures IsInt64(r) && (r - n) % 0x1_0000_0000_0000_0000 == 0
  {
    (n + MAX_INT64 + 1) % (2 * (MAX_INT64 + 1)) - MAX_INT64 - 1
  }

  /** Division as Go does it, towards zero. */
  function Quo(a: int, b: int): (q: int)
    requires b > 0
    ensures if a >= 0 then q * b <= a < (q + 1) * b else (q - 1) * b < a <= q * b
  {
    if a >= 0 then a / b else -((-a) / b)
  }

  function ScaleBySpeed(r: int, pct: int): int {
    Quo(Wrap64(r * 100), if pct <= 0 then 100 else pct)
  }

  function MaxDur(a: int, b: int): int {
    if a > b then a else b
  }

  function MinInt(a: int, b: int): int {
    if a < b then a else b
  }

  lemma WrapIsIdentity(n: int)
    requires IsInt64(n)
    ensures Wrap64(n) == n
  {}

  lemma TimesIsMonotone(x: int, y: int, b: int)
    ensures x <= y && b >= 0 ==> x * b <= y * b
  {}

  lemma DivMonotone(a: int, c: int, b: int)
    requires 0 <= a <= c && b > 0
    ensures a / b <= c / b
  {
    TimesIsMonotone(c / b + 1, a / b, b);
  }

  lemma DivAntitone(a: int, b: int, c: int)
    requires 0 <= a && 0 < b <= c
    ensures a / c <= a / b
  {
    TimesIsMonotone(a / b + 1, a / c, c);
    TimesIsMonotone(b, c, a / b + 1);
  }

  /** A faster dial never means wider spacing. */
  lemma ScaleIsAntitone(r: int, slower: int, faster: int)
    requires 0 <= r <= MAX_INT64 / 100 && 0 < slower <= faster
    ensures ScaleBySpeed(r, faster) <= ScaleBySpeed(r, slower)
  {
    WrapIsIdentity(r * 100);
    DivAntitone(r * 100, slower, faster);
  }

  lemma ScaleIsMonotone(r: int, s: int, pct: int)
    requires 0 <= r <= s <= MAX_INT64 / 100
    ensures ScaleBySpeed(r, pct) <= ScaleBySpeed(s, pct)
  {
    WrapIsIdentity(r * 100);
    WrapIsIdentity(s * 100);
    DivMonotone(r * 100, s * 100, if pct <= 0 then 100 else pct);
  }

  /** The dial at 100, or unset, is the identity exactly for the durations whose hundredfold fits. */
  lemma ScaleIsIdentityAt100(r: int, pct: int)
    requires 0 <= r <= MAX_INT64 && (pct <= 0 || pct == 100)
    ensures ScaleBySpeed(r, pct) == r <==> r <= MAX_INT64 / 100
  {
    if r <= MAX_INT64 / 100 {
      WrapIsIdentity(r * 100);
    } else {
      var w := Wrap64(r * 100);
      if w >= 0 {
        DivMonotone(w, MAX_INT64, 100);
      } else {
        assert Quo(w, 100) <= 0;
      }
    }
  }

  /** The dial divides the spacing, rounding down: below 100 it slows a site, above it speeds it up. */
  lemma ScaleIsExact(r: int, pct: int)
    requires 0 <= r <= MAX_INT64 / 100 && pct > 0
    ensures var q := ScaleBySpeed(r, pct);
      && q * pct <= r * 100 < (q + 1) * pct
      && (pct <= 100 ==> q >= r) && (pct >= 100 ==> q <= r)
  {
    WrapIsIdentity(r * 100);
    var q := ScaleBySpeed(r, pct);
    assert q == (r * 100) / pct && q * pct == r * 100 - (r * 100) % pct;
    if pct <= 100 {
      TimesIsMonotone(pct, 100, q + 1);
    } else {
      TimesIsMonotone(100, pct, q);
    }
  }

  // ---------- The configuration ----------

  datatype Floor = Floor(rate: Option<int>, conc: int, maxPages: int, minInterval: Option<int>)

  datatype Config = Config(rate: Option<int>, conc: int, maxPages: Option<int>, minInterval: Option<int>, floor: Floor)

  datatype Site = Site(speed: int, maxPages: Option<int>, minInterval: Option<int>)

  datatype Resolved = Resolved(rate: int, conc: int, maxPages: int, minInterval: int, throttled: bool)

  predicate Positive(d: Option<int>) {
    d.Some? && d.value > 0
  }

  function DurOr(site: Option<int>, def: Option<int>, fallback: int): int {
    if Positive(site) then site.value else if Positive(def) then def.value else fallback
  }

  function IntOr(site: int, def: int, fallback: int): int {
    if site > 0 then site else if def > 0 then def else fallback
  }

  function IntPtrOr(site: Option<int>, def: Option<int>, fallback: int): int {
    if site.Some? then site.value else if def.Some? then def.value else fallback
  }

  function FullRate(c: Config, s: Site): int {
    ScaleBySpeed(DurOr(None, c.rate, 2 * SECOND), s.speed)
  }

  function FullMinInterval(c: Config, s: Site): int {
    if Positive(s.minInterval) then s.minInterval.value else MinIntervalDuration(c)
  }

  function MinIntervalDuration(c: Config): int {
    c.minInterval.GetOr(10 * MINUTE)
  }

  datatype FloorValues = FloorValues(rate: int, conc: int, maxPages: int, minInterval: int)

  function ThrottleFloor(c: Config): FloorValues {
    FloorValues(DurOr(c.floor.rate, None, FLOOR_RATE_FALLBACK), IntOr(c.floor.conc, 0, FLOOR_CONC_FALLBACK),
                IntOr(c.floor.maxPages, 0, FLOOR_MAX_PAGES_FALLBACK),
                DurOr(c.floor.minInterval, None, FLOOR_MIN_INTERVAL_FALLBACK))
  }

  function ResolveCrawl(c: Config, s: Site, verified: bool): Resolved {
    var fullRate := FullRate(c, s);
    var fullConc := IntOr(0, c.conc, 2);
    var fullMaxPages := IntPtrOr(s.maxPages, c.maxPages, 2000);
    var fullMin := FullMinInterval(c, s);
    if verified then
      Resolved(MaxDur(fullRate, MIN_PER_HOST_RATE), fullConc, fullMaxPages, fullMin, false)
    else
      var f := ThrottleFloor(c);
      Resolved(MaxDur(fullRate, f.rate), MinInt(fullConc, f.conc),
               if fullMaxPages > 0 then MinInt(fullMaxPages, f.maxPages) else f.maxPages,
               MaxDur(fullMin, f.minInterval), true)
  }

  // ---------- What the floor guarantees ----------

  /** The configured floor, or its built-in value where it is absent or not positive: never nothing. */
  predicate FloorIs(c: Config, f: FloorValues) {
    && f.rate == (if Positive(c.floor.rate) then c.floor.rate.value else 60 * SECOND)
    && f.conc == (if c.floor.conc > 0 then c.floor.conc else 1)
    && f.maxPages == (if c.floor.maxPages > 0 then c.floor.maxPages else 50)
    && f.minInterval == (if Positive(c.floor.minInterval) then c.floor.minInterval.value else 30 * MINUTE)
  }

  /**
   Whatever is configured - unlimited pages, a huge speed, an overflowing rate - an unverified site stays
   within the floor.
   */
  lemma UnverifiedStaysWithinFloor(c: Config, s: Site)
    ensures var f, r := ThrottleFloor(c), ResolveCrawl(c, s, false);
      && FloorIs(c, f) && f.rate > 0 && f.conc >= 1 && f.maxPages >= 1 && f.minInterval > 0
      && r.rate >= f.rate && 1 <= r.conc <= f.conc && 1 <= r.maxPages <= f.maxPages && r.minInterval >= f.minInterval
      && r.throttled
  {}

  /**
   What a verified site gets: its own page cap and interval before the defaults, the configured
   concurrency, and the configured spacing scaled by its dial, but never below the sanity floor.
   */
  lemma VerifiedGetsItsConfiguration(c: Config, s: Site)
    ensures var r := ResolveCrawl(c, s, true);
      && (s.maxPages.Some? ==> r.maxPages == s.maxPages.value)
      && (s.maxPages.None? && c.maxPages.Some? ==> r.maxPages == c.maxPages.value)
      && (s.maxPages.None? && c.maxPages.None? ==> r.maxPages == 2000)
      && (Positive(s.minInterval) ==> r.minInterval == s.minInterval.value)
      && (!Positive(s.minInterval) && c.minInterval.Some? ==> r.minInterval == c.minInterval.value)
      && (!Positive(s.minInterval) && c.minInterval.None? ==> r.minInterval == 10 * MINUTE)
      && r.conc == (if c.conc > 0 then c.conc else 2) && !r.throttled
    ensures var base, dial := if Positive(c.rate) then c.rate.value else 2 * SECOND, if s.speed > 0 then s.speed
                              else 100;
      var rate := ResolveCrawl(c, s, true).rate;
      base <= MAX_INT64 / 100 ==>
        if base * 100 < MIN_PER_HOST_RATE * dial then rate == MIN_PER_HOST_RATE
        else rate * dial <= base * 100 < (rate + 1) * dial
  {
    var base, dial := if Positive(c.rate) then c.rate.value else 2 * SECOND, if s.speed > 0 then s.speed else 100;
    if base <= MAX_INT64 / 100 {
      ScaleIsExact(base, dial);
      var q := ScaleBySpeed(base, dial);
      assert FullRate(c, s) == q;
      SanityFloor(q, base, dial);
    }
  }

  lemma SanityFloor(q: int, base: int, dial: int)
    requires dial > 0 && q * dial <= base * 100 < (q + 1) * dial
    ensures base * 100 < MIN_PER_HOST_RATE * dial <==> q < MIN_PER_HOST_RATE
  {
    TimesIsMonotone(q + 1, MIN_PER_HOST_RATE, dial);
    TimesIsMonotone(MIN_PER_HOST_RATE, q, dial);
  }

  /** An unverified site gets the slower of its configuration and the floor, in every component. */
  lemma UnverifiedGetsTheTighter(c: Config, s: Site)
    ensures var u, f := ResolveCrawl(c, s, false), ThrottleFloor(c);
      && (u.rate == f.rate || u.rate == FullRate(c, s))
      && (u.conc == f.conc || u.conc == ResolveCrawl(c, s, true).conc)
      && (u.maxPages == f.maxPages || u.maxPages == ResolveCrawl(c, s, true).maxPages)
      && (u.minInterval == f.minInterval || u.minInterval == ResolveCrawl(c, s, true).minInterval)
      && u.rate >= FullRate(c, s)
  {}

  /** A verified site keeps the sanity floor, whatever its dial says. */
  lemma VerifiedKeepsSanityFloor(c: Config, s: Site)
    ensures ResolveCrawl(c, s, true).rate >= MIN_PER_HOST_RATE && ResolveCrawl(c, s, true).conc >= 1
  {}

  /** Page caps in the order where 0 or less means no cap. */
  predicate NoMorePages(a: int, b: int) {
    b <= 0 || 0 < a <= b
  }

  predicate NoLooser(a: Resolved, b: Resolved) {
    a.rate >= b.rate && a.conc <= b.conc && NoMorePages(a.maxPages, b.maxPages) && a.minInterval >= b.minInterval
  }

  /**
   An unverified site is held at least as tightly as the same site verified exactly if the floor's
   rate, or the scaled rate, is at least the sanity floor - which only the verified tier applies.
   */
  lemma UnverifiedIsNoLooser(c: Config, s: Site)
    ensures NoLooser(ResolveCrawl(c, s, false), ResolveCrawl(c, s, true))
      <==> ThrottleFloor(c).rate >= MIN_PER_HOST_RATE || FullRate(c, s) >= MIN_PER_HOST_RATE
  {}

  /** In every component but the rate it always is. */
  lemma UnverifiedIsNoLooserElsewhere(c: Config, s: Site)
    ensures var u, v := ResolveCrawl(c, s, false), ResolveCrawl(c, s, true);
      u.conc <= v.conc && NoMorePages(u.maxPages, v.maxPages) && u.minInterval >= v.minInterval
  {}

  /** A floor of one millisecond and a dial of 100000: proving control slows this site down. */
  lemma SmallFloorIsLooser()
    ensures var c := Config(None, 0, None, None, Floor(Some(MILLISECOND), 0, 0, None));
      var s := Site(100_000, None, None);
      ResolveCrawl(c, s, false).rate == 2 * MILLISECOND && ResolveCrawl(c, s, true).rate == 250 * MILLISECOND
  {
    WrapIsIdentity(2 * SECOND * 100);
  }

  /** The speed dial reaches the resolved rate: faster never widens it, in either tier. */
  lemma FasterIsNoWider(c: Config, s: Site, faster: int, verified: bool)
    requires 0 < s.speed <= faster && DurOr(None, c.rate, 2 * SECOND) <= MAX_INT64 / 100
    ensures var before, after := ResolveCrawl(c, s, verified), ResolveCrawl(c, s.(speed := faster), verified);
      after.rate <= before.rate && after == before.(rate := after.rate)
  {
    ScaleIsAntitone(DurOr(None, c.rate, 2 * SECOND), s.speed, faster);
  }
}
