/**
 The caching HTTP GET service (src/lib/cached-http-get-service.ts) over a TTL key-value cache.
 A get that misses suspends in `fetch`, so gets of one URL can overlap.
 */
module HttpCache {
  import opened Wrappers
  import opened VerificationResults
  import opened Decimal

  const DEFAULT_TTL_MS := 5 * 60 * 1000

  datatype Entry = Entry(body: Json, status: nat)

  /** A cached entry and the last instant at which the cache still returns it. */
  datatype Cached = Cached(entry: Entry, expires: int)

  /** A fetch response; `cacheControl` is the header, `body` is null when reading it failed. */
  datatype Response = Response(ok: bool, entry: Entry, cacheControl: Option<string>)

  function CacheKeyForUrl(url: string): string {
    "http:" + url
  }

  lemma CacheKeyInjective(a: string, b: string)
    requires CacheKeyForUrl(a) == CacheKeyForUrl(b)
    ensures a == b
  {
    assert a == CacheKeyForUrl(a)[5..];
    assert b == CacheKeyForUrl(b)[5..];
  }

  // ----- the max-age directive --------------------------------------------

  /** The whitespace the pattern's `\s` meets in a header. */
  predicate IsSpace(c: char) { c == ' ' || c == '\t' || c == '\U{A0}' }

  function Lower(c: char): char {
    if 'A' <= c <= 'Z' then (c as int + 32) as char else c
  }

  const DIRECTIVE := "max-age"

  predicate NameAt(s: string, p: nat) {
    p + |DIRECTIVE| <= |s| && forall i :: 0 <= i < |DIRECTIVE| ==> Lower(s[p + i]) == DIRECTIVE[i]
  }

  function SkipSpaces(s: string, p: nat): (q: nat)
    requires p <= |s|
    ensures p <= q <= |s|
    ensures forall i :: p <= i < q ==> IsSpace(s[i])
    ensures q < |s| ==> !IsSpace(s[q])
    decreases |s| - p
  {
    if p < |s| && IsSpace(s[p]) then SkipSpaces(s, p + 1) else p
  }

  function SkipDigits(s: string, p: nat): (q: nat)
    requires p <= |s|
    ensures p <= q <= |s|
    ensures forall i :: p <= i < q ==> IsDigit(s[i])
    ensures q < |s| ==> !IsDigit(s[q])
    decreases |s| - p
  {
    if p < |s| && IsDigit(s[p]) then SkipDigits(s, p + 1) else p
  }

  /** The digits captured by a match of the directive starting at `p`, after its separator; empty if there is none. */
  function DigitsAt(s: string, p: nat): string {
    if !NameAt(s, p) || !(p == 0 || s[p - 1] == ',' || IsSpace(s[p - 1])) then ""
    else
      var q := SkipSpaces(s, p + |DIRECTIVE|);
      if q >= |s| || s[q] != '=' then ""
      else
        var d := SkipSpaces(s, q + 1);
        s[d..SkipDigits(s, d)]
  }

  /** A header cut around one directive, in any letter case, with optional white space around its equals sign. */
  datatype Cut = Cut(before: string, name: string, gap: string, gap': string, digits: string, after: string) {
    function Header(): string {
      before + name + gap + "=" + gap' + digits + after
    }

    ghost predicate Valid() {
      && (before == "" || before[|before| - 1] in {',', ' ', '\t', '\U{A0}'})
      && |name| == 7 && (forall i :: 0 <= i < 7 ==> name[i] == "max-age"[i] || name[i] == "MAX-AGE"[i])
      && (forall i :: 0 <= i < |gap| ==> gap[i] in {' ', '\t', '\U{A0}'})
      && (forall i :: 0 <= i < |gap'| ==> gap'[i] in {' ', '\t', '\U{A0}'})
      && digits != "" && (forall i :: 0 <= i < |digits| ==> '0' <= digits[i] <= '9')
      && (after == "" || !('0' <= after[0] <= '9'))
    }
  }

  lemma CutAt(c: Cut)
    ensures var s, p, q := c.Header(), |c.before|, |c.before| + |c.name| + |c.gap|;
            && |s| == q + 1 + |c.gap'| + |c.digits| + |c.after|
            && s[..p] == c.before && s[p..p + |c.name|] == c.name && s[p + |c.name|..q] == c.gap && s[q] == '='
            && s[q + 1..q + 1 + |c.gap'|] == c.gap'
            && s[q + 1 + |c.gap'|..q + 1 + |c.gap'| + |c.digits|] == c.digits
            && s[q + 1 + |c.gap'| + |c.digits|..] == c.after
  {
  }

  /** White space, then something else or the end, is skipped exactly. */
  lemma SkipSpacesOver(s: string, p: nat, q: nat)
    requires p <= q <= |s| && (forall i :: p <= i < q ==> IsSpace(s[i])) && (q < |s| ==> !IsSpace(s[q]))
    ensures SkipSpaces(s, p) == q
  {
  }

  lemma SkipDigitsOver(s: string, p: nat, q: nat)
    requires p <= q <= |s| && (forall i :: p <= i < q ==> IsDigit(s[i])) && (q < |s| ==> !IsDigit(s[q]))
    ensures SkipDigits(s, p) == q
  {
  }

  /** A directive at `p`, its equals sign at `q` and its digits from `d` to `e` are captured as just those digits. */
  lemma CapturesParts(s: string, p: nat, q: nat, d: nat, e: nat)
    requires p + 7 <= q < |s| && q < d <= e <= |s| && s[q] == '='
    requires NameAt(s, p) && (p == 0 || s[p - 1] == ',' || IsSpace(s[p - 1]))
    requires (forall i :: p + 7 <= i < q ==> IsSpace(s[i])) && (forall i :: q < i < d ==> IsSpace(s[i]))
    requires (forall i :: d <= i < e ==> IsDigit(s[i])) && (e < |s| ==> !IsDigit(s[e])) && d < e
    ensures DigitsAt(s, p) == s[d..e]
  {
    hide SkipSpaces, SkipDigits, NameAt;
    SkipSpacesOver(s, p + 7, q);
    SkipSpacesOver(s, q + 1, d);
    SkipDigitsOver(s, d, e);
  }

  /** Wherever the directive stands behind the start, a comma or white space, its digits are captured, all of them. */
  lemma CutIsCaptured(c: Cut)
    requires c.Valid()
    ensures DigitsAt(c.Header(), |c.before|) == c.digits
  {
    hide DigitsAt, NameAt, Cut.Header;
    var s, p := c.Header(), |c.before|;
    var q := p + 7 + |c.gap|;
    var d := q + 1 + |c.gap'|;
    var e := d + |c.digits|;
    CutAt(c);
    CutName(c);
    assert p > 0 ==> s[p - 1] == s[..p][p - 1];
    forall i | p + 7 <= i < q ensures IsSpace(s[i]) {
      assert s[i] == s[p + 7..q][i - p - 7];
    }
    forall i | q < i < d ensures IsSpace(s[i]) {
      assert s[i] == s[q + 1..d][i - q - 1];
    }
    forall i | d <= i < e ensures IsDigit(s[i]) {
      assert s[i] == s[d..e][i - d];
    }
    assert e < |s| ==> s[e] == s[e..][0];
    CapturesParts(s, p, q, d, e);
  }

  lemma CutName(c: Cut)
    requires c.Valid()
    ensures NameAt(c.Header(), |c.before|)
  {
    var s, p := c.Header(), |c.before|;
    CutAt(c);
    NameIsDirective(c.name);
    forall i | 0 <= i < |DIRECTIVE| ensures Lower(s[p + i]) == DIRECTIVE[i] {
      assert s[p + i] == s[p..p + 7][i] == c.name[i];
    }
  }

  lemma NameIsDirective(name: string)
    requires |name| == 7
    ensures (forall i :: 0 <= i < 7 ==> name[i] == "max-age"[i] || name[i] == "MAX-AGE"[i])
            <==> forall i :: 0 <= i < 7 ==> Lower(name[i]) == DIRECTIVE[i]
  {
    forall i | 0 <= i < 7
      ensures name[i] == "max-age"[i] || name[i] == "MAX-AGE"[i] <==> Lower(name[i]) == DIRECTIVE[i]
    {
      LowerIff(name[i], i);
    }
  }

  lemma LowerIff(c: char, i: nat)
    requires i < 7
    ensures c == "max-age"[i] || c == "MAX-AGE"[i] <==> Lower(c) == DIRECTIVE[i]
  {
    if i == 0 { } else if i == 1 { } else if i == 2 { } else if i == 3 { } else if i == 4 { } else if i == 5 { }
  }

  lemma Cuts(s: string, p: nat, q: nat, d: nat, e: nat)
    requires p + 7 <= q < |s| && q < d <= e <= |s| && s[q] == '='
    ensures Cut(s[..p], s[p..p + 7], s[p + 7..q], s[q + 1..d], s[d..e], s[e..]).Header() == s
  {
    assert "=" == [s[q]];
    assert s[..p] + s[p..p + 7] == s[..p + 7];
    assert s[..p + 7] + s[p + 7..q] == s[..q];
    assert s[..q] + [s[q]] == s[..q + 1];
    assert s[..q + 1] + s[q + 1..d] == s[..d];
    assert s[..d] + s[d..e] == s[..e];
    assert s[..e] + s[e..] == s;
  }

  /** What a capture means position by position. */
  lemma CapturedParts(s: string, p: nat) returns (q: nat, d: nat, e: nat)
    requires DigitsAt(s, p) != ""
    ensures p + 7 <= q < |s| && q < d < e <= |s| && s[q] == '=' && DigitsAt(s, p) == s[d..e]
    ensures NameAt(s, p) && (p == 0 || s[p - 1] == ',' || IsSpace(s[p - 1]))
    ensures (forall i :: p + 7 <= i < q ==> IsSpace(s[i])) && (forall i :: q < i < d ==> IsSpace(s[i]))
    ensures (forall i :: d <= i < e ==> IsDigit(s[i])) && (e < |s| ==> !IsDigit(s[e]))
  {
    hide SkipSpaces, SkipDigits, NameAt, IsSpace, IsDigit;
    q := SkipSpaces(s, p + 7);
    d := SkipSpaces(s, q + 1);
    e := SkipDigits(s, d);
  }

  lemma CutIsValid(s: string, p: nat, q: nat, d: nat, e: nat)
    requires p + 7 <= q < |s| && q < d < e <= |s| && NameAt(s, p) && (p == 0 || s[p - 1] == ',' || IsSpace(s[p - 1]))
    requires (forall i :: p + 7 <= i < q ==> IsSpace(s[i])) && (forall i :: q < i < d ==> IsSpace(s[i]))
    requires (forall i :: d <= i < e ==> IsDigit(s[i])) && (e < |s| ==> !IsDigit(s[e]))
    ensures Cut(s[..p], s[p..p + 7], s[p + 7..q], s[q + 1..d], s[d..e], s[e..]).Valid()
  {
    hide Lower;
    var name := s[p..p + 7];
    forall i | 0 <= i < 7 ensures Lower(name[i]) == DIRECTIVE[i] {
      assert name[i] == s[p + i];
    }
    NameIsDirective(name);
  }

  /** And nothing else is: where digits are captured, the header is cut around a directive there. */
  lemma CapturedIsCut(s: string, p: nat)
    requires DigitsAt(s, p) != ""
    ensures exists c: Cut :: c.Valid() && c.Header() == s && |c.before| == p && c.digits == DigitsAt(s, p)
  {
    hide DigitsAt, NameAt, IsSpace, Cut.Valid, Cut.Header;
    var q, d, e := CapturedParts(s, p);
    var c := Cut(s[..p], s[p..p + 7], s[p + 7..q], s[q + 1..d], s[d..e], s[e..]);
    CutIsValid(s, p, q, d, e);
    Cuts(s, p, q, d, e);
    assert c.Valid() && c.Header() == s && |c.before| == p && c.digits == DigitsAt(s, p);
  }

  /** Position `p` is the first at which the directive matches. */
  ghost predicate FirstMatch(s: string, p: nat) {
    p < |s| && DigitsAt(s, p) != "" && forall q :: 0 <= q < p ==> DigitsAt(s, q) == ""
  }

  /** The lifetime in milliseconds, if the first `max-age` is there and positive. */
  method ParseCacheControlMaxAge(header: Option<string>) returns (ttl: Option<nat>)
    ensures ttl.Some? <==>
              header.Some? && exists p: nat :: FirstMatch(header.value, p) && ToNat(DigitsAt(header.value, p)) > 0
    ensures ttl.Some? ==> forall p: nat :: FirstMatch(header.value, p) ==>
              ttl.value == ToNat(DigitsAt(header.value, p)) * 1000
    ensures ttl == MaxAge(header)
  {
    hide DigitsAt, ToNat;
    if header.None? {
      return None;
    }
    var s := header.value;
    var p := 0;
    while p < |s| && DigitsAt(s, p) == ""
      invariant 0 <= p <= |s|
      invariant forall q :: 0 <= q < p ==> DigitsAt(s, q) == ""
    {
      p := p + 1;
    }
    MaxAgeAt(s, p);
    if p == |s| {
      return None;
    }
    assert FirstMatch(s, p);
    var seconds := ToNat(DigitsAt(s, p));
    if seconds <= 0 {
      return None;
    }
    ttl := Some(seconds * 1000);
  }

  function MaxAgeFrom(s: string, p: nat): Option<nat>
    requires p <= |s|
    decreases |s| - p
  {
    if p == |s| then None
    else if DigitsAt(s, p) == "" then MaxAgeFrom(s, p + 1)
    else if ToNat(DigitsAt(s, p)) > 0 then Some(ToNat(DigitsAt(s, p)) * 1000) else None
  }

  /** `parseCacheControlMaxAge` as a function, for the specification of `get`. */
  function MaxAge(header: Option<string>): Option<nat> {
    if header.None? then None else MaxAgeFrom(header.value, 0)
  }

  lemma MaxAgeAt(s: string, p: nat)
    requires p <= |s| && forall q :: 0 <= q < p ==> DigitsAt(s, q) == ""
    ensures MaxAge(Some(s)) == MaxAgeFrom(s, p)
  {
    var q := 0;
    while q < p
      invariant 0 <= q <= p
      invariant MaxAgeFrom(s, 0) == MaxAgeFrom(s, q)
    {
      q := q + 1;
    }
  }

  /** So the lifetime is that of the first directive, wherever it stands and however it is spaced and cased. */
  lemma FirstCutDecides(c: Cut)
    requires c.Valid() && forall p :: 0 <= p < |c.before| ==> DigitsAt(c.Header(), p) == ""
    ensures MaxAge(Some(c.Header())) == if ToNat(c.digits) > 0 then Some(ToNat(c.digits) * 1000) else None
  {
    hide DigitsAt, ToNat;
    CutAt(c);
    CutIsCaptured(c);
    MaxAgeAt(c.Header(), |c.before|);
  }

  /** The directive as servers write it reads back as its number of seconds; zero means no directive. */
  lemma MaxAgeRoundTrip(n: nat)
    ensures MaxAge(Some(DIRECTIVE + "=" + Digits(n))) == if n > 0 then Some(n * 1000) else None
  {
    var s := DIRECTIVE + "=" + Digits(n);
    var m := |DIRECTIVE|;
    assert s[m] == '=' && forall i :: 0 <= i < |Digits(n)| ==> s[m + 1 + i] == Digits(n)[i];
    assert SkipSpaces(s, m) == m;
    assert SkipSpaces(s, m + 1) == m + 1;
    assert SkipDigits(s, m + 1) == |s|;
    assert s[m + 1..|s|] == Digits(n);
    assert DigitsAt(s, 0) == Digits(n);
    DigitsRoundTrip(n);
  }

  /** The lifetime a response is cached for. */
  function Ttl(r: Response): nat {
    var parsed := MaxAge(r.cacheControl);
    if parsed.Some? then parsed.value else DEFAULT_TTL_MS
  }

  /** Without a header the lifetime is five minutes; with a directive as servers write it, its seconds if positive. */
  lemma TtlCases(r: Response, n: nat)
    ensures r.cacheControl == None ==> Ttl(r) == 300_000
    ensures r.cacheControl == Some("max-age=" + Digits(n)) ==> Ttl(r) == if n > 0 then n * 1000 else 300_000
  {
    MaxAgeRoundTrip(n);
    assert DIRECTIVE + "=" == "max-age=";
  }

  // ----- the service -------------------------------------------------------

  /** `get` suspended in `fetch`, or finished with what it returned; `fetched` tells a fetch from a cache hit. */
  datatype Get = Fetching(url: string) | Done(url: string, entry: Entry, fetched: bool, at: int)

  /** A successful response and when it was stored. */
  datatype Fetch = Fetch(url: string, response: Response, storedAt: int)

  /** The cache, the clock, the gets so far and, as history, every response received. */
  datatype World = World(cache: map<string, Cached>, now: int, gets: seq<Get>, fetches: seq<Fetch>)

  datatype Step = Tick(ms: nat) | Call(url: string) | Answer(get: nat, response: Response) | Drop(key: string)

  function Lookup(cache: map<string, Cached>, key: string, now: int): Option<Entry> {
    if key in cache && now <= cache[key].expires then Some(cache[key].entry) else None
  }

  function DoCall(w: World, url: string): World {
    var hit := Lookup(w.cache, CacheKeyForUrl(url), w.now);
    w.(gets := w.gets + [if hit.Some? then Done(url, hit.value, false, w.now) else Fetching(url)])
  }

  function DoAnswer(w: World, get: nat, response: Response): World {
    if get >= |w.gets| || !w.gets[get].Fetching? then w
    else
      var url := w.gets[get].url;
      w.(gets := w.gets[get := Done(url, response.entry, true, w.now)],
      cache := if response.ok then w.cache[CacheKeyForUrl(url) := Cached(response.entry, w.now + Ttl(response))]
               else w.cache,
      fetches := w.fetches + [Fetch(url, response, w.now)])
  }

  function Next(w: World, step: Step): World {
    match step
    case Tick(ms) => w.(now := w.now + ms)
    case Call(url) => DoCall(w, url)
    case Answer(get, response) => DoAnswer(w, get, response)
    case Drop(key) => w.(cache := w.cache - {key})
  }

  function Run(w: World, steps: seq<Step>): World {
    if steps == [] then w else Next(Run(w, steps[..|steps| - 1]), steps[|steps| - 1])
  }

  function Start(now: int): World {
    World(map[], now, [], [])
  }

  /** `entry` is the body of an earlier OK fetch of `url`, stored no longer than that response's lifetime ago. */
  ghost predicate FreshFor(fetches: seq<Fetch>, url: string, entry: Entry, at: int) {
    exists k ::
      0 <= k < |fetches| && fetches[k].url == url && fetches[k].response.ok && fetches[k].response.entry == entry
                && fetches[k].storedAt <= at <= fetches[k].storedAt + Ttl(fetches[k].response)
  }

  ghost predicate CachedOk(w: World, key: string)
    requires key in w.cache
  {
    exists k :: 0 <= k < |w.fetches| && CacheKeyForUrl(w.fetches[k].url) == key && w.fetches[k].response.ok
                && w.fetches[k].response.entry == w.cache[key].entry
                && w.fetches[k].storedAt <= w.now
                && w.cache[key].expires == w.fetches[k].storedAt + Ttl(w.fetches[k].response)
  }

  ghost predicate GetOk(w: World, g: Get) {
    g.Done? ==>
      && g.at <= w.now
      && if g.fetched then exists k ::
           0 <= k < |w.fetches| && w.fetches[k].url == g.url && w.fetches[k].response.entry == g.entry
           && w.fetches[k].storedAt == g.at
         else FreshFor(w.fetches, g.url, g.entry, g.at)
  }

  ghost predicate Inv(w: World) {
    && (forall key :: key in w.cache ==> CachedOk(w, key))
    && (forall i :: 0 <= i < |w.gets| ==> GetOk(w, w.gets[i]))
  }

  lemma FetchesGrow(w: World, w': World, g: Get)
    requires GetOk(w, g) && w.fetches <= w'.fetches && w.now <= w'.now
    ensures GetOk(w', g)
  {
    hide Ttl;
    if g.Done? && !g.fetched {
      var k :| 0 <= k < |w.fetches| && w.fetches[k].url == g.url && w.fetches[k].response.ok
               && w.fetches[k].response.entry == g.entry
               && w.fetches[k].storedAt <= g.at <= w.fetches[k].storedAt + Ttl(w.fetches[k].response);
      assert w'.fetches[k] == w.fetches[k];
    } else if g.Done? {
      var k :| 0 <= k < |w.fetches| && w.fetches[k].url == g.url && w.fetches[k].response.entry == g.entry
               && w.fetches[k].storedAt == g.at;
      assert w'.fetches[k] == w.fetches[k];
    }
  }

  lemma CachedGrow(w: World, w': World, key: string)
    requires key in w.cache && CachedOk(w, key)
    requires key in w'.cache && w'.cache[key] == w.cache[key] && w.fetches <= w'.fetches && w.now <= w'.now
    ensures CachedOk(w', key)
  {
    hide Ttl;
    var k :| 0 <= k < |w.fetches| && CacheKeyForUrl(w.fetches[k].url) == key && w.fetches[k].response.ok
             && w.fetches[k].response.entry == w.cache[key].entry && w.fetches[k].storedAt <= w.now
             && w.cache[key].expires == w.fetches[k].storedAt + Ttl(w.fetches[k].response);
    assert w'.fetches[k] == w.fetches[k];
  }

  lemma HitIsFresh(w: World, url: string)
    requires Inv(w) && Lookup(w.cache, CacheKeyForUrl(url), w.now).Some?
    ensures FreshFor(w.fetches, url, Lookup(w.cache, CacheKeyForUrl(url), w.now).value, w.now)
  {
    hide Ttl, GetOk;
    var key := CacheKeyForUrl(url);
    assert CachedOk(w, key);
    var k :| 0 <= k < |w.fetches| && CacheKeyForUrl(w.fetches[k].url) == key && w.fetches[k].response.ok
             && w.fetches[k].response.entry == w.cache[key].entry && w.fetches[k].storedAt <= w.now
             && w.cache[key].expires == w.fetches[k].storedAt + Ttl(w.fetches[k].response);
    CacheKeyInjective(w.fetches[k].url, url);
  }

  lemma NextInv(w: World, step: Step)
    requires Inv(w)
    ensures Inv(Next(w, step))
  {
    hide Ttl, FreshFor;
    var w' := Next(w, step);
    if step.Call? && Lookup(w.cache, CacheKeyForUrl(step.url), w.now).Some? {
      HitIsFresh(w, step.url);
    }
    forall i | 0 <= i < |w'.gets| ensures GetOk(w', w'.gets[i]) {
      if i < |w.gets| && w'.gets[i] == w.gets[i] {
        FetchesGrow(w, w', w.gets[i]);
      } else if step.Answer? {
        assert w'.fetches[|w.fetches|] == Fetch(w.gets[i].url, step.response, w.now);
      }
    }
    forall key | key in w'.cache ensures CachedOk(w', key) {
      if key in w.cache && w'.cache[key] == w.cache[key] {
        CachedGrow(w, w', key);
      } else {
        assert w'.fetches[|w.fetches|] == Fetch(w.gets[step.get].url, step.response, w.now);
      }
    }
  }

  lemma {:induction false} RunInv(now: int, steps: seq<Step>)
    ensures Inv(Run(Start(now), steps))
  {
    if steps != [] {
      RunInv(now, steps[..|steps| - 1]);
      NextInv(Run(Start(now), steps[..|steps| - 1]), steps[|steps| - 1]);
    }
  }

  /**
   In every run of possibly overlapping gets: whatever a get returned was fetched by that get, or is the body of an
   OK response to the same URL that was stored no longer than that response's lifetime before.
   */
  lemma ReturnedBodiesAreFresh(now: int, steps: seq<Step>, i: nat)
    requires i < |Run(Start(now), steps).gets| && Run(Start(now), steps).gets[i].Done?
             && !Run(Start(now), steps).gets[i].fetched
    ensures var w := Run(Start(now), steps); FreshFor(w.fetches, w.gets[i].url, w.gets[i].entry, w.gets[i].at)
  {
    hide FreshFor, Ttl;
    RunInv(now, steps);
    var w := Run(Start(now), steps);
    assert GetOk(w, w.gets[i]);
  }

  // ----- the service with its cache updated in place ----------------------

  class CachedHttpGetService {
    var cache: map<string, Cached>

    constructor ()
      ensures cache == map[]
    {
      cache := map[];
    }

    /** The part of `get` before `fetch`: an answer from the cache, or nothing. */
    method FromCache(url: string, now: int) returns (hit: Option<Entry>)
      ensures hit == Lookup(cache, CacheKeyForUrl(url), now)
    {
      var key := CacheKeyForUrl(url);
      if key in cache && now <= cache[key].expires {
        return Some(cache[key].entry);
      }
      hit := None;
    }

    /** The part of `get` after `fetch`: cache an OK response, return it in any case. */
    method FromNetwork(url: string, response: Response, now: int) returns (entry: Entry)
      modifies this
      ensures entry == response.entry
      ensures cache == if response.ok
                       then old(cache)[CacheKeyForUrl(url) := Cached(response.entry, now + Ttl(response))]
                       else old(cache)
    {
      if response.ok {
        var parsed := ParseCacheControlMaxAge(response.cacheControl);
        var ttl := if parsed.Some? then parsed.value else DEFAULT_TTL_MS;
        cache := cache[CacheKeyForUrl(url) := Cached(response.entry, now + ttl)];
      }
      entry := response.entry;
    }

    /** An undisturbed get: `response` is what the network answers at `later`, if it is asked. */
    method Get(url: string, now: int, response: Response, later: int) returns (entry: Entry)
      modifies this
      ensures var hit := Lookup(old(cache), CacheKeyForUrl(url), now);
              if hit.Some? then entry == hit.value && cache == old(cache)
              else
                && entry == response.entry
                && (response.ok ==> Lookup(cache, CacheKeyForUrl(url), later + Ttl(response)) == Some(response.entry))
                && (response.ok ==> Lookup(cache, CacheKeyForUrl(url), later + Ttl(response) + 1) == None)
                && (!response.ok ==> cache == old(cache))
      ensures forall key :: key != CacheKeyForUrl(url) ==> Lookup(cache, key, later) == Lookup(old(cache), key, later)
    {
      var hit := FromCache(url, now);
      if hit.Some? {
        return hit.value;
      }
      entry := FromNetwork(url, response, later);
    }
  }
}
