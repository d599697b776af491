/**
 * Remote calendars (`remoteCalendars.ts`): the manual-refresh rate limit and
 * the URL helpers used when a calendar is imported from, or refreshed
 * against, a web address.
 *
 * The WHATWG URL parser and `decodeURIComponent` are host built-ins and come
 * in as parameters; a parsed URL is the four components these helpers read or
 * set.  A timestamp is a JavaScript number, either finite (an integer count of
 * milliseconds) or not finite (`NaN`, an infinity).
 */
module RemoteCalendars {
  import opened Base
  import opened Lists
  import opened Text

  const ManualRefreshCooldownMs: int := 60 * 1000
  const ManualRefreshWindowMs: int := 60 * 60 * 1000
  const ManualRefreshMaxPerWindow: nat := 20

  // ---------------------------------------------------------------- parsing a calendar address

  /** The components of a parsed URL these helpers use. */
  datatype Url = Url(protocol: string, hostname: string, pathname: string, search: string)

  /** Why an address was refused. */
  datatype UrlError =
    | EmptyUrl             // 'URL vide'
    | UnparsableUrl        // thrown by the URL parser itself
    | UnsupportedProtocol  // 'URL invalide'
    | ProxyNotConfigured   // 'Proxy non configuré (VITE_RENNES_PROXY_BASE_URL)'
    | UndecodableName      // thrown by decodeURIComponent

  datatype UrlResult<T> = Accepted(value: T) | Rejected(error: UrlError)

  predicate WebProtocol(p: string) {
    p == "http:" || p == "https:"
  }

  /**
   * `parseCalendarUrl`: the trimmed text, parsed, when it is a non-empty
   * http or https address.
   */
  function ParseCalendarUrl(raw: string, parse: string -> Option<Url>): (r: UrlResult<Url>)
    ensures Trim(JsSpace, raw) == [] ==> r == Rejected(EmptyUrl)
    ensures r.Accepted? <==>
      Trim(JsSpace, raw) != [] && parse(Trim(JsSpace, raw)).Some?
      && WebProtocol(parse(Trim(JsSpace, raw)).value.protocol)
    ensures r.Accepted? ==> parse(Trim(JsSpace, raw)) == Some(r.value) && WebProtocol(r.value.protocol)
  {
    var trimmed := Trim(JsSpace, raw);
    if trimmed == [] then Rejected(EmptyUrl)
    else
      match parse(trimmed)
      case None => Rejected(UnparsableUrl)
      case Some(u) => if WebProtocol(u.protocol) then Accepted(u) else Rejected(UnsupportedProtocol)
  }

  const RennesHost: string := "planning.univ-rennes1.fr"
  const RennesPathPrefix: string := "/jsp/custom/modules/plannings/"
  const RennesProxyEndpoint: string := "/p/"
  const DevProxyBasePath: string := "/rennes-proxy"

  /** `isRennesPlanningUrl`. */
  predicate IsRennesPlanningUrl(u: Url) {
    u.hostname == RennesHost && StartsWith(u.pathname, RennesPathPrefix)
  }

  /**
   * `RENNES_PROXY_BASE_URL`: the trimmed build-time setting when it is not
   * blank, else the development proxy path in a development build, else
   * nothing; the proxy counts as unconfigured exactly in that last case.
   */
  function ProxyBaseUrl(setting: Option<string>, dev: bool): (r: string)
    ensures r == [] <==> !dev && (setting.None? || Trim(JsSpace, setting.value) == [])
    ensures setting.Some? && Trim(JsSpace, setting.value) != [] ==> r == Trim(JsSpace, setting.value)
  {
    var configured := if setting.Some? then Trim(JsSpace, setting.value) else "";
    if configured != [] then configured else if dev then DevProxyBasePath else ""
  }

  // ---------------------------------------------------------------- slashes in paths

  /** `s.replace(/\/+$/, '')`. */
  function TrimTrailingSlashes(s: string): (r: string)
    ensures r <= s && (r == [] || r[|r| - 1] != '/')
    ensures forall k :: |r| <= k < |s| ==> s[k] == '/'
  {
    if s != [] && s[|s| - 1] == '/' then
      var r := TrimTrailingSlashes(s[..|s| - 1]);
      assert s[..|s| - 1][..|r|] == s[..|r|];
      r
    else s
  }

  /** `s.replace(/^\//, '')`: at most one leading slash goes. */
  function DropLeadingSlash(s: string): (r: string)
    ensures s == r || s == "/" + r
  {
    if s != [] && s[0] == '/' then s[1..] else s
  }

  predicate NoDoubleSlash(s: string) {
    forall i :: 0 <= i < |s| - 1 ==> !(s[i] == '/' && s[i + 1] == '/')
  }

  /** The characters of `s` other than '/', in order. */
  function Unslashed(s: string): string {
    if s == [] then [] else (if s[0] == '/' then [] else [s[0]]) + Unslashed(s[1..])
  }

  lemma {:induction false} UnslashedAppend(a: string, b: string)
    ensures Unslashed(a + b) == Unslashed(a) + Unslashed(b)
  {
    if a == [] {
      assert a + b == b;
    } else {
      assert (a + b)[1..] == a[1..] + b;
      UnslashedAppend(a[1..], b);
    }
  }

  /**
   * `s.replace(/\/{2,}/g, '/')`: every run of slashes becomes one slash;
   * nothing but slashes is removed and the first character stays.
   */
  function CollapseSlashes(s: string): (r: string)
    ensures NoDoubleSlash(r) && Unslashed(r) == Unslashed(s) && |r| <= |s|
    ensures s != [] ==> r != [] && r[0] == s[0]
  {
    if |s| >= 2 && s[0] == '/' && s[1] == '/' then CollapseSlashes(s[1..])
    else if s == [] then []
    else [s[0]] + CollapseSlashes(s[1..])
  }

  /** A path without a run of slashes is left as it is. */
  lemma {:induction false} CollapseSlashesNoop(s: string)
    requires NoDoubleSlash(s)
    ensures CollapseSlashes(s) == s
  {
    if s != [] {
      CollapseSlashesNoop(s[1..]);
      assert s == [s[0]] + s[1..];
    }
  }

  /** Collapsing splits at a point that is not preceded by a slash. */
  lemma {:induction false} CollapseSlashesAppend(a: string, b: string)
    requires a != [] && a[|a| - 1] != '/'
    ensures CollapseSlashes(a + b) == CollapseSlashes(a) + CollapseSlashes(b)
  {
    if |a| == 1 {
      assert a + b == [a[0]] + b;
      assert CollapseSlashes(a) == [a[0]] + CollapseSlashes([]);
    } else {
      assert (a + b)[1..] == a[1..] + b;
      CollapseSlashesAppend(a[1..], b);
    }
  }

  // ---------------------------------------------------------------- the proxied address

  /** The proxy base path: trailing slashes dropped, then the proxy endpoint unless it already ends there. */
  function ProxyBasePath(basePath: string): (r: string)
    ensures EndsWith(r, "/p") && r[|r| - 1] != '/' && r <= TrimTrailingSlashes(basePath) + "/p"
  {
    var trimmed := TrimTrailingSlashes(basePath);
    if EndsWith(trimmed, "/p") then trimmed
    else
      assert RennesProxyEndpoint[..|RennesProxyEndpoint| - 1] == "/p";
      trimmed + RennesProxyEndpoint[..|RennesProxyEndpoint| - 1]
  }

  /** The path of the proxied request: the source path below the proxy base path, runs of slashes collapsed. */
  function ProxiedPath(basePath: string, sourcePath: string): string {
    CollapseSlashes(ProxyBasePath(basePath) + "/" + DropLeadingSlash(sourcePath))
  }

  /**
   * The proxied path starts with the (collapsed) proxy base path and a slash,
   * has no run of slashes, and keeps every other character of the base path
   * and the source path, in order.
   */
  lemma ProxiedPathShape(basePath: string, sourcePath: string)
    ensures var r := ProxiedPath(basePath, sourcePath);
      && NoDoubleSlash(r)
      && StartsWith(r, CollapseSlashes(ProxyBasePath(basePath)) + "/")
      && Unslashed(r) == Unslashed(ProxyBasePath(basePath)) + Unslashed(sourcePath)
  {
    var p := ProxyBasePath(basePath);
    var tail := DropLeadingSlash(sourcePath);
    var rest := "/" + tail;
    assert p + "/" + tail == p + rest;
    CollapseSlashesAppend(p, rest);
    SlashedStart(p, rest);
    UnslashedAppend(p, rest);
    UnslashedSlash(tail);
    UnslashedSlash(sourcePath);
  }

  /** A slash in front changes nothing once slashes are dropped. */
  lemma UnslashedSlash(s: string)
    ensures Unslashed("/" + s) == Unslashed(s)
  {
    assert ("/" + s)[0] == '/' && ("/" + s)[1..] == s;
  }

  /** Collapsing after a prefix that ends in a letter keeps the prefix's collapse and the slash after it. */
  lemma SlashedStart(p: string, rest: string)
    requires EndsWith(p, "/p") && rest != [] && rest[0] == '/'
    ensures StartsWith(CollapseSlashes(p) + CollapseSlashes(rest), CollapseSlashes(p) + "/")
  {
    var cp, cr := CollapseSlashes(p), CollapseSlashes(rest);
    assert cr[0] == '/';
    assert (cp + cr)[..|cp| + 1] == cp + "/";
  }

  /**
   * `buildFetchUrlFromSource`: the parsed source address itself off the Rennes
   * planning site; on it, the proxy base address with the proxied path and
   * the source query.  `proxyBase` is the proxy base address resolved (as an
   * absolute address, or against the page origin), `None` when it cannot be.
   */
  function FetchTarget(sourceUrl: string, parse: string -> Option<Url>, proxyBaseUrl: string,
                       proxyBase: Option<Url>): (r: UrlResult<Url>)
    ensures ParseCalendarUrl(sourceUrl, parse).Rejected? ==> r == ParseCalendarUrl(sourceUrl, parse)
  {
    match ParseCalendarUrl(sourceUrl, parse)
    case Rejected(e) => Rejected(e)
    case Accepted(u) =>
      if !IsRennesPlanningUrl(u) then Accepted(u)
      else if proxyBaseUrl == [] then Rejected(ProxyNotConfigured)
      else
        match proxyBase
        case None => Rejected(ProxyNotConfigured)
        case Some(b) => Accepted(b.(pathname := ProxiedPath(b.pathname, u.pathname), search := u.search))
  }

  /**
   * What the fetch address is: the source unchanged off the planning site;
   * refused when the proxy is unconfigured; otherwise the proxy's protocol
   * and host, the source query, and a proxied path of the shape above.
   */
  lemma FetchTargetCases(sourceUrl: string, parse: string -> Option<Url>, proxyBaseUrl: string,
                         proxyBase: Option<Url>, u: Url)
    requires ParseCalendarUrl(sourceUrl, parse) == Accepted(u)
    ensures var r := FetchTarget(sourceUrl, parse, proxyBaseUrl, proxyBase);
      && (!IsRennesPlanningUrl(u) ==> r == Accepted(u))
      && (IsRennesPlanningUrl(u) ==> (r.Rejected? <==> proxyBaseUrl == [] || proxyBase.None?))
      && (IsRennesPlanningUrl(u) && r.Accepted? ==>
            && r.value.protocol == proxyBase.value.protocol
            && r.value.hostname == proxyBase.value.hostname
            && r.value.search == u.search
            && NoDoubleSlash(r.value.pathname)
            && StartsWith(r.value.pathname, CollapseSlashes(ProxyBasePath(proxyBase.value.pathname)) + "/")
            && Unslashed(r.value.pathname) == Unslashed(ProxyBasePath(proxyBase.value.pathname)) + Unslashed(u.pathname))
  {
    if proxyBase.Some? {
      ProxiedPathShape(proxyBase.value.pathname, u.pathname);
    }
  }

  // ---------------------------------------------------------------- a name for an imported calendar

  /** The position of the last `c` in `s`. */
  function LastIndexOf(s: string, c: char): (r: Option<nat>)
    ensures r.None? ==> c !in s
    ensures r.Some? ==> r.value < |s| && s[r.value] == c && c !in s[r.value + 1..]
  {
    if s == [] then None
    else if s[|s| - 1] == c then Some(|s| - 1)
    else
      var r := LastIndexOf(s[..|s| - 1], c);
      assert s == s[..|s| - 1] + [s[|s| - 1]];
      r
  }

  /**
   * `s.replace(/\.[^.]+$/, '')`: the final ".ext" goes, when there is a dot
   * followed by at least one character and no further dot.
   */
  function StripExtension(s: string): (r: string)
    ensures r <= s
    ensures r != s ==> |r| + 1 < |s| && s[|r|] == '.' && '.' !in s[|r| + 1..]
    ensures r == s ==> '.' !in s || s[|s| - 1] == '.'
  {
    match LastIndexOf(s, '.')
    case None => s
    case Some(k) => if k < |s| - 1 then s[..k] else s
  }

  /** The last non-empty piece of a '/'-split path, or the host name when there is none. */
  function LastSegment(pathname: string, hostname: string): string {
    var segments := Filter(SplitOn(pathname, '/'), NonEmpty);
    if segments == [] then hostname else segments[|segments| - 1]
  }

  /** The last piece a filter keeps is some element of the input after which nothing is kept. */
  lemma {:induction false} LastKept<T(!new)>(s: seq<T>, p: T -> bool)
    requires Filter(s, p) != []
    ensures var f := Filter(s, p);
      exists k :: 0 <= k < |s| && s[k] == f[|f| - 1] && p(s[k]) && forall j :: k < j < |s| ==> !p(s[j])
  {
    var f := Filter(s, p);
    var g := Filter(s[1..], p);
    if g != [] {
      LastKept(s[1..], p);
      var k :| 0 <= k < |s[1..]| && s[1..][k] == g[|g| - 1] && p(s[1..][k])
        && forall j :: k < j < |s[1..]| ==> !p(s[1..][j]);
      assert f[|f| - 1] == g[|g| - 1];
      assert forall j :: k + 1 < j < |s| ==> s[j] == s[1..][j - 1];
    } else {
      assert forall j :: 0 < j < |s| ==> s[j] in s[1..];
    }
  }

  /** With no non-empty piece between slashes, the name is taken from the host. */
  lemma LastSegmentOfHost(pathname: string, hostname: string)
    requires forall k :: 0 <= k < |SplitOn(pathname, '/')| ==> SplitOn(pathname, '/')[k] == []
    ensures LastSegment(pathname, hostname) == hostname
  {
    var parts := SplitOn(pathname, '/');
    assert forall x :: x in parts ==> !NonEmpty(x);
    FilterNone(parts, NonEmpty);
  }

  /**
   * Otherwise the last segment is a non-empty piece between slashes, with
   * nothing but empty pieces after it.
   */
  lemma LastSegmentOfPath(pathname: string, hostname: string, k: int)
    requires 0 <= k < |SplitOn(pathname, '/')| && SplitOn(pathname, '/')[k] != []
    ensures var parts := SplitOn(pathname, '/');
      var r := LastSegment(pathname, hostname);
      r != [] && '/' !in r
      && exists i :: 0 <= i < |parts| && parts[i] == r && forall j :: i < j < |parts| ==> parts[j] == []
  {
    var parts := SplitOn(pathname, '/');
    assert parts[k] in Filter(parts, NonEmpty);
    LastKept(parts, NonEmpty);
  }

  /**
   * `calendarNameFromUrl`: the last path segment (or host name), decoded,
   * without its final extension.
   */
  function CalendarName(sourceUrl: string, parse: string -> Option<Url>,
                        decode: string -> Option<string>): (r: UrlResult<string>)
    ensures ParseCalendarUrl(sourceUrl, parse).Rejected? ==> r == Rejected(ParseCalendarUrl(sourceUrl, parse).error)
    ensures ParseCalendarUrl(sourceUrl, parse).Accepted? ==>
      var u := ParseCalendarUrl(sourceUrl, parse).value;
      var d := decode(LastSegment(u.pathname, u.hostname));
      (r.Accepted? <==> d.Some?) && (r.Accepted? ==> r.value <= d.value)
  {
    match ParseCalendarUrl(sourceUrl, parse)
    case Rejected(e) => Rejected(e)
    case Accepted(u) =>
      match decode(LastSegment(u.pathname, u.hostname))
      case None => Rejected(UndecodableName)
      case Some(name) => Accepted(StripExtension(name))
  }

  // ---------------------------------------------------------------- the manual-refresh history

  /** A JavaScript number in a stored refresh history. */
  datatype Num = Finite(value: int) | NotFinite

  /** The finite entries later than `minTs`, in order. */
  function Recent(h: seq<Num>, minTs: int): seq<int> {
    if h == [] then []
    else
      assert h == [h[0]] + h[1..];
      (if h[0].Finite? && h[0].value > minTs then [h[0].value] else []) + Recent(h[1..], minTs)
  }

  /** Every recent timestamp is a finite entry of `h` later than `minTs`. */
  lemma {:induction false} RecentMembers(h: seq<Num>, minTs: int)
    ensures forall x :: x in Recent(h, minTs) ==> x > minTs && Finite(x) in h
  {
    if h != [] {
      RecentMembers(h[1..], minTs);
    }
  }

  /** Each recent timestamp is kept as often as it occurs. */
  lemma {:induction false} RecentCount(h: seq<Num>, minTs: int, x: int)
    requires x > minTs
    ensures multiset(Recent(h, minTs))[x] == multiset(h)[Finite(x)]
  {
    if h != [] {
      RecentCount(h[1..], minTs, x);
      var rest := Recent(h[1..], minTs);
      assert multiset(h) == multiset{h[0]} + multiset(h[1..]) by {
        assert h == [h[0]] + h[1..];
      }
      if h[0].Finite? && h[0].value > minTs {
        assert Recent(h, minTs) == [h[0].value] + rest;
        assert multiset(Recent(h, minTs)) == multiset{h[0].value} + multiset(rest);
      } else {
        assert Recent(h, minTs) == rest;
      }
    }
  }

  function IntLe(): (int, int) -> bool {
    (a: int, b: int) => a <= b
  }

  lemma IntLeTotalPreorder()
    ensures TotalPreorder(IntLe())
  {
  }

  /** The last `n` elements of `s` (`s.slice(-n)`, all of `s` when it is shorter). */
  function LastN<T>(s: seq<T>, n: nat): (r: seq<T>)
    ensures |r| == if |s| <= n then |s| else n
    ensures r == s[|s| - |r|..]
  {
    if |s| <= n then s else s[|s| - n..]
  }

  /** The elements of the last `n` of a sorted copy of `q` come from `q`. */
  lemma SortedSuffixMembers(q: seq<int>, n: nat)
    requires TotalPreorder(IntLe())
    ensures forall x :: x in LastN(SortBy(q, IntLe()), n) ==> x in q
  {
    var sorted := SortBy(q, IntLe());
    forall x | x in LastN(sorted, n)
      ensures x in q
    {
      assert x in multiset(sorted);
    }
  }

  /**
   * `pruneManualRefreshHistory`: the finite refreshes within the last hour,
   * oldest first, at most twenty of them.  `None` is a missing or non-array
   * history.
   */
  function PruneHistory(history: Option<seq<Num>>, now: int): (r: seq<int>)
    ensures |r| <= ManualRefreshMaxPerWindow
    ensures forall i, j :: 0 <= i < j < |r| ==> r[i] <= r[j]
    ensures forall x :: x in r ==> x > now - ManualRefreshWindowMs && history.Some? && Finite(x) in history.value
  {
    if history.None? || history.value == [] then []
    else
      IntLeTotalPreorder();
      var recent := Recent(history.value, now - ManualRefreshWindowMs);
      RecentMembers(history.value, now - ManualRefreshWindowMs);
      SortedSuffixMembers(recent, ManualRefreshMaxPerWindow);
      LastN(SortBy(recent, IntLe()), ManualRefreshMaxPerWindow)
  }

  /**
   * The last `n` of a sorted copy of `q` are `n` of its largest elements
   * (all of `q` when it is shorter): all that is left out is no larger than
   * anything kept.
   */
  lemma SortedSuffixLargest(q: seq<int>, n: nat)
    requires TotalPreorder(IntLe())
    ensures var r := LastN(SortBy(q, IntLe()), n);
      && multiset(r) <= multiset(q)
      && forall x, y :: x in multiset(q) - multiset(r) && y in r ==> x <= y
  {
    var sorted := SortBy(q, IntLe());
    var r := LastN(sorted, n);
    var d := |sorted| - |r|;
    assert sorted == sorted[..d] + r;
    assert multiset(sorted) == multiset(sorted[..d]) + multiset(r);
    forall x, y | x in multiset(q) - multiset(r) && y in r
      ensures x <= y
    {
      assert x in multiset(sorted[..d]);
      var i :| 0 <= i < d && sorted[i] == x;
      var j :| 0 <= j < |r| && r[j] == y;
      assert sorted[d + j] == y;
    }
  }

  /**
   * The pruned history is the twenty latest recent refreshes (all of them
   * when there are fewer): every recent refresh it drops is no later than
   * every one it keeps.
   */
  lemma PruneKeepsLatest(history: Option<seq<Num>>, now: int)
    ensures var recent := Recent(history.GetOr([]), now - ManualRefreshWindowMs);
      var r := PruneHistory(history, now);
      && multiset(r) <= multiset(recent)
      && |r| == (if |recent| <= ManualRefreshMaxPerWindow then |recent| else ManualRefreshMaxPerWindow)
      && forall x, y :: x in multiset(recent) - multiset(r) && y in r ==> x <= y
  {
    IntLeTotalPreorder();
    if history.Some? && history.value != [] {
      SortedSuffixLargest(Recent(history.value, now - ManualRefreshWindowMs), ManualRefreshMaxPerWindow);
    } else {
      assert Recent(history.GetOr([]), now - ManualRefreshWindowMs) == [];
    }
  }

  /** Sorting a sorted list changes nothing. */
  lemma {:induction false} SortBySorted<T(!new)>(s: seq<T>, le: (T, T) -> bool)
    requires TotalPreorder(le) && SortedBy(s, le)
    ensures SortBy(s, le) == s
  {
    if s != [] {
      assert SortedBy(s[1..], le);
      SortBySorted(s[1..], le);
      assert s == [s[0]] + s[1..];
    }
  }

  /** Timestamps stored back as numbers. */
  function AsNumbers(r: seq<int>): (h: seq<Num>)
    ensures |h| == |r|
  {
    if r == [] then [] else [Finite(r[0])] + AsNumbers(r[1..])
  }

  /** The recent entries of a list of recent timestamps are all of them. */
  lemma {:induction false} RecentOfRecent(r: seq<int>, minTs: int)
    requires forall x :: x in r ==> x > minTs
    ensures Recent(AsNumbers(r), minTs) == r
  {
    if r != [] {
      var h := AsNumbers(r);
      assert h == [Finite(r[0])] + AsNumbers(r[1..]);
      assert h[0] == Finite(r[0]) && h[1..] == AsNumbers(r[1..]);
      assert r[0] in r;
      assert Recent(h, minTs) == [r[0]] + Recent(AsNumbers(r[1..]), minTs);
      assert forall x :: x in r[1..] ==> x in r;
      RecentOfRecent(r[1..], minTs);
      assert r == [r[0]] + r[1..];
    }
  }

  /** Pruning an already pruned history, stored back as numbers, changes nothing. */
  lemma PruneIdempotent(history: Option<seq<Num>>, now: int)
    ensures PruneHistory(Some(AsNumbers(PruneHistory(history, now))), now) == PruneHistory(history, now)
  {
    var r := PruneHistory(history, now);
    if r != [] {
      RecentOfRecent(r, now - ManualRefreshWindowMs);
      IntLeTotalPreorder();
      SortBySorted(r, IntLe());
    }
  }

  // ---------------------------------------------------------------- the wait before a manual refresh

  /** `Math.max`. */
  function Max(a: int, b: int): int {
    if a >= b then a else b
  }

  /** What is left of the cooldown after the last manual refresh (`null` and 0 mean none). */
  function CooldownRemaining(lastManualRefreshAt: Option<int>, now: int): int {
    if lastManualRefreshAt.None? || lastManualRefreshAt.value == 0 then 0
    else Max(0, ManualRefreshCooldownMs - (now - lastManualRefreshAt.value))
  }

  /** What is left of the hour that started with the oldest retained refresh, once twenty are retained. */
  function HourlyRemaining(history: Option<seq<Num>>, now: int): int {
    var recent := PruneHistory(history, now);
    if |recent| >= ManualRefreshMaxPerWindow then Max(0, ManualRefreshWindowMs - (now - recent[0])) else 0
  }

  /** `msUntilManualRefreshAllowed`: the longer of the two waits, never negative. */
  function MsUntilManualRefreshAllowed(lastManualRefreshAt: Option<int>, history: Option<seq<Num>>,
                                       now: int): (r: int)
    ensures r >= 0
    ensures r >= CooldownRemaining(lastManualRefreshAt, now) && r >= HourlyRemaining(history, now)
  {
    Max(CooldownRemaining(lastManualRefreshAt, now), HourlyRemaining(history, now))
  }

  /**
   * A manual refresh is allowed now (the wait is 0) exactly when the cooldown
   * since the last one has run out and fewer than twenty refreshes are
   * retained for the last hour.
   */
  lemma RefreshAllowedIff(lastManualRefreshAt: Option<int>, history: Option<seq<Num>>, now: int)
    ensures MsUntilManualRefreshAllowed(lastManualRefreshAt, history, now) == 0 <==>
      && (lastManualRefreshAt.None? || lastManualRefreshAt.value == 0
          || now - lastManualRefreshAt.value >= ManualRefreshCooldownMs)
      && |PruneHistory(history, now)| < ManualRefreshMaxPerWindow
  {
    var recent := PruneHistory(history, now);
    if |recent| >= ManualRefreshMaxPerWindow {
      assert recent[0] in recent;
    }
  }

  /** Within the cooldown, the wait is at least what is left of it. */
  lemma CooldownFloor(t: int, history: Option<seq<Num>>, now: int)
    requires t != 0 && 0 <= now - t <= ManualRefreshCooldownMs
    ensures MsUntilManualRefreshAllowed(Some(t), history, now) >= ManualRefreshCooldownMs - (now - t)
  {
  }

  /**
   * With twenty refreshes retained, the wait is at least what is left of the
   * hour since the oldest of them, which is the earliest retained one.
   */
  lemma WindowFloor(lastManualRefreshAt: Option<int>, history: Option<seq<Num>>, now: int)
    requires |PruneHistory(history, now)| == ManualRefreshMaxPerWindow
    ensures var recent := PruneHistory(history, now);
      && (forall x :: x in recent ==> recent[0] <= x)
      && MsUntilManualRefreshAllowed(lastManualRefreshAt, history, now) >= ManualRefreshWindowMs - (now - recent[0])
      && MsUntilManualRefreshAllowed(lastManualRefreshAt, history, now) > 0
  {
    var recent := PruneHistory(history, now);
    assert recent[0] in recent;
  }
}
