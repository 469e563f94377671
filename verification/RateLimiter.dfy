/** The local fixed-window rate limiter. Identities stand for the digested keys; the clock
    reading of each check is a parameter. */
module RateLimiter {
  import opened Wrappers

  const U64_MAX: nat := 0xFFFF_FFFF_FFFF_FFFF

  datatype Class = Search | Write

  /** Counters are keyed by token or by address, shared by both request classes. */
  datatype Identity = Token(token: string) | Address(ip: string)

  datatype Window = Window(started: int, count: nat)

  type Windows = map<Identity, Window>

  datatype Config = Config(window: nat, searchToken: nat, writeToken: nat, searchIp: nat, writeIp: nat) {
    /** A limit of zero switches the dimension off for the class. */
    function Limit(c: Class, x: Identity): nat {
      match (c, x)
      case (Search, Token(_)) => searchToken
      case (Write, Token(_)) => writeToken
      case (Search, Address(_)) => searchIp
      case (Write, Address(_)) => writeIp
    }
  }

  datatype Request = Request(class_: Class, token: Option<string>, ip: Option<string>, now: int) {
    predicate Carries(x: Identity) {
      (x.Token? && token == Some(x.token)) || (x.Address? && ip == Some(x.ip))
    }
  }

  datatype Decision = Decision(allowed: bool, dimension: Option<Identity>)

  // ---- one check -----------------------------------------------------------------

  /** The identities a request is counted against. */
  function Dimensions(cfg: Config, r: Request): (ds: seq<Identity>)
    ensures forall x :: x in ds <==> r.Carries(x) && cfg.Limit(r.class_, x) > 0
    ensures |ds| <= 2 && (|ds| == 2 ==> ds[0] != ds[1])
  {
    (if r.token.Some? && cfg.Limit(r.class_, Token(r.token.value)) > 0 then [Token(r.token.value)] else [])
    + (if r.ip.Some? && cfg.Limit(r.class_, Address(r.ip.value)) > 0 then [Address(r.ip.value)] else [])
  }

  predicate Live(cfg: Config, w: Window, now: int) {
    now - w.started < cfg.window
  }

  function Reap(cfg: Config, s: Windows, now: int): Windows {
    map x | x in s && Live(cfg, s[x], now) :: s[x]
  }

  /** One more request in a window, with a 64-bit saturating counter. */
  function Counted(cfg: Config, s: Windows, x: Identity, now: int): Window {
    var w := if x in s && Live(cfg, s[x], now) then s[x] else Window(now, 0);
    w.(count := if w.count < U64_MAX then w.count + 1 else U64_MAX)
  }

  function CountAll(cfg: Config, s: Windows, ds: seq<Identity>, now: int): Windows {
    if ds == [] then s
    else
      var before := CountAll(cfg, s, ds[..|ds| - 1], now);
      var x := ds[|ds| - 1];
      before[x := Counted(cfg, before, x, now)]
  }

  function Checked(cfg: Config, s: Windows, r: Request): Windows {
    var ds := Dimensions(cfg, r);
    if ds == [] then s else CountAll(cfg, Reap(cfg, s, r.now), ds, r.now)
  }

  /** Allowed when every counted identity is still within its limit. */
  predicate Allowed(cfg: Config, s: Windows, r: Request) {
    forall x :: x in Dimensions(cfg, r) && x in Checked(cfg, s, r) ==>
      Checked(cfg, s, r)[x].count <= cfg.Limit(r.class_, x)
  }

  lemma {:induction false} CountAllAt(cfg: Config, s: Windows, ds: seq<Identity>, now: int, x: Identity)
    requires |ds| <= 2 && (|ds| == 2 ==> ds[0] != ds[1])
    ensures x in ds ==> x in CountAll(cfg, s, ds, now) && CountAll(cfg, s, ds, now)[x] == Counted(cfg, s, x, now)
    ensures x !in ds ==>
      (x in CountAll(cfg, s, ds, now) <==> x in s) && (x in s ==> CountAll(cfg, s, ds, now)[x] == s[x])
  {
    hide Counted;
    if ds != [] {
      var n := |ds| - 1;
      CountAllAt(cfg, s, ds[..n], now, x);
      CountAllAt(cfg, s, ds[..n], now, ds[n]);
      assert ds == ds[..n] + [ds[n]];
      assert ds[n] !in ds[..n];
      SameCount(cfg, s, CountAll(cfg, s, ds[..n], now), ds[n], now);
    }
  }

  lemma {:induction false} SameCount(cfg: Config, s: Windows, t: Windows, x: Identity, now: int)
    requires (x in t <==> x in s) && (x in s ==> t[x] == s[x])
    ensures Counted(cfg, t, x, now) == Counted(cfg, s, x, now)
  {
  }

  /** A check touches exactly its identities: each is counted, in its live window or in a new
      one; other windows stay if they are live and, when anything is counted, go if not. */
  lemma {:induction false} CheckAt(cfg: Config, s: Windows, r: Request, x: Identity)
    requires cfg.window > 0
    ensures var t := Checked(cfg, s, r);
      if x in Dimensions(cfg, r) then x in t && t[x] == Counted(cfg, s, x, r.now)
      else if Dimensions(cfg, r) == [] then (x in t <==> x in s) && (x in s ==> t[x] == s[x])
      else (x in t <==> x in s && Live(cfg, s[x], r.now)) && (x in t ==> t[x] == s[x])
  {
    hide CountAll, Dimensions;
    var ds := Dimensions(cfg, r);
    if ds != [] {
      CountAllAt(cfg, Reap(cfg, s, r.now), ds, r.now, x);
    }
  }

  /** After a check that counted anything, only live windows are held. */
  lemma {:induction false} OnlyLiveHeld(cfg: Config, s: Windows, r: Request, x: Identity)
    requires cfg.window > 0 && Dimensions(cfg, r) != [] && x in Checked(cfg, s, r)
    ensures Live(cfg, Checked(cfg, s, r)[x], r.now)
  {
    hide Checked, Dimensions;
    CheckAt(cfg, s, r, x);
  }

  predicate AllLive(cfg: Config, s: Windows, now: int) {
    forall x :: x in s ==> Live(cfg, s[x], now)
  }

  /** Only live windows are held after a check if and only if the check counted anything or
      they were all live before it: without an active dimension nothing is reaped. */
  lemma {:induction false} ReapedUnlessUncounted(cfg: Config, s: Windows, r: Request)
    requires cfg.window > 0
    ensures AllLive(cfg, Checked(cfg, s, r), r.now) <==> Dimensions(cfg, r) != [] || AllLive(cfg, s, r.now)
  {
    hide Checked, Dimensions, Live;
    if Dimensions(cfg, r) != [] {
      forall x | x in Checked(cfg, s, r) ensures Live(cfg, Checked(cfg, s, r)[x], r.now) {
        OnlyLiveHeld(cfg, s, r, x);
      }
    } else {
      forall x ensures (x in Checked(cfg, s, r) <==> x in s) && (x in s ==> Checked(cfg, s, r)[x] == s[x]) {
        CheckAt(cfg, s, r, x);
      }
    }
  }

  /** The identity's live window has room for one more request; the 64-bit counter never
      exceeds the largest limit. */
  predicate Room(cfg: Config, s: Windows, x: Identity, limit: nat, now: int) {
    x in s && now - s[x].started < cfg.window ==> s[x].count < limit || limit >= U64_MAX
  }

  /** A search is judged by the search limits and a write by the write limits, token and
      address separately, and a limit of zero is no limit: a request is allowed exactly when
      neither its token nor its address has used up its live window. */
  lemma {:induction false} AllowedExactly(cfg: Config, s: Windows, r: Request)
    requires cfg.window > 0
    ensures var perToken := if r.class_.Search? then cfg.searchToken else cfg.writeToken;
      var perIp := if r.class_.Search? then cfg.searchIp else cfg.writeIp;
      Allowed(cfg, s, r) <==>
        && (r.token.Some? && perToken > 0 ==> Room(cfg, s, Token(r.token.value), perToken, r.now))
        && (r.ip.Some? && perIp > 0 ==> Room(cfg, s, Address(r.ip.value), perIp, r.now))
  {
    hide Checked;
    forall x | x in Dimensions(cfg, r)
      ensures x in Checked(cfg, s, r)
      ensures Checked(cfg, s, r)[x].count <= cfg.Limit(r.class_, x) <==> Room(cfg, s, x, cfg.Limit(r.class_, x), r.now)
    {
      CheckAt(cfg, s, r, x);
    }
  }

  // ---- runs ----------------------------------------------------------------------

  function Run(cfg: Config, trace: seq<Request>): Windows {
    if trace == [] then map[] else Checked(cfg, Run(cfg, trace[..|trace| - 1]), trace[|trace| - 1])
  }

  ghost predicate Monotone(trace: seq<Request>) {
    forall i, j :: 0 <= i < j < |trace| ==> trace[i].now <= trace[j].now
  }

  /** The last request of the trace is of the class, carries the identity and was allowed. */
  predicate LastAllowed(cfg: Config, trace: seq<Request>, c: Class, x: Identity)
    requires trace != []
  {
    var n := |trace| - 1;
    trace[n].class_ == c && trace[n].Carries(x) && Allowed(cfg, Run(cfg, trace[..n]), trace[n])
  }

  /** Allowed requests of a class and identity with a time in `[a, b)`. */
  function AllowedIn(cfg: Config, trace: seq<Request>, c: Class, x: Identity, a: int, b: int): nat {
    if trace == [] then 0
    else
      var n := |trace| - 1;
      AllowedIn(cfg, trace[..n], c, x, a, b)
      + (if a <= trace[n].now < b && LastAllowed(cfg, trace, c, x) then 1 else 0)
  }

  /** The most recent window the identity ever had. */
  function LastWindow(cfg: Config, trace: seq<Request>, x: Identity): Option<Window> {
    if trace == [] then None
    else
      var n := |trace| - 1;
      var now := Run(cfg, trace);
      if x in Dimensions(cfg, trace[n]) && x in now then Some(now[x]) else LastWindow(cfg, trace[..n], x)
  }

  /** Allowed requests of a class and identity since its most recent window began. */
  function AllowedSinceStart(cfg: Config, trace: seq<Request>, c: Class, x: Identity): nat {
    if trace == [] then 0
    else
      var n := |trace| - 1;
      var before := Run(cfg, trace[..n]);
      var begins := x in Dimensions(cfg, trace[n]) && !(x in before && Live(cfg, before[x], trace[n].now));
      (if begins then 0 else AllowedSinceStart(cfg, trace[..n], c, x))
      + (if LastAllowed(cfg, trace, c, x) then 1 else 0)
  }

  /** A held window is the identity's most recent one; an identity without one has had its
      most recent window expire. */
  ghost predicate Tracks(cfg: Config, trace: seq<Request>, x: Identity) {
    var s, w := Run(cfg, trace), LastWindow(cfg, trace, x);
    && (x in s ==> w == Some(s[x]))
    && (w.Some? ==> trace != [] && w.value.started <= trace[|trace| - 1].now)
    && (w.Some? && x !in s ==> !Live(cfg, w.value, trace[|trace| - 1].now))
  }

  lemma {:induction false} RunTracks(cfg: Config, trace: seq<Request>, x: Identity)
    requires cfg.window > 0 && Monotone(trace)
    ensures Tracks(cfg, trace, x)
    decreases |trace|
  {
    hide Checked, Dimensions;
    if trace != [] {
      var n := |trace| - 1;
      RunTracks(cfg, trace[..n], x);
      CheckAt(cfg, Run(cfg, trace[..n]), trace[n], x);
      if n > 0 {
        assert trace[n - 1].now <= trace[n].now;
        assert trace[..n][n - 1] == trace[n - 1];
      }
    }
  }

  function Lesser(a: nat, b: nat): nat {
    if a < b then a else b
  }

  /** Allowed requests are counted requests, and their count was within the limit. */
  lemma {:induction false} AllowedWasCounted(cfg: Config, trace: seq<Request>, c: Class, x: Identity)
    requires cfg.window > 0 && trace != [] && cfg.Limit(c, x) > 0 && LastAllowed(cfg, trace, c, x)
    ensures x in Dimensions(cfg, trace[|trace| - 1])
    ensures x in Run(cfg, trace) && Run(cfg, trace)[x].count <= cfg.Limit(c, x)
  {
    hide Checked, Dimensions;
    var n := |trace| - 1;
    CheckAt(cfg, Run(cfg, trace[..n]), trace[n], x);
  }

  /** In one window at most the limit is allowed, whatever the other class consumed. */
  lemma {:induction false} PerWindow(cfg: Config, trace: seq<Request>, c: Class, x: Identity)
    requires cfg.window > 0 && Monotone(trace) && 0 < cfg.Limit(c, x) < U64_MAX
    ensures var w := LastWindow(cfg, trace, x);
      && (w.None? ==> AllowedSinceStart(cfg, trace, c, x) == 0)
      && (w.Some? ==> AllowedSinceStart(cfg, trace, c, x) <= Lesser(w.value.count, cfg.Limit(c, x)))
    decreases |trace|
  {
    hide Checked, Dimensions, LastAllowed;
    if trace != [] {
      var n := |trace| - 1;
      PerWindow(cfg, trace[..n], c, x);
      RunTracks(cfg, trace[..n], x);
      CheckAt(cfg, Run(cfg, trace[..n]), trace[n], x);
      if LastAllowed(cfg, trace, c, x) {
        AllowedWasCounted(cfg, trace, c, x);
      }
    }
  }

  /** How many requests of `[a, a + window)` can have been allowed, by where the identity's
      most recent window started. The request that starts a window before `a` uses one unit of
      its limit outside the interval. */
  function Bound(cfg: Config, w: Option<Window>, limit: nat, a: int): int {
    if w.None? then 0
    else if w.value.started < a then Lesser(w.value.count, limit) - 1
    else if w.value.started < a + cfg.window then limit - 1 + Lesser(w.value.count, limit)
    else 2 * limit - 1
  }

  lemma {:induction false} NoneBefore(cfg: Config, trace: seq<Request>, c: Class, x: Identity, a: int, b: int)
    requires Monotone(trace) && (trace != [] ==> trace[|trace| - 1].now < a)
    ensures AllowedIn(cfg, trace, c, x, a, b) == 0
    decreases |trace|
  {
    hide LastAllowed;
    if trace != [] {
      var n := |trace| - 1;
      if n > 0 {
        assert trace[..n][n - 1].now <= trace[n].now;
      }
      NoneBefore(cfg, trace[..n], c, x, a, b);
    }
  }

  lemma {:induction false} WindowCounts(cfg: Config, trace: seq<Request>, x: Identity)
    requires cfg.window > 0
    ensures LastWindow(cfg, trace, x).Some? ==> LastWindow(cfg, trace, x).value.count >= 1
    decreases |trace|
  {
    hide Checked, Dimensions;
    if trace != [] {
      var n := |trace| - 1;
      WindowCounts(cfg, trace[..n], x);
      CheckAt(cfg, Run(cfg, trace[..n]), trace[n], x);
    }
  }

  lemma {:induction false} WithinBound(cfg: Config, trace: seq<Request>, c: Class, x: Identity, a: int)
    requires cfg.window > 0 && Monotone(trace) && 0 < cfg.Limit(c, x) < U64_MAX
    ensures AllowedIn(cfg, trace, c, x, a, a + cfg.window) <= Bound(cfg, LastWindow(cfg, trace, x), cfg.Limit(c, x), a)
    decreases |trace|
  {
    hide Checked, Dimensions, LastAllowed;
    if trace != [] {
      var n := |trace| - 1;
      WithinBound(cfg, trace[..n], c, x, a);
      RunTracks(cfg, trace[..n], x);
      WindowCounts(cfg, trace[..n], x);
      CheckAt(cfg, Run(cfg, trace[..n]), trace[n], x);
      if n > 0 {
        assert trace[..n][n - 1].now <= trace[n].now;
      }
      if LastAllowed(cfg, trace, c, x) {
        AllowedWasCounted(cfg, trace, c, x);
      }
      if trace[n].now < a {
        NoneBefore(cfg, trace, c, x, a, a + cfg.window);
      }
    }
  }

  /** Over any request sequence with a monotone clock, any half-open interval of one window
      length sees fewer than twice the limit of allowed requests per class and identity. */
  lemma {:induction false} PerInterval(cfg: Config, trace: seq<Request>, c: Class, x: Identity, a: int)
    requires cfg.window > 0 && Monotone(trace) && 0 < cfg.Limit(c, x) < U64_MAX
    ensures AllowedIn(cfg, trace, c, x, a, a + cfg.window) <= 2 * cfg.Limit(c, x) - 1
  {
    hide AllowedIn, LastWindow;
    WithinBound(cfg, trace, c, x, a);
  }

  lemma {:induction false} UnlessOff(cfg: Config, trace: seq<Request>, c: Class, x: Identity, a: int)
    requires cfg.window > 0 && Monotone(trace)
    ensures 0 < cfg.Limit(c, x) < U64_MAX ==> AllowedIn(cfg, trace, c, x, a, a + cfg.window) < 2 * cfg.Limit(c, x)
  {
    hide AllowedIn;
    if 0 < cfg.Limit(c, x) < U64_MAX {
      PerInterval(cfg, trace, c, x, a);
    }
  }

  /** Which configured number bounds what: searches and writes, by token and by address. */
  lemma {:induction false} ConfiguredLimits(cfg: Config, trace: seq<Request>, token: string, ip: string, a: int)
    requires cfg.window > 0 && Monotone(trace)
    ensures 0 < cfg.searchToken < U64_MAX ==>
      AllowedIn(cfg, trace, Search, Token(token), a, a + cfg.window) < 2 * cfg.searchToken
    ensures 0 < cfg.writeToken < U64_MAX ==>
      AllowedIn(cfg, trace, Write, Token(token), a, a + cfg.window) < 2 * cfg.writeToken
    ensures 0 < cfg.searchIp < U64_MAX ==>
      AllowedIn(cfg, trace, Search, Address(ip), a, a + cfg.window) < 2 * cfg.searchIp
    ensures 0 < cfg.writeIp < U64_MAX ==>
      AllowedIn(cfg, trace, Write, Address(ip), a, a + cfg.window) < 2 * cfg.writeIp
  {
    hide AllowedIn, Monotone;
    UnlessOff(cfg, trace, Search, Token(token), a);
    UnlessOff(cfg, trace, Write, Token(token), a);
    UnlessOff(cfg, trace, Search, Address(ip), a);
    UnlessOff(cfg, trace, Write, Address(ip), a);
  }

  // ---- the bounds are sharp ------------------------------------------------------

  /** A request that carries one identity and nothing else. */
  function Only(c: Class, x: Identity, now: int): Request {
    match x
    case Token(t) => Request(c, Some(t), None, now)
    case Address(ip) => Request(c, None, Some(ip), now)
  }

  function Repeat(r: Request, n: nat): (rs: seq<Request>)
    ensures |rs| == n && forall i :: 0 <= i < n ==> rs[i] == r
  {
    seq(n, _ => r)
  }

  lemma {:induction false} OnlyDimension(cfg: Config, c: Class, x: Identity, now: int)
    requires cfg.Limit(c, x) > 0
    ensures Dimensions(cfg, Only(c, x, now)) == [x]
  {
  }

  lemma {:induction false} OneIdentity(cfg: Config, s: Windows, c: Class, x: Identity, now: int)
    requires cfg.window > 0 && cfg.Limit(c, x) > 0 && forall y :: y in s ==> y == x
    ensures Dimensions(cfg, Only(c, x, now)) == [x]
    ensures Checked(cfg, s, Only(c, x, now)) == map[x := Counted(cfg, s, x, now)]
    ensures Allowed(cfg, s, Only(c, x, now)) <==> Counted(cfg, s, x, now).count <= cfg.Limit(c, x)
  {
    hide Checked, Dimensions, Counted, Config.Limit, Live;
    var r := Only(c, x, now);
    OnlyDimension(cfg, c, x, now);
    assert r.class_ == c;
    forall y ensures y in Checked(cfg, s, r) <==> y == x {
      CheckAt(cfg, s, r, y);
    }
    CheckAt(cfg, s, r, x);
  }

  /** One more request by the only identity there is. */
  lemma {:induction false} Next(cfg: Config, trace: seq<Request>, c: Class, x: Identity, now: int, a: int, b: int)
    requires cfg.window > 0 && cfg.Limit(c, x) > 0 && forall y :: y in Run(cfg, trace) ==> y == x
    ensures var w := Counted(cfg, Run(cfg, trace), x, now);
      && Run(cfg, trace + [Only(c, x, now)]) == map[x := w]
      && AllowedIn(cfg, trace + [Only(c, x, now)], c, x, a, b)
         == AllowedIn(cfg, trace, c, x, a, b) + (if a <= now < b && w.count <= cfg.Limit(c, x) then 1 else 0)
  {
    hide Checked, Allowed, Dimensions, Counted;
    var r := Only(c, x, now);
    assert (trace + [r])[..|trace|] == trace && r.Carries(x);
    OneIdentity(cfg, Run(cfg, trace), c, x, now);
  }

  /** `n` more requests in a live window with room for them are all allowed. */
  lemma {:induction false} Burst(cfg: Config, trace: seq<Request>, c: Class, x: Identity, w: Window, now: int, n: nat, a: int, b: int)
    requires cfg.window > 0 && 0 < cfg.Limit(c, x) <= U64_MAX
    requires Run(cfg, trace) == map[x := w] && Live(cfg, w, now) && w.count + n <= cfg.Limit(c, x)
    ensures var more := trace + Repeat(Only(c, x, now), n);
      && Run(cfg, more) == map[x := w.(count := w.count + n)]
      && AllowedIn(cfg, more, c, x, a, b) == AllowedIn(cfg, trace, c, x, a, b) + (if a <= now < b then n else 0)
    decreases n
  {
    hide Run, AllowedIn, Config.Limit;
    var r := Only(c, x, now);
    if n == 0 {
      assert trace + Repeat(r, 0) == trace;
    } else {
      Burst(cfg, trace, c, x, w, now, n - 1, a, b);
      var before := trace + Repeat(r, n - 1);
      Next(cfg, before, c, x, now, a, b);
      assert before + [r] == trace + Repeat(r, n);
    }
  }

  /** One request at time 0, the rest of the limit just before the window ends, and a full
      limit as soon as the next one begins. */
  function Straddle(cfg: Config, c: Class, x: Identity): seq<Request> {
    var l := cfg.Limit(c, x);
    if l == 0 then []
    else [Only(c, x, 0)] + Repeat(Only(c, x, cfg.window - 1), l - 1) + [Only(c, x, cfg.window)] + Repeat(Only(c, x, cfg.window), l - 1)
  }

  /** The bound of twice the limit minus one is reached, for every class, identity and limit. */
  lemma {:induction false} BoundIsReached(cfg: Config, c: Class, x: Identity)
    requires cfg.window >= 2 && 0 < cfg.Limit(c, x) <= U64_MAX
    ensures Monotone(Straddle(cfg, c, x))
    ensures AllowedIn(cfg, Straddle(cfg, c, x), c, x, cfg.window - 1, cfg.window - 1 + cfg.window) == 2 * cfg.Limit(c, x) - 1
  {
    hide Run, AllowedIn, Config.Limit, Monotone, Only;
    StraddleMonotone(cfg, c, x);
    var w, l := cfg.window, cfg.Limit(c, x);
    var a, b := w - 1, w - 1 + w;
    Nothing(cfg, c, x, a, b);
    Next(cfg, [], c, x, 0, a, b);
    var first := [Only(c, x, 0)];
    assert [] + first == first;
    assert Run(cfg, first) == map[x := Window(0, 1)];
    Burst(cfg, first, c, x, Window(0, 1), w - 1, l - 1, a, b);
    var full := first + Repeat(Only(c, x, w - 1), l - 1);
    Next(cfg, full, c, x, w, a, b);
    var again := full + [Only(c, x, w)];
    assert Run(cfg, again) == map[x := Window(w, 1)];
    Burst(cfg, again, c, x, Window(w, 1), w, l - 1, a, b);
  }

  lemma {:induction false} StraddleMonotone(cfg: Config, c: Class, x: Identity)
    requires cfg.window >= 2
    ensures Monotone(Straddle(cfg, c, x))
  {
    hide Config.Limit;
  }

  lemma {:induction false} Nothing(cfg: Config, c: Class, x: Identity, a: int, b: int)
    ensures Run(cfg, []) == map[] && AllowedIn(cfg, [], c, x, a, b) == 0
  {
  }

  /** An expired window that is still held: a search by token, then one window later a search
      that carries no identity. */
  lemma {:induction false} ExpiredHeldWitness(cfg: Config, t: string)
    requires cfg.window > 0 && cfg.searchToken > 0
    ensures var s := Run(cfg, [Only(Search, Token(t), 0), Request(Search, None, None, cfg.window)]);
      Token(t) in s && !Live(cfg, s[Token(t)], cfg.window)
  {
    hide Run, Dimensions, Checked;
    var x, r := Token(t), Request(Search, None, None, cfg.window);
    var first := [Only(Search, x, 0)];
    Nothing(cfg, Search, x, 0, 0);
    Next(cfg, [], Search, x, 0, 0, 0);
    assert [] + first == first && first + [r] == [Only(Search, x, 0), r];
    RunStep(cfg, first, r);
    CheckAt(cfg, Run(cfg, first), r, x);
    assert !r.Carries(x);
    assert Dimensions(cfg, r) == [] by { NoIdentity(cfg, r); }
  }

  lemma {:induction false} NoIdentity(cfg: Config, r: Request)
    requires r.token.None? && r.ip.None?
    ensures Dimensions(cfg, r) == []
  {
  }

  lemma {:induction false} RunStep(cfg: Config, trace: seq<Request>, r: Request)
    ensures Run(cfg, trace + [r]) == Checked(cfg, Run(cfg, trace), r)
  {
    hide Checked;
    assert (trace + [r])[..|trace|] == trace;
  }

  // ---- the limiter ---------------------------------------------------------------

  class Limiter {
    const cfg: Config
    var local: Windows

    constructor (cfg: Config)
      requires cfg.window > 0
      ensures this.cfg == cfg && local == map[]
    {
      this.cfg := cfg;
      local := map[];
    }

    /** Counts the request against one identity; reports whether that is over its limit. */
    method CountOne(x: Identity, r: Request) returns (over: bool)
      modifies this
      ensures local == old(local)[x := Counted(cfg, old(local), x, r.now)]
      ensures over == (local[x].count > cfg.Limit(r.class_, x))
    {
      var w := if x in local && Live(cfg, local[x], r.now) then local[x] else Window(r.now, 0);
      w := w.(count := if w.count < U64_MAX then w.count + 1 else U64_MAX);
      local := local[x := w];
      over := w.count > cfg.Limit(r.class_, x);
    }

    /** Reaps expired identities, counts the request against each of its identities and
        denies it when one is over its limit; a denied request is still counted. */
    method Check(r: Request) returns (d: Decision)
      requires cfg.window > 0
      modifies this
      ensures local == Checked(cfg, old(local), r)
      ensures d.allowed == Allowed(cfg, old(local), r)
      ensures !d.allowed ==> d.dimension.Some? && OverLimit(cfg, local, r, d.dimension.value)
      ensures Dimensions(cfg, r) != [] ==> forall x :: x in local ==> Live(cfg, local[x], r.now)
    {
      hide Dimensions, CountAll, Counted, Allowed, Live, Config.Limit;
      var ds := Dimensions(cfg, r);
      if ds == [] {
        NothingCounted(cfg, local, r);
        return Decision(true, None);
      }
      ghost var was := local;
      local := Reap(cfg, local, r.now);
      ghost var reaped := local;
      var denied: Option<Identity> := None;
      assert CountAll(cfg, reaped, ds[..0], r.now) == reaped by { NoneCounted(cfg, reaped, ds, r.now); }
      for i := 0 to |ds|
        invariant local == CountAll(cfg, reaped, ds[..i], r.now)
        invariant denied.None? ==> forall j :: 0 <= j < i ==> ds[j] in local && local[ds[j]].count <= cfg.Limit(r.class_, ds[j])
        invariant denied.Some? ==> denied.value in ds[..i] && OverLimit(cfg, local, r, denied.value)
      {
        var x := ds[i];
        CountNext(cfg, reaped, ds, i, r.now);
        Apart(cfg, r, ds, i);
        var over := CountOne(x, r);
        if over {
          denied := Some(x);
        }
      }
      assert ds[..|ds|] == ds;
      forall x | x in local ensures Live(cfg, local[x], r.now) {
        OnlyLiveHeld(cfg, was, r, x);
      }
      Verdict(cfg, was, r, denied);
      d := Decision(denied.None?, denied);
    }
  }

  ghost predicate OverLimit(cfg: Config, s: Windows, r: Request, x: Identity) {
    x in Dimensions(cfg, r) && x in s && s[x].count > cfg.Limit(r.class_, x)
  }

  lemma {:induction false} NothingCounted(cfg: Config, s: Windows, r: Request)
    requires Dimensions(cfg, r) == []
    ensures Allowed(cfg, s, r)
  {
  }

  lemma {:induction false} NoneCounted(cfg: Config, s: Windows, ds: seq<Identity>, now: int)
    ensures CountAll(cfg, s, ds[..0], now) == s
  {
  }

  lemma {:induction false} CountNext(cfg: Config, s: Windows, ds: seq<Identity>, i: nat, now: int)
    requires i < |ds|
    ensures var before := CountAll(cfg, s, ds[..i], now);
      CountAll(cfg, s, ds[..i + 1], now) == before[ds[i] := Counted(cfg, before, ds[i], now)]
  {
    assert ds[..i + 1][..i] == ds[..i];
  }

  /** A later identity differs from the earlier ones. */
  lemma {:induction false} Apart(cfg: Config, r: Request, ds: seq<Identity>, i: nat)
    requires ds == Dimensions(cfg, r) && i < |ds|
    ensures forall j :: 0 <= j < i ==> ds[j] != ds[i]
  {
    hide Dimensions;
  }

  lemma {:induction false} Verdict(cfg: Config, s: Windows, r: Request, denied: Option<Identity>)
    requires var t, ds := Checked(cfg, s, r), Dimensions(cfg, r);
      if denied.None? then forall j :: 0 <= j < |ds| ==> ds[j] in t && t[ds[j]].count <= cfg.Limit(r.class_, ds[j])
      else OverLimit(cfg, t, r, denied.value)
    ensures Allowed(cfg, s, r) <==> denied.None?
  {
    hide Checked, Dimensions;
  }
}
