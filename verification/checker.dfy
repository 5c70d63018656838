/**
 * The benchmark's HTTP checker (bench/src/bench/checker.go): the per-host
 * request counts that spread requests over the target hosts, the global
 * error log with its guard, the wrapping of errors into checker errors, and
 * the status and Location checks every request goes through.
 */
module Checker {
  import opened Base
  import opened Text

  // ---------------------------------------------------------------------------
  // Host selection
  // ---------------------------------------------------------------------------

  function Sum(s: seq<int>): int {
    if s == [] then 0 else Sum(s[..|s| - 1]) + s[|s| - 1]
  }

  /** Changing one count changes the total by the difference. */
  lemma {:induction false} SumUpdate(s: seq<int>, i: nat, v: int)
    requires i < |s|
    ensures Sum(s[i := v]) == Sum(s) - s[i] + v
    decreases |s|
  {
    var n := |s| - 1;
    var t := s[i := v];
    assert t[..n] == if i < n then s[..n][i := v] else s[..n];
    if i < n {
      SumUpdate(s[..n], i, v);
    }
  }

  /** The target hosts and the number of requests in flight to each. */
  class Balancer {
    var targetHosts: seq<string>
    var requestCount: array<int>

    /** SetTargetHosts: a count of 0 for each host. */
    constructor (target: seq<string>)
      ensures targetHosts == target
      ensures requestCount.Length == |target| && forall i :: 0 <= i < |target| ==> requestCount[i] == 0
    {
      targetHosts := target;
      requestCount := new int[|target|](_ => 0);
    }

    /**
     * getFreeHostId: starting from the drawn host r, the first host with the
     * fewest requests in flight (r itself when it has the fewest); its count
     * goes up by one and no other changes.
     */
    method GetFreeHostId(r: nat) returns (i: nat)
      requires r < requestCount.Length
      modifies requestCount
      ensures i < requestCount.Length
      ensures forall j :: 0 <= j < requestCount.Length ==> old(requestCount[i]) <= old(requestCount[j])
      ensures old(requestCount[r]) == old(requestCount[i]) ==> i == r
      ensures i != r ==> forall j :: 0 <= j < i ==> old(requestCount[j]) > old(requestCount[i])
      ensures requestCount[..] == old(requestCount[..])[i := old(requestCount[i]) + 1]
      ensures Sum(requestCount[..]) == Sum(old(requestCount[..])) + 1
    {
      i := r;
      for j := 0 to requestCount.Length
        invariant i < requestCount.Length
        invariant forall k :: 0 <= k < j ==> requestCount[i] <= requestCount[k]
        invariant requestCount[i] <= requestCount[r]
        invariant i == r || (requestCount[i] < requestCount[r] && forall k :: 0 <= k < i ==> requestCount[k] > requestCount[i])
      {
        if requestCount[i] > requestCount[j] {
          i := j;
        }
      }
      SumUpdate(requestCount[..], i, requestCount[i] + 1);
      requestCount[i] := requestCount[i] + 1;
    }

    /** decRequestCount: host i has one request fewer in flight, and no other changes. */
    method DecRequestCount(i: nat)
      requires i < requestCount.Length
      modifies requestCount
      ensures requestCount[..] == old(requestCount[..])[i := old(requestCount[i]) - 1]
      ensures Sum(requestCount[..]) == Sum(old(requestCount[..])) - 1
    {
      SumUpdate(requestCount[..], i, requestCount[i] - 1);
      requestCount[i] := requestCount[i] - 1;
    }
  }

  // ---------------------------------------------------------------------------
  // Errors
  // ---------------------------------------------------------------------------

  /**
   * The errors a check can end in: a fatal error, the request timeout, any
   * other failure, or one of those wrapped with the time and the request.
   */
  datatype Err =
    | FatalError(msg: string)
    | RequestTimeout
    | Failure(msg: string)
    | CheckerError(t: int, err: Err, verb: string, path: string, query: string)

  /** CheckerError.IsFatal: the wrapped error is a fatal one. */
  predicate IsFatal(e: Err)
    requires e.CheckerError?
    ensures IsFatal(e) ==> !IsTimeout(e) && !e.err.Failure?
  {
    e.err.FatalError?
  }

  /** CheckerError.IsTimeout: the wrapped error is the request timeout. */
  predicate IsTimeout(e: Err)
    requires e.CheckerError?
    ensures IsTimeout(e) ==> !e.err.FatalError? && !e.err.CheckerError?
  {
    e.err.RequestTimeout?
  }

  /** The request a check was about to send, or sent. */
  datatype Action = Action(verb: string, path: string)
  datatype Request = Request(verb: string, path: string, query: string)

  /** The global error log and the last slow path. */
  class ErrorLog {
    var guard: bool
    var errors: seq<Err>
    var lastSlowPath: string
    var lastSlowTime: int

    /** Only checker errors are logged. */
    predicate Valid()
      reads this
    {
      forall e :: e in errors ==> e.CheckerError?
    }

    constructor ()
      ensures Valid() && !guard && errors == [] && lastSlowPath == ""
    {
      guard := false;
      errors := [];
      lastSlowPath := "";
      lastSlowTime := 0;
    }

    /** appendError: logged unless the guard is up. */
    method AppendError(e: Err)
      requires Valid() && e.CheckerError?
      modifies this
      ensures Valid()
      ensures errors == if old(guard) then old(errors) else old(errors) + [e]
      ensures guard == old(guard) && lastSlowPath == old(lastSlowPath) && lastSlowTime == old(lastSlowTime)
    {
      if !guard {
        errors := errors + [e];
      }
    }

    /** GuardCheckerError: from now on errors are (or are no longer) dropped. */
    method GuardCheckerError(g: bool)
      modifies this
      ensures guard == g
      ensures errors == old(errors) && lastSlowPath == old(lastSlowPath) && lastSlowTime == old(lastSlowTime)
    {
      guard := g;
    }

    /** updateLastSlowPath. */
    method UpdateLastSlowPath(path: string, now: int)
      modifies this
      ensures lastSlowPath == path && lastSlowTime == now
      ensures errors == old(errors) && guard == old(guard)
    {
      lastSlowPath := path;
      lastSlowTime := now;
    }

    /** GetLastCheckerError: the newest logged error and its time, or nothing. */
    function GetLastCheckerError(): (r: Option<(Err, int)>)
      reads this
      requires Valid()
      ensures r.None? <==> errors == []
      ensures r.Some? ==> r.value.0 == errors[|errors| - 1] && r.value.1 == r.value.0.t
    {
      if |errors| != 0 then
        var e := errors[|errors| - 1];
        assert e in errors;
        Some((e, e.t))
      else None
    }

    /** GetCheckerErrors: a copy of the log, in the order the errors were appended. */
    method GetCheckerErrors() returns (errs: seq<Err>)
      ensures errs == errors
    {
      errs := [];
      for i := 0 to |errors|
        invariant errs == errors[..i]
      {
        errs := errs + [errors[i]];
      }
    }

    /**
     * OnError: a checker error is handed back as it is and not logged again;
     * anything else is wrapped with the time and the request (the action's
     * method and path when no request was built) and logged.
     */
    method OnError(a: Action, req: Option<Request>, err: Err, now: int) returns (r: Err)
      requires Valid()
      modifies this
      ensures Valid()
      ensures r.CheckerError?
      ensures IsFatal(r) <==> err.FatalError? || (err.CheckerError? && IsFatal(err))
      ensures err.CheckerError? ==> r == err && errors == old(errors)
      ensures !err.CheckerError? ==> r.err == err && r.t == now
      ensures !err.CheckerError? && req.None? ==> r.verb == a.verb && r.path == a.path && r.query == ""
      ensures !err.CheckerError? && req.Some? ==> r.verb == req.value.verb && r.path == req.value.path && r.query == req.value.query
      ensures !err.CheckerError? ==> errors == if old(guard) then old(errors) else old(errors) + [r]
      ensures guard == old(guard) && lastSlowPath == old(lastSlowPath) && lastSlowTime == old(lastSlowTime)
    {
      if err.CheckerError? {
        return err;
      }
      if req.None? {
        r := CheckerError(now, err, a.verb, a.path, "");
      } else {
        r := CheckerError(now, err, req.value.verb, req.value.path, req.value.query);
      }
      AppendError(r);
    }
  }

  // ---------------------------------------------------------------------------
  // The checks of Play on every response
  // ---------------------------------------------------------------------------

  /** The part of s before the first c, or all of s when c does not occur. */
  function CutAt(s: string, c: char): (r: string)
    ensures c !in r && r <= s
    ensures c !in s ==> r == s
  {
    match IndexOf(s, c)
    case None => s
    case Some(k) => s[..k]
  }

  /** The part of s from its first '/' on, or nothing when s has no '/'. */
  function FromFirstSlash(s: string): string
  {
    match IndexOf(s, '/')
    case None => ""
    case Some(k) => s[k..]
  }

  /** What follows the scheme and host of an absolute URL, from the first '/' on; a relative reference as it is. */
  function AfterOrigin(loc: string): string
  {
    if HasPrefix(loc, "http://") then FromFirstSlash(loc[7..])
    else if HasPrefix(loc, "https://") then FromFirstSlash(loc[8..])
    else loc
  }

  /** The path of a Location value: the host part of an absolute URL and the query or fragment dropped. */
  function UrlPath(loc: string): (p: string)
    ensures '?' !in p && '#' !in p
  {
    CutAt(CutAt(AfterOrigin(loc), '?'), '#')
  }

  /**
   * The status and Location checks of Play, in order: a server error, an
   * unexpected status (when one is expected), then a Location that is not a
   * single header matching the expected path.
   */
  function ResponseError(status: int, expectedStatus: int, expectedLocation: Option<string -> bool>, locations: seq<string>): (r: Option<string>)
    ensures 500 <= status ==> r == Some("server error")
    ensures r.None? ==> status < 500 && (expectedStatus == 0 || status == expectedStatus)
    ensures r.None? && expectedLocation.Some? ==> |locations| == 1
    ensures expectedLocation.None? && status < 500 && (expectedStatus == 0 || status == expectedStatus) ==> r.None?
  {
    if 500 <= status then Some("server error")
    else if expectedStatus != 0 && status != expectedStatus then Some("unexpected status")
    else if expectedLocation.Some? && |locations| != 1 then Some("no single Location")
    else if expectedLocation.Some? && !expectedLocation.value(UrlPath(locations[0])) then Some("wrong Location")
    else None
  }

  /** A response passes exactly when it is no server error, has the expected status and the expected single Location. */
  lemma ResponseErrorExactly(status: int, expectedStatus: int, expectedLocation: Option<string -> bool>, locations: seq<string>)
    ensures ResponseError(status, expectedStatus, expectedLocation, locations).None? <==>
      && status < 500
      && (expectedStatus == 0 || status == expectedStatus)
      && (expectedLocation.Some? ==> |locations| == 1 && expectedLocation.value(UrlPath(locations[0])))
  {
  }

  /** No expected status lets a server error through, not even an expected 500. */
  lemma ServerErrorsAlwaysFail(status: int, expectedLocation: Option<string -> bool>, locations: seq<string>)
    requires status >= 500
    ensures ResponseError(status, status, expectedLocation, locations) == Some("server error")
  {
  }

  /** A string starting with '/' is no absolute URL. */
  lemma SlashIsRelative(loc: string)
    requires loc != [] && loc[0] == '/'
    ensures AfterOrigin(loc) == loc
  {
    assert !HasPrefix(loc, "http://") by { if |loc| >= 7 { assert loc[..7][0] == '/'; } }
    assert !HasPrefix(loc, "https://") by { if |loc| >= 8 { assert loc[..8][0] == '/'; } }
  }

  /** The first c in s is at k when s[k] is c and no c comes before it. */
  lemma FirstIndex(s: string, c: char, k: nat)
    requires k < |s| && s[k] == c && c !in s[..k]
    ensures IndexOf(s, c) == Some(k)
  {
  }

  /** Cutting at c passes over a prefix that holds no c. */
  lemma CutAtAppend(p: string, t: string, c: char)
    requires c !in p
    ensures CutAt(p + t, c) == p + CutAt(t, c)
  {
    match IndexOf(t, c)
    case None =>
      assert c !in p + t;
    case Some(j) =>
      assert (p + t)[|p| + j] == c;
      assert (p + t)[..|p| + j] == p + t[..j];
      FirstIndex(p + t, c, |p| + j);
  }

  /** A relative Location keeps its path and loses the query or fragment after it. */
  lemma UrlPathOfRelative(path: string, tail: string)
    requires path != [] && path[0] == '/' && '?' !in path && '#' !in path
    requires tail == [] || tail[0] == '?' || tail[0] == '#'
    ensures UrlPath(path + tail) == path
  {
    SlashIsRelative(path + tail);
    CutAtAppend(path, tail, '?');
    var t := CutAt(tail, '?');
    CutAtAppend(path, t, '#');
    assert CutAt(t, '#') == [] by {
      if t != [] {
        assert IndexOf(tail, '?') != Some(0);
        assert tail[0] == '#' && t[0] == '#';
        assert IndexOf(t, '#') == Some(0);
      }
    }
    assert path + [] == path;
  }

  /** The host of an absolute URL ends at its first '/'. */
  lemma HostEnds(host: string, rest: string)
    requires '/' !in host && rest != [] && rest[0] == '/'
    ensures FromFirstSlash(host + rest) == rest
  {
    assert (host + rest)[..|host|] == host;
    FirstIndex(host + rest, '/', |host|);
    assert (host + rest)[|host|..] == rest;
  }

  /** The http scheme is recognised and stripped. */
  lemma HttpStripped(x: string)
    ensures AfterOrigin("http://" + x) == FromFirstSlash(x)
  {
    assert ("http://" + x)[..7] == "http://" && ("http://" + x)[7..] == x;
  }

  /** The https scheme is recognised and stripped. */
  lemma HttpsStripped(x: string)
    ensures AfterOrigin("https://" + x) == FromFirstSlash(x)
  {
    var loc := "https://" + x;
    assert loc[4] == 's';
    assert loc[..8] == "https://" && loc[8..] == x;
  }

  /** Locations that agree after their origin have the same path. */
  lemma SamePathAfterOrigin(a: string, b: string)
    requires AfterOrigin(a) == AfterOrigin(b)
    ensures UrlPath(a) == UrlPath(b)
  {
  }

  /** An absolute http Location loses its scheme and host, and is read as the relative path after them. */
  lemma UrlPathOfHttp(host: string, rest: string)
    requires '/' !in host && rest != [] && rest[0] == '/'
    ensures UrlPath("http://" + host + rest) == UrlPath(rest)
  {
    SlashIsRelative(rest);
    HttpOrigin(host, rest);
    SamePathAfterOrigin("http://" + host + rest, rest);
  }

  /** The part of an absolute http Location after its host is the path that follows the host. */
  lemma HttpOrigin(host: string, rest: string)
    requires '/' !in host && rest != [] && rest[0] == '/'
    ensures AfterOrigin("http://" + host + rest) == rest
  {
    HostEnds(host, rest);
    HttpStripped(host + rest);
    assert "http://" + host + rest == "http://" + (host + rest);
  }

  /** An absolute https Location loses its scheme and host, and is read as the relative path after them. */
  lemma UrlPathOfHttps(host: string, rest: string)
    requires '/' !in host && rest != [] && rest[0] == '/'
    ensures UrlPath("https://" + host + rest) == UrlPath(rest)
  {
    SlashIsRelative(rest);
    HttpsOrigin(host, rest);
    SamePathAfterOrigin("https://" + host + rest, rest);
  }

  /** The part of an absolute https Location after its host is the path that follows the host. */
  lemma HttpsOrigin(host: string, rest: string)
    requires '/' !in host && rest != [] && rest[0] == '/'
    ensures AfterOrigin("https://" + host + rest) == rest
  {
    HostEnds(host, rest);
    HttpsStripped(host + rest);
    assert "https://" + host + rest == "https://" + (host + rest);
  }

  /** A redirect to "/?x" passes a check expecting the path "/", whether the Location is relative or absolute. */
  lemma RedirectToRootPasses(host: string)
    requires '/' !in host
    ensures ResponseError(303, 303, Some(p => p == "/"), ["/?x"]).None?
    ensures ResponseError(303, 303, Some(p => p == "/"), ["http://" + host + "/"]).None?
    ensures ResponseError(303, 303, Some(p => p == "/"), []) == Some("no single Location")
  {
    var root := p => p == "/";
    RootOfRelative();
    RootOfHttp(host);
    LocationPasses(303, root, "/?x");
    LocationPasses(303, root, "http://" + host + "/");
  }

  /** The path of "/?x" is "/". */
  lemma RootOfRelative()
    ensures UrlPath("/?x") == "/"
  {
    UrlPathOfRelative("/", "?x");
    assert "/" + "?x" == "/?x";
  }

  /** The path of "http://host/" is "/". */
  lemma RootOfHttp(host: string)
    requires '/' !in host
    ensures UrlPath("http://" + host + "/") == "/"
  {
    UrlPathOfHttp(host, "/");
    UrlPathOfRelative("/", "");
    assert "/" + "" == "/";
  }

  /** A single Location whose path the check accepts passes, with the expected status. */
  lemma LocationPasses(status: int, want: string -> bool, loc: string)
    requires status < 500 && want(UrlPath(loc))
    ensures ResponseError(status, status, Some(want), [loc]).None?
  {
  }
}
