/**
 * Two gateways' path rewriting over unbounded strings: one splits and joins at slashes, one
 * trims a prefix. Segments are those of section 3.3 of RFC 3986.
 */
module Paths {
  import opened Collections

  predicate SlashFree(s: string) {
    forall i :: 0 <= i < |s| ==> s[i] != '/'
  }

  predicate Rooted(path: string) {
    |path| > 0 && path[0] == '/'
  }

  /** `strings.TrimPrefix`. */
  function TrimPrefix(s: string, prefix: string): string {
    if prefix <= s then s[|prefix|..] else s
  }

  lemma TrimTail(prefix: string, tail: string)
    ensures TrimPrefix(prefix + tail, prefix) == tail
  {
    assert (prefix + tail)[|prefix|..] == tail;
  }

  function IndexOfSlash(s: string): (i: nat)
    ensures i <= |s| && SlashFree(s[..i]) && (i < |s| ==> s[i] == '/')
  {
    if s == "" || s[0] == '/' then 0
    else
      var i := IndexOfSlash(s[1..]) + 1;
      assert s[..i] == [s[0]] + s[1..][..i - 1];
      i
  }

  /** `strings.Split(s, "/")`. */
  function Split(s: string): (segs: seq<string>)
    ensures |segs| >= 1 && forall k :: 0 <= k < |segs| ==> SlashFree(segs[k])
  {
    var i := IndexOfSlash(s);
    if i == |s| then
      assert s[..i] == s;
      [s]
    else [s[..i]] + Split(s[i + 1..])
  }

  /** `strings.Join(segs, "/")`. */
  function Join(segs: seq<string>): string {
    if |segs| == 0 then "" else if |segs| == 1 then segs[0] else segs[0] + "/" + Join(segs[1..])
  }

  lemma JoinCons(a: string, segs: seq<string>)
    requires |segs| >= 1
    ensures Join([a] + segs) == a + "/" + Join(segs)
  {
    assert ([a] + segs)[1..] == segs;
  }

  lemma CutAt(s: string, i: nat)
    requires i < |s| && s[i] == '/'
    ensures s == s[..i] + "/" + s[i + 1..]
  {
  }

  lemma {:induction false} JoinInvertsSplit(s: string)
    ensures Join(Split(s)) == s
  {
    var i := IndexOfSlash(s);
    if i < |s| {
      JoinInvertsSplit(s[i + 1..]);
      JoinCons(s[..i], Split(s[i + 1..]));
      CutAt(s, i);
    }
  }

  lemma {:induction false} FirstSlash(s: string, k: nat)
    requires k < |s| && s[k] == '/' && SlashFree(s[..k])
    ensures IndexOfSlash(s) == k
  {
  }

  lemma SplitAtSlash(a: string, rest: string)
    requires SlashFree(a)
    ensures Split(a + "/" + rest) == [a] + Split(rest)
  {
    var s := a + "/" + rest;
    assert s[..|a|] == a && s[|a| + 1..] == rest;
    FirstSlash(s, |a|);
  }

  lemma {:induction false} SplitInvertsJoin(segs: seq<string>)
    requires |segs| >= 1 && forall k :: 0 <= k < |segs| ==> SlashFree(segs[k])
    ensures Split(Join(segs)) == segs
  {
    if |segs| == 1 {
      var i := IndexOfSlash(segs[0]);
      assert segs == [segs[0]];
    } else {
      SplitInvertsJoin(segs[1..]);
      SplitAtSlash(segs[0], Join(segs[1..]));
      assert segs == [segs[0]] + segs[1..];
    }
  }

  // ---- The splitting gateway -------------------------------------------------------------------

  datatype Routing = Invalid | Route(service: string, path: string)

  function RouteOf(path: string): Routing {
    var segs := Split(TrimPrefix(path, "/"));
    if |segs| < 3 || segs[0] != "api" then Invalid
    else Route(segs[1] + "-service", "/" + Join(segs[1..]))
  }

  /** `path` is `api/` and a slash-free `a` and `/` and any `rest`, with or without a slash in front. */
  predicate Shape(path: string, a: string, rest: string) {
    SlashFree(a) && (path == "/api/" + a + "/" + rest || path == "api/" + a + "/" + rest)
  }

  lemma TrimmedShape(path: string, a: string, rest: string)
    ensures Shape(path, a, rest) <==> SlashFree(a) && TrimPrefix(path, "/") == "api" + "/" + (a + "/" + rest)
  {
    var tail := "api" + "/" + (a + "/" + rest);
    assert "api/" + a + "/" + rest == tail;
    assert "/api/" + a + "/" + rest == "/" + tail;
    if Rooted(path) {
      assert path == "/" + path[1..] && "/" <= path;
      assert path == "/" + tail ==> path[1..] == tail;
      assert tail[0] == 'a';
    }
  }

  lemma SplitShape(path: string, a: string, rest: string)
    requires Shape(path, a, rest)
    ensures Split(TrimPrefix(path, "/")) == ["api"] + ([a] + Split(rest))
  {
    TrimmedShape(path, a, rest);
    SplitAtSlash("api", a + "/" + rest);
    SplitAtSlash(a, rest);
  }

  lemma RouteMeaning(path: string, a: string, rest: string)
    requires Shape(path, a, rest)
    ensures RouteOf(path) == Route(a + "-service", "/" + (a + "/" + rest))
  {
    SplitShape(path, a, rest);
    var tail := [a] + Split(rest);
    assert (["api"] + tail)[1..] == tail && (["api"] + tail)[1] == a;
    JoinCons(a, Split(rest));
    JoinInvertsSplit(rest);
  }

  /** Exactly the paths of that shape are accepted. */
  lemma AcceptsExactly(path: string)
    ensures RouteOf(path).Route? <==> exists a, rest :: Shape(path, a, rest)
  {
    var trimmed := TrimPrefix(path, "/");
    var segs := Split(trimmed);
    if RouteOf(path).Route? {
      JoinInvertsSplit(trimmed);
      var rest := Join(segs[2..]);
      assert segs[1..][1..] == segs[2..];
      assert trimmed == segs[0] + "/" + (segs[1] + "/" + rest);
      TrimmedShape(path, segs[1], rest);
      assert Shape(path, segs[1], rest);
    }
    if exists a, rest :: Shape(path, a, rest) {
      var a, rest :| Shape(path, a, rest);
      RouteMeaning(path, a, rest);
    }
  }

  predicate ApiPath(path: string, a: string, rest: string) {
    SlashFree(a) && path == "/api/" + a + "/" + rest
  }

  lemma RootedShape(path: string, a: string, rest: string)
    requires Rooted(path)
    ensures Shape(path, a, rest) <==> ApiPath(path, a, rest)
  {
    assert ("api/" + a + "/" + rest)[0] == 'a';
  }

  /** Rooted paths: exactly `/api/a/rest` with `a` slash-free is accepted. */
  lemma RootedAcceptsExactly(path: string)
    requires Rooted(path)
    ensures RouteOf(path).Route? <==> exists a, rest :: ApiPath(path, a, rest)
    ensures forall a, rest :: ApiPath(path, a, rest) ==> RouteOf(path) == Route(a + "-service", "/" + (a + "/" + rest))
  {
    AcceptsExactly(path);
    if RouteOf(path).Route? {
      var a, rest :| Shape(path, a, rest);
      RootedShape(path, a, rest);
    }
    forall a, rest | ApiPath(path, a, rest)
      ensures Shape(path, a, rest) && RouteOf(path) == Route(a + "-service", "/" + (a + "/" + rest))
    {
      RootedShape(path, a, rest);
      RouteMeaning(path, a, rest);
    }
  }

  lemma RootedRewrites(path: string, a: string, rest: string)
    requires ApiPath(path, a, rest)
    ensures "/api" + ("/" + (a + "/" + rest)) == path
    ensures TrimPrefix(path, "/api") == "/" + (a + "/" + rest)
  {
    var tail := "/" + (a + "/" + rest);
    assert path == "/api" + tail;
    assert path[..4] == "/api" && path[4..] == tail;
  }

  lemma UnrootedRewrites(path: string, tail: string)
    requires !Rooted(path)
    ensures "/api" + tail != path && TrimPrefix(path, "/api") != "/" + tail
  {
    assert ("/api" + tail)[0] == '/' && ("/" + tail)[0] == '/';
  }

  /**
   * An accepted path is recovered by putting `/api` back, and both gateways rewrite it alike,
   * exactly when it starts with a slash.
   */
  lemma RewritesAgree(path: string)
    requires RouteOf(path).Route?
    ensures "/api" + RouteOf(path).path == path <==> Rooted(path)
    ensures TrimPrefix(path, "/api") == RouteOf(path).path <==> Rooted(path)
  {
    AcceptsExactly(path);
    var a, rest :| Shape(path, a, rest);
    RouteMeaning(path, a, rest);
    if Rooted(path) {
      RootedShape(path, a, rest);
      RootedRewrites(path, a, rest);
    } else {
      UnrootedRewrites(path, "/" + (a + "/" + rest));
      UnrootedRewrites(path, a + "/" + rest);
    }
  }

  /** The collection paths that the trimming gateway serves have too few segments for the splitting one. */
  lemma CollectionsAreRefused(a: string)
    requires SlashFree(a)
    ensures RouteOf("/api/" + a) == Invalid
  {
    TrimTail("/", "api" + "/" + a);
    assert "/api/" + a == "/" + ("api" + "/" + a);
    SplitAtSlash("api", a);
    assert IndexOfSlash(a) == |a|;
  }

  // ---- The handlers ------------------------------------------------------------------------------

  class Request {
    var path: string

    constructor (path: string)
      ensures this.path == path
    {
      this.path := path;
    }
  }

  datatype Verdict = BadRequest | Unavailable | Forwarded(url: string)

  /** `routeRequest`: only a forwarded request has its path rewritten. */
  method RouteRequest(r: Request, discover: string -> Option<string>) returns (v: Verdict)
    modifies r
    ensures v.BadRequest? <==> forall a, rest :: !Shape(old(r.path), a, rest)
    ensures v.Unavailable? <==> RouteOf(old(r.path)).Route? && discover(RouteOf(old(r.path)).service) == None
    ensures v.Forwarded? ==>
      && RouteOf(old(r.path)).Route? && r.path == RouteOf(old(r.path)).path
      && discover(RouteOf(old(r.path)).service) == Some(v.url)
    ensures !v.Forwarded? ==> r.path == old(r.path)
    ensures forall a, rest :: Shape(old(r.path), a, rest) ==>
      match v
      case BadRequest => false
      case Unavailable => discover(a + "-service") == None
      case Forwarded(url) => discover(a + "-service") == Some(url) && r.path == "/" + (a + "/" + rest)
  {
    AcceptsExactly(r.path);
    forall a, rest | Shape(r.path, a, rest)
      ensures RouteOf(r.path) == Route(a + "-service", "/" + (a + "/" + rest))
    {
      RouteMeaning(r.path, a, rest);
    }
    var segs := Split(TrimPrefix(r.path, "/"));
    if |segs| < 3 || segs[0] != "api" {
      return BadRequest;
    }
    var url := discover(segs[1] + "-service");
    if url == None {
      return Unavailable;
    }
    r.path := "/" + Join(segs[1..]);
    return Forwarded(url.value);
  }

  /** `proxyTo`'s closure: `/api` is taken off where it is, and nothing else is done. */
  method Proxy(r: Request)
    modifies r
    ensures forall tail :: old(r.path) == "/api" + tail ==> r.path == tail
    ensures forall a :: old(r.path) == "/api/" + a ==> r.path == "/" + a
    ensures !("/api" <= old(r.path)) ==> r.path == old(r.path)
    ensures Rooted(old(r.path)) && RouteOf(old(r.path)).Route? ==> r.path == RouteOf(old(r.path)).path
  {
    if RouteOf(r.path).Route? {
      RewritesAgree(r.path);
    }
    forall tail | r.path == "/api" + tail
      ensures TrimPrefix(r.path, "/api") == tail
    {
      TrimTail("/api", tail);
    }
    assert forall a :: "/api/" + a == "/api" + ("/" + a);
    r.path := TrimPrefix(r.path, "/api");
  }
}
