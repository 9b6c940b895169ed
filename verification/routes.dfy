/** The route table and dispatcher (`Apis::RegisterRestful`, `Apis::Test`): an ordered map
    from path to invoker; a request is matched against its own path and then against each
    `/`-delimited ancestor, from the longest to the shortest, the root excluded. */
module Routes {
  import opened Wrappers
  import opened Text
  import opened RestCursor
  import opened ParamParser
  import opened Convertors
  import opened Context
  import opened Invoker

  type Table = map<string, Route>

  /** A path the library accepts: non-empty and starting with `/`. */
  predicate ValidPath(path: string)
  {
    |path| > 0 && path[0] == '/'
  }

  datatype RouteError = UrlMustStartWithSlash

  /** The table after a registration, and the error it raised, if any. */
  datatype Registration = Registration(table: Table, error: Option<RouteError>)

  /** `RegisterRestful(path, callback)`: reject a malformed path, else insert or overwrite. */
  function Register(t: Table, path: string, route: Route): (r: Registration)
    requires |route.params| <= MaxParams
    ensures r.error.Some? <==> !ValidPath(path)
    ensures r.error.Some? ==> r.table == t
    ensures r.error.None? ==> r.table.Keys == t.Keys + {path} && r.table[path] == route
    ensures r.error.None? ==> forall k :: k in t && k != path ==> r.table[k] == t[k]
    ensures (forall k :: k in t ==> ValidPath(k)) ==> (forall k :: k in r.table ==> ValidPath(k))
  {
    if !ValidPath(path) then Registration(t, Some(UrlMustStartWithSlash))
    else Registration(t[path := route], None)
  }

  /** `u[..p]` is a candidate ancestor of `u`: cut at a `/` other than the leading one. */
  predicate IsAncestorCut(u: string, p: int)
  {
    0 < p < |u| && u[p] == '/'
  }

  /** Neither the path nor any of its ancestors is registered. */
  ghost predicate NoCandidate(t: Table, u: string)
  {
    u !in t && forall p :: IsAncestorCut(u, p) ==> u[..p] !in t
  }

  /** The matched key and where the rest cursor starts. */
  datatype Match = Match(prefix: string, restBegin: nat)

  /** The truncation loop of `Test` after a failed lookup at end position `pos`: the next
      `/` to the left (`rfind('/', pos - 1)`), stopping at index 0 or `npos`. */
  function Seek(t: Table, u: string, pos: nat): (r: Option<Match>)
    requires pos >= 1
    ensures r.None? <==> forall q :: IsAncestorCut(u, q) && q < pos ==> u[..q] !in t
    ensures r.Some? ==>
              var p := |r.value.prefix|;
              && p < pos && IsAncestorCut(u, p) && r.value.prefix == u[..p]
              && r.value.restBegin == p + 1 && u[..p] in t
              && forall q :: p < q < pos && IsAncestorCut(u, q) ==> u[..q] !in t
    decreases pos
  {
    match FindLast(u, '/', pos - 1)
    case None => None
    case Some(p) =>
      if p == 0 then None
      else if u[..p] in t then Some(Match(u[..p], p + 1))
      else Seek(t, u, p)
  }

  /** Starting the truncation loop anywhere at or past the end of the path (as `Test` does,
      from the length of the whole url) is starting it at the end of the path. */
  lemma SeekPastEnd(t: Table, u: string, pos: nat)
    requires 1 <= |u| <= pos
    ensures Seek(t, u, pos) == Seek(t, u, |u|)
  {
    assert FindLast(u, '/', pos - 1) == FindLast(u, '/', |u| - 1);
  }

  /** Route lookup for a request whose full url is `url` and whose path part is `u`: the
      path itself first (cursor one past the end of the whole url), then the longest
      registered ancestor (cursor just past its `/`). */
  function FindRoute(t: Table, url: string, u: string): (r: Option<Match>)
    requires 1 <= |u| <= |url|
    ensures r.None? <==> NoCandidate(t, u)
    ensures r.Some? ==> r.value.prefix in t
    ensures r.Some? && r.value.prefix == u ==> r.value.restBegin == |url| + 1
    ensures r.Some? && r.value.prefix != u ==>
              var p := |r.value.prefix|;
              && u !in t && IsAncestorCut(u, p) && r.value.prefix == u[..p] && r.value.restBegin == p + 1
              && forall q :: p < q && IsAncestorCut(u, q) ==> u[..q] !in t
  {
    if u in t then Some(Match(u, |url| + 1)) else Seek(t, u, |url|)
  }

  datatype Outcome =
    | Ignored
    | NotFound
    | Dispatched(prefix: string, restBegin: nat, log: seq<Event>)

  /** `Test(path, contentBody)`: ignore a malformed path; otherwise build the context,
      find the route and run its invoker with the rest cursor positioned after the match. */
  method Test(t: Table, env: Platform, url: string, body: string) returns (out: Outcome)
    ensures out.Ignored? <==> !ValidPath(url)
    ensures out.NotFound? <==> ValidPath(url) && NoCandidate(t, PathPart(url))
    ensures out.Dispatched? ==>
              && ValidPath(url)
              && Some(Match(out.prefix, out.restBegin)) == FindRoute(t, url, PathPart(url))
              && InvokeSpec(env, t[out.prefix], MakeCtx(url, body).(cursor := At(out.restBegin)), out.log)
  {
    if !ValidPath(url) {
      return Ignored;
    }
    var ctx := MakeCtx(url, body);
    assert url[0] != '?';
    var m := FindRoute(t, url, ctx.path);
    if m.None? {
      return NotFound;
    }
    var log := Invoke(env, t[m.value.prefix], ctx.(cursor := At(m.value.restBegin)));
    return Dispatched(m.value.prefix, m.value.restBegin, log);
  }

  /** Spec-level dispatch property: a registered prefix `P` with no longer registered
      candidate receives the request `P/rest`, and the rest cursor reads `rest` split on `/`. */
  lemma DispatchToPrefix(t: Table, prefix: string, rest: string)
    requires ValidPath(prefix) && prefix in t
    requires '?' !in prefix && '?' !in rest
    requires var u := prefix + "/" + rest;
             u !in t && forall q :: |prefix| < q && IsAncestorCut(u, q) ==> u[..q] !in t
    ensures var u := prefix + "/" + rest;
            && FindRoute(t, u, u) == Some(Match(prefix, |prefix| + 1))
            && Drain(u, At(|prefix| + 1)) == Split(rest, '/')
  {
    var u := prefix + "/" + rest;
    assert u[..|prefix|] == prefix;
    assert IsAncestorCut(u, |prefix|);
    var r := Seek(t, u, |u|);
    assert r.Some?;
    var p := |r.value.prefix|;
    assert p >= |prefix|;
    assert p <= |prefix|;
    DrainIsSplit(u, |prefix| + 1);
    assert u[|prefix| + 1..] == rest;
  }

  /** When no registered key is longer than `P`, the request `P/rest` always reaches `P`. */
  lemma DispatchToLongestKey(t: Table, prefix: string, rest: string)
    requires ValidPath(prefix) && prefix in t
    requires '?' !in prefix && '?' !in rest
    requires forall k :: k in t ==> |k| <= |prefix|
    ensures var u := prefix + "/" + rest;
            && FindRoute(t, u, u) == Some(Match(prefix, |prefix| + 1))
            && Drain(u, At(|prefix| + 1)) == Split(rest, '/')
  {
    var u := prefix + "/" + rest;
    assert |u| > |prefix|;
    forall q | |prefix| < q && IsAncestorCut(u, q)
      ensures u[..q] !in t
    {
      assert |u[..q]| > |prefix|;
    }
    DispatchToPrefix(t, prefix, rest);
  }

  /** A request matched on its whole path leaves one empty rest segment before exhaustion. */
  lemma ExactMatchRest(url: string, u: string)
    requires |u| <= |url|
    ensures Drain(u, At(|url| + 1)) == [[]]
  {
    DrainPastEnd(u, |url| + 1);
  }

  /** A key containing `?` is stored but no request ever reaches it. */
  lemma QueryKeysUnreachable(t: Table, url: string)
    requires ValidPath(url)
    ensures var r := FindRoute(t, url, PathPart(url)); r.Some? ==> '?' !in r.value.prefix
  {
    assert url[0] != '?';
    var u := PathPart(url);
    var r := FindRoute(t, url, u);
    if r.Some? && r.value.prefix != u {
      assert r.value.prefix == u[..|r.value.prefix|];
    }
  }
}
