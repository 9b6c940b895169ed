/** The request traces the example programs document, replayed against the model. */
module Scenarios {
  import opened Wrappers
  import opened Text
  import opened RestCursor
  import opened ParamParser
  import opened CharConv
  import opened Convertors
  import opened Context
  import opened Binding
  import opened Invoker
  import opened Routes

  /** The handler of `/path2` takes an int, a string and a float from the path. */
  function Path2Params(): seq<Param>
  {
    [PathParam(IntT(Int)), PathParam(StringT), PathParam(FloatT(Float))]
  }

  /** The two routes of the path-parameter example. */
  function PathTable(): Table
  {
    map[
      "/path" := Route(0, [PathParam(IntT(Int)), PathParam(IntT(Int))]),
      "/path2" := Route(1, Path2Params())
    ]
  }

  lemma PathTableKeys()
    ensures forall k :: k in PathTable() ==> |k| <= |"/path2"|
  {
  }

  lemma FiveSegments()
    ensures Split("1/2/3/4/5", '/') == ["1", "2", "3", "4", "5"]
  {
    var parts := ["1", "2", "3", "4", "5"];
    assert Join(parts, '/') == "1/2/3/4/5";
    JoinThenSplit(parts, '/');
  }

  /** `/path2/1/2/3/4/5` is dispatched to `/path2`, and its rest segments are 1 to 5. */
  lemma PathParamRoute(url: string)
    requires url == "/path2" + "/" + "1/2/3/4/5"
    ensures FindRoute(PathTable(), url, url) == Some(Match("/path2", 7))
    ensures Drain(url, At(7)) == ["1", "2", "3", "4", "5"]
  {
    PathTableKeys();
    DispatchToLongestKey(PathTable(), "/path2", "1/2/3/4/5");
    assert Drain(url, At(7)) == Split("1/2/3/4/5", '/');
    FiveSegments();
  }

  /** The text "1" converts to the int 1. */
  lemma ConvertOne(env: Platform)
    ensures BaseConvert(env, IntT(Int), "1") == Some(IntVal(1))
  {
    assert Show(1) + "" == "1";
    IntegerRoundTrip(env, Int, 1, "");
  }

  /** The rest segments `PathParamRoute` exhibits, element by element. */
  predicate RestIsOneToFive(ctx: Ctx)
  {
    var d := Drain(ctx.path, ctx.cursor);
    |d| == 5 && d[0] == "1" && d[1] == "2" && d[2] == "3" && d[3] == "4" && d[4] == "5"
  }

  lemma PathParamFirst(env: Platform, ctx: Ctx)
    requires RestIsOneToFive(ctx)
    ensures ConvertPrefix(env, Path2Params(), ctx, 3).slots[0] == Some(IntVal(1))
  {
    var params := Path2Params();
    SlotValue(env, params, ctx, 3, 0, "1");
    ConvertOne(env);
  }

  lemma PathParamSecond(env: Platform, ctx: Ctx)
    requires RestIsOneToFive(ctx)
    ensures ConvertPrefix(env, Path2Params(), ctx, 3).slots[1] == Some(StrVal("2"))
  {
    var params := Path2Params();
    PathCountAllPath(params[..1]);
    SlotValue(env, params, ctx, 3, 1, "2");
  }

  lemma PathParamThird(env: Platform, ctx: Ctx)
    requires RestIsOneToFive(ctx)
    ensures ConvertPrefix(env, Path2Params(), ctx, 3).slots[2] == BaseConvert(env, FloatT(Float), "3")
  {
    var params := Path2Params();
    PathCountAllPath(params[..2]);
    SlotValue(env, params, ctx, 3, 2, "3");
  }

  lemma PathParamLeftover(env: Platform, ctx: Ctx)
    requires RestIsOneToFive(ctx)
    ensures var r := Drain(ctx.path, ConvertPrefix(env, Path2Params(), ctx, 3).ctx.cursor);
            |r| == 2 && r[0] == "4" && r[1] == "5"
  {
    var params := Path2Params();
    PathCountAllPath(params);
    assert params[..3] == params;
  }

  /** Its three parameters read 1, "2" and the float parse of "3"; the handler's own rest
      loop then reads "4" and "5". */
  lemma PathParamExample(env: Platform, ctx: Ctx)
    requires RestIsOneToFive(ctx)
    ensures var b := ConvertPrefix(env, Path2Params(), ctx, 3);
            && b.slots[0] == Some(IntVal(1))
            && b.slots[1] == Some(StrVal("2"))
            && b.slots[2] == BaseConvert(env, FloatT(Float), "3")
    ensures var r := Drain(ctx.path, ConvertPrefix(env, Path2Params(), ctx, 3).ctx.cursor);
            |r| == 2 && r[0] == "4" && r[1] == "5"
  {
    PathParamFirst(env, ctx);
    PathParamSecond(env, ctx);
    PathParamThird(env, ctx);
    PathParamLeftover(env, ctx);
  }

  /** The query `uid=123&pass=dfsfd` parses to `uid` -> "123", `pass` -> "dfsfd". */
  lemma LoginQueryString(q: string)
    requires q == "uid" + "=" + "123" + "&" + ("pass" + "=" + "dfsfd")
    ensures Scan(map[], q) == map["uid" := "123", "pass" := "dfsfd"]
  {
    ScanPair(map[], "uid", "123", "pass" + "=" + "dfsfd");
    ScanFinalPair(map["uid" := "123"], "pass", "dfsfd");
  }

  /** So the url `/login?uid=123&pass=dfsfd` has path `/login` and those url parameters. */
  lemma LoginQuery(url: string)
    requires url == "/login" + "?" + ("uid" + "=" + "123" + "&" + ("pass" + "=" + "dfsfd"))
    ensures PathPart(url) == "/login"
    ensures ParseUrlParams(url) == map["uid" := "123", "pass" := "dfsfd"]
  {
    var q := "uid" + "=" + "123" + "&" + ("pass" + "=" + "dfsfd");
    QueryAfterPath("/login", q);
    LoginQueryString(q);
  }

  /** The text "123" converts to the int 123. */
  lemma Convert123(env: Platform)
    ensures BaseConvert(env, IntT(Int), "123") == Some(IntVal(123))
  {
    assert ToDecimal(1) == "1";
    assert ToDecimal(12) == ToDecimal(1) + [DigitChar(2)];
    assert Show(123) + "" == "123";
    IntegerRoundTrip(env, Int, 123, "");
  }

  /** With that query the two url parameters bind 123 and "dfsfd". */
  lemma UrlParamExample(env: Platform, ctx: Ctx)
    requires ctx.urlParams == map["uid" := "123", "pass" := "dfsfd"]
    ensures var params := [UrlParam(IntT(Int), "uid"), UrlParam(StringT, "pass")];
            ConvertPrefix(env, params, ctx, 2).slots == [Some(IntVal(123)), Some(StrVal("dfsfd"))]
  {
    var params := [UrlParam(IntT(Int), "uid"), UrlParam(StringT, "pass")];
    SlotValue(env, params, ctx, 2, 0, "123");
    SlotValue(env, params, ctx, 2, 1, "dfsfd");
    Convert123(env);
  }

  lemma OneSegment()
    ensures Split("hello", '/') == ["hello"]
  {
    IndexOfMissing("hello", '/');
  }

  /** The url of the custom-convertor example has path `/post/hello` and query `x=123`. */
  lemma CustomConvertorQuery(url: string)
    requires url == "/post" + "/" + "hello" + "?" + ("x" + "=" + "123")
    ensures PathPart(url) == "/post" + "/" + "hello"
    ensures ParseUrlParams(url) == map["x" := "123"]
  {
    QueryAfterPath("/post" + "/" + "hello", "x" + "=" + "123");
    ScanFinalPair(map[], "x", "123");
  }

  /** Its body `x=xyz` parses to `x` -> "xyz". */
  lemma CustomConvertorBody()
    ensures ParseContentParams("x" + "=" + "xyz") == map["x" := "xyz"]
  {
    ScanFinalPair(map[], "x", "xyz");
  }

  /** Its path `/post/hello` reaches `/post`, even with the lookup started from the length of
      the whole url, and the rest cursor reads the single segment "hello". */
  lemma CustomConvertorRoute(route: Route, url: string)
    requires url == "/post" + "/" + "hello" + "?" + ("x" + "=" + "123")
    ensures FindRoute(map["/post" := route], url, PathPart(url)) == Some(Match("/post", 6))
    ensures Drain(PathPart(url), At(6)) == ["hello"]
  {
    var t := map["/post" := route];
    var u := "/post" + "/" + "hello";
    CustomConvertorQuery(url);
    assert u !in t;
    SeekPastEnd(t, u, |url|);
    DispatchToLongestKey(t, "/post", "hello");
    OneSegment();
  }

  /** The request of the custom-convertor example, `/post/hello?x=123` with body `x=xyz`:
      it reaches `/post` with the single rest segment "hello", and both tables map `x`,
      to "123" and to "xyz". */
  lemma CustomConvertorRequest(route: Route, url: string)
    requires url == "/post" + "/" + "hello" + "?" + ("x" + "=" + "123")
    ensures PathPart(url) == "/post" + "/" + "hello"
    ensures FindRoute(map["/post" := route], url, PathPart(url)) == Some(Match("/post", 6))
    ensures Drain(PathPart(url), At(6)) == ["hello"]
    ensures ParseUrlParams(url) == map["x" := "123"]
    ensures ParseContentParams("x" + "=" + "xyz") == map["x" := "xyz"]
  {
    CustomConvertorQuery(url);
    CustomConvertorBody();
    CustomConvertorRoute(route, url);
  }

  /** The context that request builds, with the cursor where the lookup leaves it. */
  lemma CustomConvertorContext(route: Route, url: string, ctx: Ctx)
    requires url == "/post" + "/" + "hello" + "?" + ("x" + "=" + "123")
    requires ctx == MakeCtx(url, "x" + "=" + "xyz").(cursor := At(6))
    ensures var d := Drain(ctx.path, ctx.cursor); |d| == 1 && d[0] == "hello"
    ensures ctx.contentParams == map["x" := "xyz"] && ctx.urlParams == map["x" := "123"]
  {
    CustomConvertorRequest(route, url);
  }

  /** Each source kind feeds the user converter: with path rest `hello`, form `x=xyz` and
      query `x=123`, the three parameters receive the converter's reading of each text. */
  lemma CustomConvertorSlots(env: Platform, ctx: Ctx)
    requires var d := Drain(ctx.path, ctx.cursor); |d| == 1 && d[0] == "hello"
    requires ctx.contentParams == map["x" := "xyz"] && ctx.urlParams == map["x" := "123"]
    ensures var ty := CustomT("C");
            var params := [PathParam(ty), PostParam(ty, "x"), UrlParam(ty, "x")];
            var b := ConvertPrefix(env, params, ctx, 3);
            && b.slots[0] == env.customConvert("C", "hello")
            && b.slots[1] == env.customConvert("C", "xyz")
            && b.slots[2] == env.customConvert("C", "123")
  {
    var ty := CustomT("C");
    var params := [PathParam(ty), PostParam(ty, "x"), UrlParam(ty, "x")];
    SlotValue(env, params, ctx, 3, 0, "hello");
    SlotValue(env, params, ctx, 3, 1, "xyz");
    SlotValue(env, params, ctx, 3, 2, "123");
  }

  /** The whole trace: `Test("/post/hello?x=123", "x=xyz")` runs the `/post` handler, whose
      path, form and url parameters receive the converter's reading of "hello", "xyz" and "123". */
  lemma CustomConvertorExample(env: Platform, route: Route, url: string, ctx: Ctx)
    requires url == "/post" + "/" + "hello" + "?" + ("x" + "=" + "123")
    requires ctx == MakeCtx(url, "x" + "=" + "xyz").(cursor := At(6))
    ensures FindRoute(map["/post" := route], url, PathPart(url)) == Some(Match("/post", 6))
    ensures var ty := CustomT("C");
            var params := [PathParam(ty), PostParam(ty, "x"), UrlParam(ty, "x")];
            var b := ConvertPrefix(env, params, ctx, 3);
            && b.slots[0] == env.customConvert("C", "hello")
            && b.slots[1] == env.customConvert("C", "xyz")
            && b.slots[2] == env.customConvert("C", "123")
  {
    CustomConvertorRequest(route, url);
    CustomConvertorContext(route, url, ctx);
    CustomConvertorSlots(env, ctx);
  }

  /** With `/a` and `/a/b` registered, `/a/b/c` goes to `/a/b`, and `/zzz` is not found. */
  lemma LongestAncestorExample()
    ensures var t := map["/a" := Route(0, []), "/a/b" := Route(1, [])];
            && FindRoute(t, "/a/b" + "/" + "c", "/a/b" + "/" + "c") == Some(Match("/a/b", 5))
            && FindRoute(t, "/zzz", "/zzz").None?
  {
    var t := map["/a" := Route(0, []), "/a/b" := Route(1, [])];
    assert forall k :: k in t ==> |k| <= |"/a/b"|;
    DispatchToLongestKey(t, "/a/b", "c");
  }

  /** A body parameter receives the request body unchanged. */
  lemma PostBodyExample(env: Platform, ctx: Ctx)
    requires ctx.body == "hello%20world"
    ensures ConvertPrefix(env, [PostBody(StringT)], ctx, 1).slots == [Some(StrVal("hello%20world"))]
  {
    var b := ConvertPrefix(env, [PostBody(StringT)], ctx, 1);
    assert b.slots[0] == Expected(env, PostBody(StringT), ctx, 0);
  }

  /** A request on the registered path itself: the first path parameter reads the empty
      segment (so converts to null), the cursor is then exhausted, and later ones stay null. */
  lemma ExactMatchExample(env: Platform, ctx: Ctx)
    requires ctx.path == "/path2" && ctx.cursor == At(|"/path2"| + 1)
    ensures FindRoute(PathTable(), "/path2", "/path2") == Some(Match("/path2", 7))
    ensures var b := ConvertPrefix(env, PathTable()["/path2"].params, ctx, 3);
            b.slots == [None, None, None] && !HasRestArg(b.ctx.cursor)
  {
    ExactMatchRest("/path2", "/path2");
    var params := PathTable()["/path2"].params;
    assert PathCount(params[..1]) == 1;
    assert PathCount(params[..2]) == 2;
    assert params[..3] == params;
  }
}
