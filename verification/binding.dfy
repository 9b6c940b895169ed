/** Parameter descriptors and their per-source convertors (`convertor<PathParam<T>>`,
    `convertor<UrlParam<T, Key>>`, `convertor<PostParam<T, Key>>`, `convertor<PostBody<T>>`),
    and the state after running the first `i` convertors of a handler in order. */
module Binding {
  import opened Wrappers
  import opened RestCursor
  import opened Convertors
  import opened Context

  /** One declared handler parameter: where its text comes from, and its type. */
  datatype Param =
    | PathParam(ty: ValueType)
    | UrlParam(ty: ValueType, key: string)
    | PostParam(ty: ValueType, key: string)
    | PostBody(ty: ValueType)

  /** Running one convertor: the slot it writes (null when it returns early or conversion
      fails) and the context afterwards; only a path parameter moves the cursor. */
  function ConvertParam(env: Platform, p: Param, ctx: Ctx): (r: (Option<Value>, Ctx))
    ensures r.1 == ctx.(cursor := r.1.cursor)
    ensures !p.PathParam? ==> r.1 == ctx
    ensures p.PathParam? && !HasRestArg(ctx.cursor) ==> r == (None, ctx)
    ensures p.PathParam? ==> Advances(ctx.cursor, r.1.cursor)
    ensures p.UrlParam? && p.key !in ctx.urlParams ==> r.0.None?
    ensures p.PostParam? && p.key !in ctx.contentParams ==> r.0.None?
  {
    match p
    case PathParam(ty) =>
      if !HasRestArg(ctx.cursor) then (None, ctx)
      else
        var step := GetRestArg(ctx.path, ctx.cursor);
        (BaseConvert(env, ty, step.seg), ctx.(cursor := step.next))
    case UrlParam(ty, key) =>
      (if key in ctx.urlParams then BaseConvert(env, ty, ctx.urlParams[key]) else None, ctx)
    case PostParam(ty, key) =>
      (if key in ctx.contentParams then BaseConvert(env, ty, ctx.contentParams[key]) else None, ctx)
    case PostBody(ty) =>
      (BaseConvert(env, ty, ctx.body), ctx)
  }

  /** How many path parameters are declared in `params`. */
  function PathCount(params: seq<Param>): nat
    decreases |params|
  {
    if params == [] then 0
    else PathCount(params[..|params| - 1]) + (if params[|params| - 1].PathParam? then 1 else 0)
  }

  /** Counting one more parameter adds one exactly when it is a path parameter. */
  lemma PathCountStep(params: seq<Param>, i: nat)
    requires 0 < i <= |params|
    ensures PathCount(params[..i]) == PathCount(params[..i - 1]) + if params[i - 1].PathParam? then 1 else 0
  {
    assert params[..i][..i - 1] == params[..i - 1];
  }

  /** A list made only of path parameters counts every one of them. */
  lemma {:induction false} PathCountAllPath(params: seq<Param>)
    requires forall i :: 0 <= i < |params| ==> params[i].PathParam?
    ensures PathCount(params) == |params|
    decreases |params|
  {
    if params != [] {
      PathCountAllPath(params[..|params| - 1]);
    }
  }

  /** `d` without its first `k` elements (empty when `k` runs past the end). */
  function Skip<T>(d: seq<T>, k: nat): seq<T>
  {
    if k < |d| then d[k..] else []
  }

  /** The raw text a parameter reads from the ORIGINAL context when `k` path parameters
      precede it: the k-th rest segment, the query or form value of its key, or the body. */
  function RawText(p: Param, ctx: Ctx, k: nat): Option<string>
  {
    match p
    case PathParam(_) =>
      var d := Drain(ctx.path, ctx.cursor);
      if k < |d| then Some(d[k]) else None
    case UrlParam(_, key) => if key in ctx.urlParams then Some(ctx.urlParams[key]) else None
    case PostParam(_, key) => if key in ctx.contentParams then Some(ctx.contentParams[key]) else None
    case PostBody(_) => Some(ctx.body)
  }

  /** Reference binding: the value a parameter should receive. */
  function Expected(env: Platform, p: Param, ctx: Ctx, k: nat): Option<Value>
  {
    match RawText(p, ctx, k)
    case None => None
    case Some(text) => BaseConvert(env, p.ty, text)
  }

  /** A path parameter read while rest segments remain takes segment `k` and consumes it. */
  lemma ConvertPathStep(env: Platform, ty: ValueType, ctx: Ctx, c: Ctx, k: nat)
    requires c == ctx.(cursor := c.cursor) && HasRestArg(c.cursor)
    requires Drain(ctx.path, c.cursor) == Skip(Drain(ctx.path, ctx.cursor), k)
    ensures ConvertParam(env, PathParam(ty), c).0 == Expected(env, PathParam(ty), ctx, k)
    ensures Drain(ctx.path, ConvertParam(env, PathParam(ty), c).1.cursor)
            == Skip(Drain(ctx.path, ctx.cursor), k + 1)
  {
    var d := Drain(ctx.path, ctx.cursor);
    var step := GetRestArg(ctx.path, c.cursor);
    assert Drain(ctx.path, c.cursor) == [step.seg] + Drain(ctx.path, step.next);
    assert k < |d| && d[k..] == [step.seg] + Drain(ctx.path, step.next);
    assert d[k] == step.seg;
    assert Drain(ctx.path, step.next) == d[k..][1..];
    if k + 1 < |d| {
      assert d[k..][1..] == d[k + 1..];
    }
  }

  /** One convertor run against a context whose cursor has consumed `k` rest segments
      agrees with the reference binding, and consumes one more segment if it is a path parameter. */
  lemma ConvertStep(env: Platform, p: Param, ctx: Ctx, c: Ctx, k: nat)
    requires c == ctx.(cursor := c.cursor)
    requires Drain(ctx.path, c.cursor) == Skip(Drain(ctx.path, ctx.cursor), k)
    ensures ConvertParam(env, p, c).0 == Expected(env, p, ctx, k)
    ensures Drain(ctx.path, ConvertParam(env, p, c).1.cursor)
            == Skip(Drain(ctx.path, ctx.cursor), k + if p.PathParam? then 1 else 0)
  {
    if !p.PathParam? {
      ConvertOtherStep(env, p, ctx, c, k);
    } else if HasRestArg(c.cursor) {
      ConvertPathStep(env, p.ty, ctx, c, k);
    } else {
      ConvertExhaustedStep(env, p.ty, ctx, c, k);
    }
  }

  /** A query, form or body parameter reads the same text whatever the cursor says. */
  lemma ConvertOtherStep(env: Platform, p: Param, ctx: Ctx, c: Ctx, k: nat)
    requires c == ctx.(cursor := c.cursor) && !p.PathParam?
    ensures ConvertParam(env, p, c) == (Expected(env, p, ctx, k), c)
  {
  }

  /** A path parameter read after the rest segments ran out gets null and moves nothing. */
  lemma ConvertExhaustedStep(env: Platform, ty: ValueType, ctx: Ctx, c: Ctx, k: nat)
    requires c == ctx.(cursor := c.cursor) && !HasRestArg(c.cursor)
    requires Drain(ctx.path, c.cursor) == Skip(Drain(ctx.path, ctx.cursor), k)
    ensures ConvertParam(env, PathParam(ty), c) == (None, c)
    ensures Expected(env, PathParam(ty), ctx, k) == None
    ensures Skip(Drain(ctx.path, ctx.cursor), k + 1) == []
  {
    var d := Drain(ctx.path, ctx.cursor);
    assert Skip(d, k) == [];
    assert k >= |d|;
  }

  datatype Bound = Bound(slots: seq<Option<Value>>, ctx: Ctx)

  /** The slots and context after convertors `0..i-1` ran, in declaration order: one slot
      per convertor, the cursor has consumed exactly one rest segment per path parameter
      (while segments remained), and nothing else in the context changes. */
  function ConvertPrefix(env: Platform, params: seq<Param>, ctx: Ctx, i: nat): (b: Bound)
    requires i <= |params|
    ensures |b.slots| == i
    ensures b.ctx == ctx.(cursor := b.ctx.cursor)
    ensures Drain(ctx.path, b.ctx.cursor) == Skip(Drain(ctx.path, ctx.cursor), PathCount(params[..i]))
    decreases i
  {
    if i == 0 then Bound([], ctx)
    else
      var b := ConvertPrefix(env, params, ctx, i - 1);
      var r := ConvertParam(env, params[i - 1], b.ctx);
      ConvertStep(env, params[i - 1], ctx, b.ctx, PathCount(params[..i - 1]));
      PathCountStep(params, i);
      Bound(b.slots + [r.0], r.1)
  }

  /** Every slot in `slots` holds the reference value of its parameter. */
  predicate Matches(env: Platform, params: seq<Param>, ctx: Ctx, slots: seq<Option<Value>>)
  {
    |slots| <= |params| &&
    forall j :: 0 <= j < |slots| ==> slots[j] == Expected(env, params[j], ctx, PathCount(params[..j]))
  }

  /** Running the convertors in order agrees with the reference binding: slot `j` holds
      what parameter `j` reads from the original context, given the path parameters before it. */
  lemma {:induction false} ConvertPrefixMatches(env: Platform, params: seq<Param>, ctx: Ctx, i: nat)
    requires i <= |params|
    ensures Matches(env, params, ctx, ConvertPrefix(env, params, ctx, i).slots)
    decreases i
  {
    if i > 0 {
      ConvertPrefixMatches(env, params, ctx, i - 1);
      var b := ConvertPrefix(env, params, ctx, i - 1);
      var r := ConvertParam(env, params[i - 1], b.ctx);
      ConvertPrefixStep(env, params, ctx, i - 1, b.slots, b.ctx);
      ConvertStep(env, params[i - 1], ctx, b.ctx, PathCount(params[..i - 1]));
      MatchesSnoc(env, params, ctx, b.slots, r.0);
    }
  }

  /** Appending the reference value of the next parameter extends a matching prefix of slots. */
  lemma MatchesSnoc(env: Platform, params: seq<Param>, ctx: Ctx, prev: seq<Option<Value>>, x: Option<Value>)
    requires |prev| < |params| && Matches(env, params, ctx, prev)
    requires x == Expected(env, params[|prev|], ctx, PathCount(params[..|prev|]))
    ensures Matches(env, params, ctx, prev + [x])
  {
    var s := prev + [x];
    forall j | 0 <= j < |s|
      ensures s[j] == Expected(env, params[j], ctx, PathCount(params[..j]))
    {
      if j < |prev| {
        assert s[j] == prev[j];
      }
    }
  }

  /** Slot `j` holds the conversion of the raw text its parameter reads, if there is one. */
  lemma SlotValue(env: Platform, params: seq<Param>, ctx: Ctx, i: nat, j: nat, text: string)
    requires j < i <= |params|
    requires RawText(params[j], ctx, PathCount(params[..j])) == Some(text)
    ensures ConvertPrefix(env, params, ctx, i).slots[j] == BaseConvert(env, params[j].ty, text)
  {
    ConvertPrefixMatches(env, params, ctx, i);
    var slots := ConvertPrefix(env, params, ctx, i).slots;
    assert slots[j] == Expected(env, params[j], ctx, PathCount(params[..j]));
  }

  /** Running convertor `i` on the state after the first `i` gives the state after `i + 1`. */
  lemma ConvertPrefixStep(env: Platform, params: seq<Param>, ctx: Ctx, i: nat, slots: seq<Option<Value>>, c: Ctx)
    requires i < |params|
    requires Bound(slots, c) == ConvertPrefix(env, params, ctx, i)
    ensures var r := ConvertParam(env, params[i], c);
            ConvertPrefix(env, params, ctx, i + 1) == Bound(slots + [r.0], r.1)
  {
  }
}
