/** The invoker `make_invoker` builds for a route: n null slots, each convertor once in
    declaration order, the handler once, then each cleaner once in order. Converted values
    live in slots; what happens is recorded as an event log. */
module Invoker {
  import opened Wrappers
  import opened Convertors
  import opened Context
  import opened Binding

  /** Handlers are opaque; a handler is named by an identifier. */
  type HandlerId = nat

  /** Handlers take at most this many parameters after the context. */
  const MaxParams: nat := 15

  /** What is registered for a path: the handler and its declared parameters. */
  datatype Route = Route(handler: HandlerId, params: seq<Param>)

  datatype Event =
    | Converted(slot: nat, value: Option<Value>)
    | Called(handler: HandlerId, ctx: Ctx, args: seq<Option<Value>>)
    | Cleaned(slot: nat, freed: Option<Value>)

  /** The shape of one run's log for given slot contents and post-conversion context: n
      conversion events in slot order, then the single handler call (seeing that context and
      the slots as its arguments), then n cleaner events in slot order, each releasing what
      its slot holds. */
  predicate LogShape(env: Platform, route: Route, slots: seq<Option<Value>>, c: Ctx, log: seq<Event>)
    requires |slots| == |route.params|
  {
    var n := |route.params|;
    && |log| == 2 * n + 1
    && (forall i :: 0 <= i < n ==> log[i] == Converted(i, slots[i]))
    && log[n] == Called(route.handler, c, slots)
    && (forall i :: n < i < |log| ==> log[i] == Cleaned(i - n - 1, Clean(env, route.params[i - n - 1].ty, slots[i - n - 1])))
  }

  /** The log one run of the invoker produces: the shape above, for the slots and context
      that running every convertor in order yields. */
  predicate InvokeSpec(env: Platform, route: Route, ctx: Ctx, log: seq<Event>)
  {
    var b := ConvertPrefix(env, route.params, ctx, |route.params|);
    LogShape(env, route, b.slots, b.ctx, log)
  }

  /** The first loop of the invoker: slots start null; convertor `i` runs once, in order,
      and writes slot `i` only. */
  method ConvertAll(env: Platform, params: seq<Param>, ctx: Ctx)
    returns (args: seq<Option<Value>>, c: Ctx, events: seq<Event>)
    ensures Bound(args, c) == ConvertPrefix(env, params, ctx, |params|)
    ensures |events| == |params|
    ensures forall i :: 0 <= i < |params| ==> events[i] == Converted(i, args[i])
  {
    var n := |params|;
    args := seq(n, _ => None);
    c := ctx;
    events := [];
    var i := 0;
    while i < n
      invariant 0 <= i <= n
      invariant |args| == n && |events| == i
      invariant Bound(args[..i], c) == ConvertPrefix(env, params, ctx, i)
      invariant forall j :: 0 <= j < i ==> events[j] == Converted(j, args[j])
    {
      var r := ConvertParam(env, params[i], c);
      WriteSlot(env, params, ctx, i, args, c);
      args := args[i := r.0];
      c := r.1;
      events := events + [Converted(i, r.0)];
      i := i + 1;
    }
    assert args[..n] == args;
  }

  /** Writing convertor `i`'s result into slot `i` extends the converted prefix by one. */
  lemma WriteSlot(env: Platform, params: seq<Param>, ctx: Ctx, i: nat, args: seq<Option<Value>>, c: Ctx)
    requires i < |params| && i < |args|
    requires Bound(args[..i], c) == ConvertPrefix(env, params, ctx, i)
    ensures var r := ConvertParam(env, params[i], c);
            Bound(args[i := r.0][..i + 1], r.1) == ConvertPrefix(env, params, ctx, i + 1)
  {
    var r := ConvertParam(env, params[i], c);
    ConvertPrefixStep(env, params, ctx, i, args[..i], c);
    UpdateThenTake(args, i, r.0);
  }

  lemma UpdateThenTake<T>(a: seq<T>, i: nat, x: T)
    requires i < |a|
    ensures a[i := x][..i + 1] == a[..i] + [x]
  {
    assert a[i := x][..i + 1] == a[..i] + [x];
  }

  /** The second loop of the invoker: cleaner `i` runs once on slot `i`, in order. */
  method CleanAll(env: Platform, params: seq<Param>, args: seq<Option<Value>>) returns (events: seq<Event>)
    requires |args| == |params|
    ensures |events| == |params|
    ensures forall i :: 0 <= i < |params| ==> events[i] == Cleaned(i, Clean(env, params[i].ty, args[i]))
  {
    events := [];
    var i := 0;
    while i < |params|
      invariant 0 <= i <= |params|
      invariant |events| == i
      invariant forall j :: 0 <= j < i ==> events[j] == Cleaned(j, Clean(env, params[j].ty, args[j]))
    {
      events := events + [Cleaned(i, Clean(env, params[i].ty, args[i]))];
      i := i + 1;
    }
  }

  /** The lambda `make_invoker` returns, applied to a context. */
  method Invoke(env: Platform, route: Route, ctx: Ctx) returns (log: seq<Event>)
    ensures InvokeSpec(env, route, ctx, log)
  {
    var args, c, converted := ConvertAll(env, route.params, ctx);
    var cleaned := CleanAll(env, route.params, args);
    log := converted + [Called(route.handler, c, args)] + cleaned;
    AssembleLog(env, route, args, c, converted, cleaned);
  }

  /** Concatenating the conversion events, the call and the cleaner events gives the shape. */
  lemma AssembleLog(env: Platform, route: Route, args: seq<Option<Value>>, c: Ctx,
                    converted: seq<Event>, cleaned: seq<Event>)
    requires |args| == |route.params| && |converted| == |args| && |cleaned| == |args|
    requires forall i :: 0 <= i < |args| ==> converted[i] == Converted(i, args[i])
    requires forall i :: 0 <= i < |args| ==> cleaned[i] == Cleaned(i, Clean(env, route.params[i].ty, args[i]))
    ensures LogShape(env, route, args, c, converted + [Called(route.handler, c, args)] + cleaned)
  {
    var n := |args|;
    var log := converted + [Called(route.handler, c, args)] + cleaned;
    forall i | n < i < |log|
      ensures log[i] == cleaned[i - n - 1]
    {
    }
  }

  /** Exactly once: the handler is called once, after every conversion and before every
      cleaner; each slot is converted once and cleaned once, and every converted value of a
      type with a cleaner is released by that slot's single cleaner event. */
  lemma InvokeExactlyOnce(env: Platform, route: Route, ctx: Ctx, log: seq<Event>)
    requires InvokeSpec(env, route, ctx, log)
    ensures forall j :: 0 <= j < |log| && log[j].Called? ==> j == |route.params|
    ensures forall j :: 0 <= j < |log| && log[j].Converted? ==> j == log[j].slot < |route.params|
    ensures forall j :: 0 <= j < |log| && log[j].Cleaned? ==> j == |route.params| + 1 + log[j].slot
    ensures forall i :: 0 <= i < |route.params| && HasCleaner(env, route.params[i].ty) ==>
              log[|route.params| + 1 + i] == Cleaned(i, log[i].value)
  {
    var b := ConvertPrefix(env, route.params, ctx, |route.params|);
    ShapeExactlyOnce(env, route, b.slots, b.ctx, log);
  }

  /** The exactly-once facts hold for any log of the invoker's shape. */
  lemma ShapeExactlyOnce(env: Platform, route: Route, slots: seq<Option<Value>>, c: Ctx, log: seq<Event>)
    requires |slots| == |route.params| && LogShape(env, route, slots, c, log)
    ensures forall j :: 0 <= j < |log| && log[j].Called? ==> j == |route.params|
    ensures forall j :: 0 <= j < |log| && log[j].Converted? ==> j == log[j].slot < |route.params|
    ensures forall j :: 0 <= j < |log| && log[j].Cleaned? ==> j == |route.params| + 1 + log[j].slot
    ensures forall i :: 0 <= i < |route.params| && HasCleaner(env, route.params[i].ty) ==>
              log[|route.params| + 1 + i] == Cleaned(i, log[i].value)
  {
    var n := |route.params|;
    forall i | 0 <= i < n && HasCleaner(env, route.params[i].ty)
      ensures log[n + 1 + i] == Cleaned(i, log[i].value)
    {
      assert log[n + 1 + i] == Cleaned(n + 1 + i - n - 1, Clean(env, route.params[n + 1 + i - n - 1].ty, slots[n + 1 + i - n - 1]));
    }
  }
}
