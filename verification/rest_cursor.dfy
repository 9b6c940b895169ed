/** The rest-argument cursor of a request context (`Ctx::rest_begin`, `has_rest_arg`,
    `get_rest_arg`): one position into the path with the query removed, which either
    points at the next `/`-delimited segment or is exhausted (`npos`). */
module RestCursor {
  import opened Text

  /** `rest_begin`: a position, or `npos` once the segments are used up. */
  datatype Cursor = At(pos: nat) | Exhausted

  /** What one `get_rest_arg` call returns, and where it leaves the cursor. */
  datatype Step = Step(seg: string, next: Cursor)

  /** `has_rest_arg`: the cursor has not been exhausted yet. */
  predicate HasRestArg(c: Cursor)
  {
    c.At?
  }

  /** The cursor never moves backwards, and once exhausted it stays exhausted. */
  predicate Advances(c: Cursor, c': Cursor)
  {
    c'.Exhausted? || (c.At? && c'.At? && c.pos < c'.pos)
  }

  /** How many `get_rest_arg` calls can still change the cursor. */
  function Remaining(path: string, c: Cursor): nat
  {
    match c
    case Exhausted => 0
    case At(p) => if p <= |path| then |path| - p + 1 else 1
  }

  /** `get_rest_arg` over `path` (the url with its query removed). */
  function GetRestArg(path: string, c: Cursor): (r: Step)
    ensures '/' !in r.seg
    ensures c.Exhausted? ==> r == Step([], Exhausted)
    ensures Advances(c, r.next)
    ensures c.At? ==> Remaining(path, r.next) < Remaining(path, c)
    ensures c.At? && c.pos < |path| ==> c.pos + |r.seg| <= |path| && r.seg == path[c.pos..c.pos + |r.seg|]
    ensures c.At? && c.pos >= |path| ==> r == Step([], Exhausted)
  {
    match c
    case Exhausted => Step([], Exhausted)
    case At(p) =>
      if p >= |path| then Step([], Exhausted)
      else
        var remain := path[p..];
        var off := IndexOf(remain, '/');
        if off == |remain| then Step(remain, Exhausted)
        else Step(remain[..off], At(p + off + 1))
  }

  /** The segments read by calling `get_rest_arg` while `has_rest_arg` holds. */
  function Drain(path: string, c: Cursor): (segs: seq<string>)
    ensures segs == [] <==> !HasRestArg(c)
    ensures forall i :: 0 <= i < |segs| ==> '/' !in segs[i]
    decreases Remaining(path, c)
  {
    if !HasRestArg(c) then []
    else
      var s := GetRestArg(path, c);
      [s.seg] + Drain(path, s.next)
  }

  /** Draining from a position inside the path reads exactly the `/`-split of what is left. */
  lemma {:induction false} DrainIsSplit(path: string, p: nat)
    requires p <= |path|
    ensures Drain(path, At(p)) == Split(path[p..], '/')
    decreases |path| - p
  {
    var remain := path[p..];
    var step := GetRestArg(path, At(p));
    assert Drain(path, At(p)) == [step.seg] + Drain(path, step.next);
    if p == |path| {
      assert remain == [];
      assert Split(remain, '/') == [remain];
    } else {
      var off := IndexOf(remain, '/');
      if off == |remain| {
        assert step == Step(remain, Exhausted);
        assert Split(remain, '/') == [remain];
      } else {
        var q := p + off + 1;
        var tail := remain[off + 1..];
        assert step == Step(remain[..off], At(q));
        DrainIsSplit(path, q);
        assert path[q..] == tail;
        SplitAt(remain, '/');
      }
    }
  }

  /** A cursor past the end yields one empty segment and is then exhausted. */
  lemma DrainPastEnd(path: string, p: nat)
    requires p > |path|
    ensures Drain(path, At(p)) == [[]]
  {
  }

  /** Rest-cursor round trip: the drained segments, joined with `/`, are the rest of the
      path, and there is one more segment than there are `/` in it. */
  lemma RestRoundTrip(path: string, p: nat)
    requires p <= |path|
    ensures Join(Drain(path, At(p)), '/') == path[p..]
    ensures |Drain(path, At(p))| == Count(path[p..], '/') + 1
  {
    DrainIsSplit(path, p);
    SplitThenJoin(path[p..], '/');
    SplitCount(path[p..], '/');
  }
}
