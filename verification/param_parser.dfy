/** Query-string and form-body parsing (`Ctx::get_url_params`, `parse_url_params`,
    `parse_content_params`): the source is split on `&`, each piece on its first `=`;
    malformed pieces are skipped and a later key overwrites an earlier one. */
module ParamParser {
  import opened Wrappers
  import opened Text

  type Params = map<string, string>

  /** `ctx.urlWithoutParams`: the url up to its first `?`. */
  function PathPart(url: string): (p: string)
    ensures '?' !in p
    ensures |p| <= |url|
  {
    url[..IndexOf(url, '?')]
  }

  /** `get_url_params`: the text after the first `?`, or empty when there is no `?`. */
  function QueryString(url: string): (q: string)
    ensures '?' !in url ==> q == []
  {
    var pos := IndexOf(url, '?');
    if pos == |url| then [] else url[pos + 1..]
  }

  /** The url is its path part, followed (when present) by `?` and the query string. */
  lemma UrlSplitsAtFirstQuery(url: string)
    ensures '?' !in url ==> PathPart(url) == url
    ensures '?' in url ==> url == PathPart(url) + "?" + QueryString(url)
  {
    var pos := IndexOf(url, '?');
    if pos < |url| {
      assert url == url[..pos] + [url[pos]] + url[pos + 1..];
    }
  }

  /** A url assembled from a `?`-free path and a query splits back into exactly those two. */
  lemma QueryAfterPath(path: string, query: string)
    requires '?' !in path
    ensures PathPart(path + "?" + query) == path
    ensures QueryString(path + "?" + query) == query
  {
    var url := path + "?" + query;
    assert url == path + ['?'] + query;
    IndexOfAfter(path, '?', query);
    assert url[..|path|] == path;
    assert url[|path| + 1..] == query;
  }

  /** One `&`-free piece read as `key=value` at its first `=`; `None` when it is skipped. */
  datatype Pair = Pair(key: string, value: string)

  function Entry(seg: string): (e: Option<Pair>)
    ensures e.Some? ==> e.value.key != [] && '=' !in e.value.key
    ensures e.Some? ==> seg == e.value.key + "=" + e.value.value
  {
    var i := IndexOf(seg, '=');
    if 0 < i < |seg| then Some(Pair(seg[..i], seg[i + 1..])) else None
  }

  /** One segment's effect on the table. */
  function Apply(m: Params, seg: string): Params
  {
    match Entry(seg)
    case None => m
    case Some(e) => m[e.key := e.value]
  }

  /** The left fold of `Apply` over the segments. */
  function Fold(m: Params, segs: seq<string>): Params
    decreases |segs|
  {
    if segs == [] then m else Fold(Apply(m, segs[0]), segs[1..])
  }

  /** Reference reading: the value carried by the LAST segment whose key is `k`. */
  function LastValue(segs: seq<string>, k: string): Option<string>
    decreases |segs|
  {
    if segs == [] then None
    else
      var e := Entry(segs[|segs| - 1]);
      if e.Some? && e.value.key == k then Some(e.value.value)
      else LastValue(segs[..|segs| - 1], k)
  }

  /** The `while (!params.empty())` loop of `parse_url_params` / `parse_content_params`,
      with `|params|` standing for `npos`. */
  function Scan(m: Params, params: string): (r: Params)
    ensures forall k :: k in m ==> k in r
    decreases |params|
  {
    if params == [] then m
    else
      var pos1 := IndexOf(params, '=');
      var pos2 := IndexOf(params, '&');
      if pos1 == |params| then m
      else
        var m' := if pos2 > pos1 && pos1 != 0 then m[params[..pos1] := params[pos1 + 1..pos2]] else m;
        if pos2 == |params| then m' else Scan(m', params[pos2 + 1..])
  }

  /** `parse_url_params`: the table built from the query string of `url`. */
  function ParseUrlParams(url: string): (r: Params)
    ensures forall k :: k in r <==> LastValue(Split(QueryString(url), '&'), k).Some?
    ensures forall k :: k in r ==> r[k] == LastValue(Split(QueryString(url), '&'), k).value
  {
    ParsedTable(QueryString(url));
    Scan(map[], QueryString(url))
  }

  /** `parse_content_params`: the table built from the request body. */
  function ParseContentParams(body: string): (r: Params)
    ensures forall k :: k in r <==> LastValue(Split(body, '&'), k).Some?
    ensures forall k :: k in r ==> r[k] == LastValue(Split(body, '&'), k).value
  {
    ParsedTable(body);
    Scan(map[], body)
  }

  lemma {:induction false} FoldSnoc(m: Params, segs: seq<string>, x: string)
    ensures Fold(m, segs + [x]) == Apply(Fold(m, segs), x)
    decreases |segs|
  {
    if segs == [] {
      assert segs + [x] == [x];
    } else {
      assert (segs + [x])[1..] == segs[1..] + [x];
      FoldSnoc(Apply(m, segs[0]), segs[1..], x);
    }
  }

  /** Pieces without any `=` change nothing. */
  lemma {:induction false} FoldWithoutEquals(m: Params, s: string)
    requires '=' !in s
    ensures Fold(m, Split(s, '&')) == m
    decreases |s|
  {
    var i := IndexOf(s, '&');
    if i == |s| {
      assert Split(s, '&') == [s];
    } else {
      SplitAt(s, '&');
      assert '=' !in s[..i];
      assert '=' !in s[i + 1..];
      FoldWithoutEquals(m, s[i + 1..]);
    }
  }

  /** A first piece with a non-empty key before its `=` is stored. */
  lemma ApplyFirstPair(m: Params, params: string)
    requires 0 < IndexOf(params, '=') < IndexOf(params, '&')
    ensures var pos1 := IndexOf(params, '=');
            var pos2 := IndexOf(params, '&');
            Apply(m, params[..pos2]) == m[params[..pos1] := params[pos1 + 1..pos2]]
  {
    var pos1 := IndexOf(params, '=');
    var pos2 := IndexOf(params, '&');
    var seg := params[..pos2];
    IndexOfPrefix(params, '=', pos2);
    assert IndexOf(seg, '=') == pos1;
    assert seg[..pos1] == params[..pos1];
    assert seg[pos1 + 1..] == params[pos1 + 1..pos2];
  }

  /** A first piece with an empty key, or without `=`, is skipped. */
  lemma ApplyFirstSkipped(m: Params, params: string)
    requires IndexOf(params, '=') < |params|
    requires IndexOf(params, '=') == 0 || IndexOf(params, '&') < IndexOf(params, '=')
    ensures Apply(m, params[..IndexOf(params, '&')]) == m
  {
    var pos2 := IndexOf(params, '&');
    IndexOfPrefix(params, '=', pos2);
  }

  /** The first `&`-piece is handled by the loop exactly as `Apply` handles it. */
  lemma ApplyFirstSegment(m: Params, params: string)
    requires IndexOf(params, '=') < |params|
    ensures var pos1 := IndexOf(params, '=');
            var pos2 := IndexOf(params, '&');
            Apply(m, params[..pos2])
            == if pos2 > pos1 && pos1 != 0 then m[params[..pos1] := params[pos1 + 1..pos2]] else m
  {
    var pos1 := IndexOf(params, '=');
    var pos2 := IndexOf(params, '&');
    if pos2 > pos1 && pos1 != 0 {
      ApplyFirstPair(m, params);
    } else {
      assert pos1 != pos2;
      ApplyFirstSkipped(m, params);
    }
  }

  /** One turn of the scanning loop when another `&` follows. */
  lemma ScanStep(m: Params, params: string)
    requires IndexOf(params, '=') < |params|
    requires IndexOf(params, '&') < |params|
    ensures var pos1 := IndexOf(params, '=');
            var pos2 := IndexOf(params, '&');
            var m' := if pos2 > pos1 && pos1 != 0 then m[params[..pos1] := params[pos1 + 1..pos2]] else m;
            Scan(m, params) == Scan(m', params[pos2 + 1..])
  {
  }

  /** The last turn of the scanning loop, when no `&` follows. */
  lemma ScanLast(m: Params, params: string)
    requires IndexOf(params, '=') < |params|
    requires IndexOf(params, '&') == |params|
    ensures var pos1 := IndexOf(params, '=');
            Scan(m, params) == if pos1 != 0 then m[params[..pos1] := params[pos1 + 1..]] else m
  {
    var pos1 := IndexOf(params, '=');
    assert params != [];
    assert params[pos1 + 1..|params|] == params[pos1 + 1..];
  }

  /** The inductive step of `ScanIsFold`: one more turn of the loop is one more `Apply`. */
  lemma ScanFoldStep(m: Params, params: string)
    requires IndexOf(params, '=') < |params| && IndexOf(params, '&') < |params|
    requires var rest := params[IndexOf(params, '&') + 1..];
             var m' := Apply(m, params[..IndexOf(params, '&')]);
             Scan(m', rest) == Fold(m', Split(rest, '&'))
    ensures Scan(m, params) == Fold(m, Split(params, '&'))
  {
    var pos2 := IndexOf(params, '&');
    var rest := params[pos2 + 1..];
    ApplyFirstSegment(m, params);
    ScanStep(m, params);
    SplitAt(params, '&');
    var segs := Split(params, '&');
    assert segs[0] == params[..pos2] && segs[1..] == Split(rest, '&');
  }

  /** The base cases of `ScanIsFold`: no `=` at all, or no `&` left. */
  lemma ScanFoldLast(m: Params, params: string)
    requires params == [] || IndexOf(params, '=') == |params| || IndexOf(params, '&') == |params|
    ensures Scan(m, params) == Fold(m, Split(params, '&'))
  {
    if params == [] {
      assert Split(params, '&') == [[]];
    } else if IndexOf(params, '=') == |params| {
      IndexOfMissing(params, '=');
      FoldWithoutEquals(m, params);
    } else {
      ApplyFirstSegment(m, params);
      assert params[..|params|] == params;
      assert Split(params, '&') == [params];
    }
  }

  /** Parser as a fold: the scanning loop equals folding `Apply` over the `&`-split. */
  lemma {:induction false} ScanIsFold(m: Params, params: string)
    ensures Scan(m, params) == Fold(m, Split(params, '&'))
    decreases |params|
  {
    if params == [] || IndexOf(params, '=') == |params| || IndexOf(params, '&') == |params| {
      ScanFoldLast(m, params);
    } else {
      var pos2 := IndexOf(params, '&');
      ScanIsFold(Apply(m, params[..pos2]), params[pos2 + 1..]);
      ScanFoldStep(m, params);
    }
  }

  /** A well-formed piece is stored under its key. */
  lemma EntryOfPair(k: string, v: string)
    requires k != [] && '=' !in k
    ensures Entry(k + "=" + v) == Some(Pair(k, v))
  {
    var seg := k + "=" + v;
    assert seg == k + ['='] + v;
    IndexOfAfter(k, '=', v);
    assert seg[..|k|] == k;
    assert seg[|k| + 1..] == v;
  }

  /** The scan handles the piece before the first `&` as `Apply` does, then carries on. */
  lemma ScanSegment(m: Params, a: string, rest: string)
    requires '&' !in a
    ensures Scan(m, a + "&" + rest) == Scan(Apply(m, a), rest)
  {
    var s := a + "&" + rest;
    assert s == a + ['&'] + rest;
    IndexOfAfter(a, '&', rest);
    SplitAt(s, '&');
    assert s[..|a|] == a;
    assert s[|a| + 1..] == rest;
    var segs := Split(s, '&');
    assert segs[0] == a && segs[1..] == Split(rest, '&');
    ScanIsFold(m, s);
    ScanIsFold(Apply(m, a), rest);
  }

  /** The scan of a single piece is that piece's `Apply`. */
  lemma ScanSingle(m: Params, a: string)
    requires '&' !in a
    ensures Scan(m, a) == Apply(m, a)
  {
    IndexOfMissing(a, '&');
    assert Split(a, '&') == [a];
    ScanIsFold(m, a);
  }

  /** A well-formed `key=value&` at the front is stored and scanning resumes after the `&`. */
  lemma ScanPair(m: Params, k: string, v: string, rest: string)
    requires k != [] && '=' !in k && '&' !in k && '&' !in v
    ensures Scan(m, k + "=" + v + "&" + rest) == Scan(m[k := v], rest)
  {
    assert '&' !in k + "=" + v;
    EntryOfPair(k, v);
    ScanSegment(m, k + "=" + v, rest);
  }

  /** A final well-formed `key=value` is stored and ends the scan. */
  lemma ScanFinalPair(m: Params, k: string, v: string)
    requires k != [] && '=' !in k && '&' !in k && '&' !in v
    ensures Scan(m, k + "=" + v) == m[k := v]
  {
    assert '&' !in k + "=" + v;
    EntryOfPair(k, v);
    ScanSingle(m, k + "=" + v);
  }

  /** Last write wins: after the fold, a key holds the value of its last segment, and a key
      no segment names keeps what it had. */
  lemma {:induction false} FoldLastWins(m: Params, segs: seq<string>, k: string)
    ensures LastValue(segs, k).Some? ==> k in Fold(m, segs) && Fold(m, segs)[k] == LastValue(segs, k).value
    ensures LastValue(segs, k).None? ==> (k in Fold(m, segs) <==> k in m)
    ensures LastValue(segs, k).None? && k in m ==> Fold(m, segs)[k] == m[k]
    decreases |segs|
  {
    if segs != [] {
      var init := segs[..|segs| - 1];
      var x := segs[|segs| - 1];
      assert segs == init + [x];
      FoldSnoc(m, init, x);
      FoldLastWins(m, init, k);
    }
  }

  /** The parsed table holds exactly the keys some well-formed segment names, each with the
      value of the last such segment; keys are non-empty and free of `=` and `&`, values free of `&`. */
  lemma ParsedTable(src: string)
    ensures forall k :: k in Scan(map[], src) <==> LastValue(Split(src, '&'), k).Some?
    ensures forall k :: k in Scan(map[], src) ==> Scan(map[], src)[k] == LastValue(Split(src, '&'), k).value
    ensures forall k :: k in Scan(map[], src) ==> k != [] && '=' !in k && '&' !in k && '&' !in Scan(map[], src)[k]
  {
    var segs := Split(src, '&');
    ScanIsFold(map[], src);
    forall k
      ensures k in Scan(map[], src) <==> LastValue(segs, k).Some?
      ensures k in Scan(map[], src) ==> Scan(map[], src)[k] == LastValue(segs, k).value
    {
      FoldLastWins(map[], segs, k);
    }
    forall k | k in Scan(map[], src)
      ensures k != [] && '=' !in k && '&' !in k && '&' !in Scan(map[], src)[k]
    {
      LastValueComesFromSegment(segs, k);
    }
  }

  /** The value `LastValue` finds is carried by one of the segments. */
  lemma {:induction false} LastValueComesFromSegment(segs: seq<string>, k: string)
    requires LastValue(segs, k).Some?
    ensures exists j :: 0 <= j < |segs| && Entry(segs[j]) == Some(Pair(k, LastValue(segs, k).value))
    decreases |segs|
  {
    var e := Entry(segs[|segs| - 1]);
    if e.Some? && e.value.key == k {
      assert Entry(segs[|segs| - 1]) == Some(Pair(k, LastValue(segs, k).value));
    } else {
      LastValueComesFromSegment(segs[..|segs| - 1], k);
      var j :| 0 <= j < |segs| - 1 && Entry(segs[..|segs| - 1][j]) == Some(Pair(k, LastValue(segs, k).value));
      assert segs[..|segs| - 1][j] == segs[j];
    }
  }
}
