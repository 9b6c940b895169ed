/** Character searches and splitting over strings, the `std::string_view` operations the
    request context and the route matcher are built from. A search that finds nothing
    answers `|s|` (for `find`) or `None` (for `rfind`), standing for `npos`. */
module Text {
  import opened Wrappers

  /** `s.find(c)` / `s.find_first_of(c)`: the index of the first `c`, or `|s|` if there is none. */
  function IndexOf(s: string, c: char): (i: nat)
    ensures i <= |s|
    ensures i < |s| ==> s[i] == c
    ensures forall j :: 0 <= j < i ==> s[j] != c
  {
    if s == [] then 0
    else if s[0] == c then 0
    else 1 + IndexOf(s[1..], c)
  }

  /** `s.rfind(c, from)`: the last index at or before `from` that holds `c`, if any. */
  function FindLast(s: string, c: char, from: nat): (r: Option<nat>)
    ensures r.Some? ==> r.value <= from && r.value < |s| && s[r.value] == c
    ensures r.Some? ==> forall j :: r.value < j <= from && j < |s| ==> s[j] != c
    ensures r.None? ==> forall j :: 0 <= j <= from && j < |s| ==> s[j] != c
    decreases from
  {
    if |s| == 0 then None
    else if from >= |s| then FindLast(s, c, |s| - 1)
    else if s[from] == c then Some(from)
    else if from == 0 then None
    else FindLast(s, c, from - 1)
  }

  /** The pieces of `s` between occurrences of `sep`; there is always at least one piece. */
  function Split(s: string, sep: char): (parts: seq<string>)
    ensures |parts| >= 1
    ensures forall i :: 0 <= i < |parts| ==> sep !in parts[i]
    decreases |s|
  {
    var i := IndexOf(s, sep);
    if i == |s| then [s]
    else [s[..i]] + Split(s[i + 1..], sep)
  }

  /** The pieces glued back together with `sep` between neighbours. */
  function Join(parts: seq<string>, sep: char): string
  {
    if parts == [] then []
    else if |parts| == 1 then parts[0]
    else parts[0] + [sep] + Join(parts[1..], sep)
  }

  /** Number of occurrences of `c` in `s`. */
  function Count(s: string, c: char): nat
  {
    if s == [] then 0
    else (if s[0] == c then 1 else 0) + Count(s[1..], c)
  }

  /** `IndexOf` is pinned down by its contract: the first index holding `c`, else `|s|`. */
  lemma IndexOfIs(s: string, c: char, i: nat)
    requires i <= |s| && (i < |s| ==> s[i] == c)
    requires forall j :: 0 <= j < i ==> s[j] != c
    ensures IndexOf(s, c) == i
  {
  }

  /** The search runs off the end exactly when the character does not occur. */
  lemma IndexOfMissing(s: string, c: char)
    ensures IndexOf(s, c) == |s| <==> c !in s
  {
    var i := IndexOf(s, c);
    if i < |s| {
      assert s[i] == c;
    }
  }

  /** Searching a prefix finds the same first occurrence, if it lies inside the prefix. */
  lemma IndexOfPrefix(s: string, c: char, k: nat)
    requires k <= |s|
    ensures IndexOf(s[..k], c) == if IndexOf(s, c) < k then IndexOf(s, c) else k
  {
    var i := IndexOf(s, c);
    if i < k {
      assert s[..k][i] == c;
    }
  }

  /** In `a + [c] + b` with no `c` in `a`, the first `c` is the one right after `a`. */
  lemma IndexOfAfter(a: string, c: char, b: string)
    requires c !in a
    ensures IndexOf(a + [c] + b, c) == |a|
  {
    var s := a + [c] + b;
    assert s[|a|] == c;
  }

  /** One step of `Split`: the first piece, then the split of what follows the separator. */
  lemma SplitAt(s: string, sep: char)
    requires IndexOf(s, sep) < |s|
    ensures Split(s, sep) == [s[..IndexOf(s, sep)]] + Split(s[IndexOf(s, sep) + 1..], sep)
  {
  }

  /** Joining a piece in front of a non-empty list puts one separator between them. */
  lemma JoinCons(a: string, ps: seq<string>, sep: char)
    requires |ps| >= 1
    ensures Join([a] + ps, sep) == a + [sep] + Join(ps, sep)
  {
    assert ([a] + ps)[0] == a;
    assert ([a] + ps)[1..] == ps;
  }

  /** Splitting then joining gives back the original string. */
  lemma {:induction false} SplitThenJoin(s: string, sep: char)
    ensures Join(Split(s, sep), sep) == s
    decreases |s|
  {
    var i := IndexOf(s, sep);
    if i < |s| {
      var rest := s[i + 1..];
      SplitAt(s, sep);
      SplitThenJoin(rest, sep);
      JoinCons(s[..i], Split(rest, sep), sep);
      assert s == s[..i] + [sep] + rest;
    }
  }

  /** Joining separator-free pieces then splitting gives back the pieces. */
  lemma {:induction false} JoinThenSplit(parts: seq<string>, sep: char)
    requires |parts| >= 1
    requires forall i :: 0 <= i < |parts| ==> sep !in parts[i]
    ensures Split(Join(parts, sep), sep) == parts
    decreases |parts|
  {
    if |parts| > 1 {
      var rest := Join(parts[1..], sep);
      var s := parts[0] + [sep] + rest;
      assert parts == [parts[0]] + parts[1..];
      JoinCons(parts[0], parts[1..], sep);
      IndexOfAfter(parts[0], sep, rest);
      SplitAt(s, sep);
      assert s[..|parts[0]|] == parts[0];
      assert s[|parts[0]| + 1..] == rest;
      JoinThenSplit(parts[1..], sep);
    } else {
      IndexOfMissing(parts[0], sep);
    }
  }

  lemma {:induction false} CountConcat(a: string, b: string, c: char)
    ensures Count(a + b, c) == Count(a, c) + Count(b, c)
    decreases |a|
  {
    if a == [] {
      assert a + b == b;
    } else {
      assert (a + b)[1..] == a[1..] + b;
      CountConcat(a[1..], b, c);
    }
  }

  lemma {:induction false} CountAbsent(s: string, c: char)
    requires c !in s
    ensures Count(s, c) == 0
    decreases |s|
  {
    if s != [] {
      CountAbsent(s[1..], c);
    }
  }

  /** A string splits into one more piece than it has separators. */
  lemma {:induction false} SplitCount(s: string, sep: char)
    ensures |Split(s, sep)| == Count(s, sep) + 1
    decreases |s|
  {
    var i := IndexOf(s, sep);
    if i == |s| {
      CountAbsent(s, sep);
    } else {
      var rest := s[i + 1..];
      SplitCount(rest, sep);
      assert s == s[..i] + ([sep] + rest);
      CountConcat(s[..i], [sep] + rest, sep);
      CountConcat([sep], rest, sep);
      CountAbsent(s[..i], sep);
    }
  }
}
