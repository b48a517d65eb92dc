/**
 Brace expansion of glob patterns (source/local.rs): the one-pass rewriting of a growing list
 of prefixes computes the cartesian product of the pattern's alternatives.
 */
module Braces {

  import opened Wrappers

  /** A pattern is a sequence of literal characters and brace groups. */
  datatype Piece = Literal(c: char) | Group(alternatives: seq<string>)
  {
    function Choices(): seq<string> {
      match this
      case Literal(c) => [[c]]
      case Group(alternatives) => alternatives
    }
  }

  // ---- reading a pattern -------------------------------------------------

  /** `str::split` on a character. */
  function Split(s: string, sep: char): (parts: seq<string>)
    ensures |parts| >= 1
  {
    if s == [] then [[]]
    else
      var rest := Split(s[1..], sep);
      if s[0] == sep then [[]] + rest else [[s[0]] + rest[0]] + rest[1..]
  }

  /** The text of a group up to its matching brace, or to the end of the pattern, and what follows. */
  function ScanGroup(s: string, depth: nat, group: string): (r: (string, string))
    requires depth >= 1
    ensures |r.1| <= |s|
  {
    if s == [] then (group, [])
    else if s[0] == '{' then ScanGroup(s[1..], depth + 1, group + [s[0]])
    else if s[0] == '}' && depth == 1 then (group, s[1..])
    else ScanGroup(s[1..], if s[0] == '}' then depth - 1 else depth, group + [s[0]])
  }

  function Pieces(pattern: string): seq<Piece>
    decreases |pattern|
  {
    if pattern == [] then []
    else if pattern[0] == '{' then
      var (group, rest) := ScanGroup(pattern[1..], 1, []);
      [Group(Split(group, ','))] + Pieces(rest)
    else [Literal(pattern[0])] + Pieces(pattern[1..])
  }

  // ---- the meaning of a pattern ------------------------------------------

  /** Every `x + y`, with `x` varying slowest. */
  function Cross(xs: seq<string>, ys: seq<string>): seq<string> {
    if xs == [] then [] else Prefixed(xs[0], ys) + Cross(xs[1..], ys)
  }

  function Prefixed(x: string, ys: seq<string>): seq<string> {
    if ys == [] then [] else [x + ys[0]] + Prefixed(x, ys[1..])
  }

  /** The cartesian product of the pieces' choices, the leftmost piece varying slowest. */
  function Product(pieces: seq<Piece>): seq<string> {
    if pieces == [] then [[]] else Cross(pieces[0].Choices(), Product(pieces[1..]))
  }

  function ProductCount(pieces: seq<Piece>): nat {
    if pieces == [] then 1 else |pieces[0].Choices()| * ProductCount(pieces[1..])
  }

  // ---- the algorithm -----------------------------------------------------

  method ExpandBraces(pattern: string) returns (results: seq<string>)
    ensures results == Product(Pieces(pattern))
  {
    results := [[]];
    var i := 0;
    CrossUnit(Product(Pieces(pattern)));
    assert pattern[0..] == pattern;
    while i < |pattern|
      invariant 0 <= i <= |pattern|
      invariant Cross(results, Product(Pieces(pattern[i..]))) == Product(Pieces(pattern))
    {
      var c := pattern[i];
      ghost var before, piece := results, Literal(c);
      assert pattern[i..][1..] == pattern[i + 1..];
      if c == '{' {
        var group;
        group, i := ReadGroup(pattern, i + 1);
        var alternatives := Split(group, ',');
        piece := Group(alternatives);
        results := AppendEach(results, alternatives);
      } else {
        results := PushEach(results, c);
        i := i + 1;
      }
      ProductCons(piece, Pieces(pattern[i..]));
      CrossAssociative(before, piece.Choices(), Product(Pieces(pattern[i..])));
    }
    assert pattern[i..] == [];
    CrossEmptyRight(results);
  }

  /** Consume a group's text up to its matching brace or the end of the pattern. */
  method ReadGroup(pattern: string, start: nat) returns (group: string, i: nat)
    requires start <= |pattern|
    ensures start <= i <= |pattern|
    ensures ScanGroup(pattern[start..], 1, []) == (group, pattern[i..])
  {
    group, i := [], start;
    var depth := 1;
    while i < |pattern|
      invariant start <= i <= |pattern| && depth >= 1
      invariant ScanGroup(pattern[i..], depth, group) == ScanGroup(pattern[start..], 1, [])
    {
      var gc := pattern[i];
      assert pattern[i..][1..] == pattern[i + 1..];
      i := i + 1;
      if gc == '{' {
        depth := depth + 1;
      } else if gc == '}' {
        depth := depth - 1;
        if depth == 0 {
          return;
        }
      }
      group := group + [gc];
    }
  }

  /** Replace every prefix by its concatenations with each alternative. */
  method AppendEach(results: seq<string>, alternatives: seq<string>) returns (next: seq<string>)
    ensures next == Cross(results, alternatives)
  {
    next := [];
    for p := 0 to |results|
      invariant next + Cross(results[p..], alternatives) == Cross(results, alternatives)
    {
      assert results[p..][1..] == results[p + 1..];
      Associate(next, Prefixed(results[p], alternatives), Cross(results[p + 1..], alternatives));
      next := AppendRow(next, results[p], alternatives);
    }
  }

  /** One prefix with each alternative. */
  method AppendRow(before: seq<string>, prefix: string, alternatives: seq<string>) returns (next: seq<string>)
    ensures next == before + Prefixed(prefix, alternatives)
  {
    next := before;
    for a := 0 to |alternatives|
      invariant next + Prefixed(prefix, alternatives[a..]) == before + Prefixed(prefix, alternatives)
    {
      assert alternatives[a..][1..] == alternatives[a + 1..];
      Associate(next, [prefix + alternatives[a]], Prefixed(prefix, alternatives[a + 1..]));
      next := next + [prefix + alternatives[a]];
    }
  }

  /** Push one character onto every prefix. */
  method PushEach(results: seq<string>, c: char) returns (pushed: seq<string>)
    ensures pushed == Cross(results, [[c]])
  {
    pushed := [];
    for p := 0 to |results|
      invariant pushed + Cross(results[p..], [[c]]) == Cross(results, [[c]])
    {
      assert results[p..][1..] == results[p + 1..];
      PrefixedAt(results[p], [[c]]);
      assert Prefixed(results[p], [[c]]) == [results[p] + [c]];
      pushed := pushed + [results[p] + [c]];
    }
  }

  // ---- algebra of the product --------------------------------------------

  lemma ProductCons(piece: Piece, pieces: seq<Piece>)
    ensures Product([piece] + pieces) == Cross(piece.Choices(), Product(pieces))
  {
    assert ([piece] + pieces)[1..] == pieces;
  }

  lemma {:induction false} PrefixedAt(x: string, ys: seq<string>)
    ensures |Prefixed(x, ys)| == |ys|
    ensures forall j :: 0 <= j < |ys| ==> Prefixed(x, ys)[j] == x + ys[j]
  {
    if ys != [] { PrefixedAt(x, ys[1..]); }
  }

  lemma {:induction false} CrossConcat(xs: seq<string>, xs': seq<string>, ys: seq<string>)
    ensures Cross(xs + xs', ys) == Cross(xs, ys) + Cross(xs', ys)
  {
    if xs == [] {
      assert xs + xs' == xs';
    } else {
      assert (xs + xs')[1..] == xs[1..] + xs';
      CrossConcat(xs[1..], xs', ys);
    }
  }

  lemma {:induction false} PrefixedConcat(x: string, ys: seq<string>, ys': seq<string>)
    ensures Prefixed(x, ys + ys') == Prefixed(x, ys) + Prefixed(x, ys')
  {
    if ys == [] {
      assert ys + ys' == ys';
    } else {
      assert (ys + ys')[1..] == ys[1..] + ys';
      PrefixedConcat(x, ys[1..], ys');
    }
  }

  lemma {:induction false} PrefixedTwice(x: string, y: string, zs: seq<string>)
    ensures Prefixed(x, Prefixed(y, zs)) == Prefixed(x + y, zs)
  {
    if zs != [] {
      PrefixedTwice(x, y, zs[1..]);
      assert x + (y + zs[0]) == x + y + zs[0];
    }
  }

  lemma {:induction false} CrossPrefixed(x: string, ys: seq<string>, zs: seq<string>)
    ensures Cross(Prefixed(x, ys), zs) == Prefixed(x, Cross(ys, zs))
  {
    if ys != [] {
      CrossPrefixed(x, ys[1..], zs);
      PrefixedTwice(x, ys[0], zs);
      PrefixedConcat(x, Prefixed(ys[0], zs), Cross(ys[1..], zs));
    }
  }

  lemma {:induction false} CrossAssociative(xs: seq<string>, ys: seq<string>, zs: seq<string>)
    ensures Cross(Cross(xs, ys), zs) == Cross(xs, Cross(ys, zs))
  {
    if xs != [] {
      CrossAssociative(xs[1..], ys, zs);
      CrossConcat(Prefixed(xs[0], ys), Cross(xs[1..], ys), zs);
      CrossPrefixed(xs[0], ys, zs);
    }
  }

  lemma {:induction false} PrefixedUnit(ys: seq<string>)
    ensures Prefixed([], ys) == ys
  {
    if ys != [] { PrefixedUnit(ys[1..]); assert [] + ys[0] == ys[0]; }
  }

  lemma CrossUnit(ys: seq<string>)
    ensures Cross([[]], ys) == ys
  {
    PrefixedUnit(ys);
  }

  lemma {:induction false} CrossEmptyRight(xs: seq<string>)
    ensures Cross(xs, [[]]) == xs
  {
    if xs != [] {
      CrossEmptyRight(xs[1..]);
      PrefixedAt(xs[0], [[]]);
      assert xs[0] + [] == xs[0];
      assert xs == [xs[0]] + xs[1..];
    }
  }

  /** Position `i * |ys| + j` of a product holds `xs[i] + ys[j]`: the left factor varies slowest. */
  lemma {:induction false} CrossAt(xs: seq<string>, ys: seq<string>, i: nat, j: nat)
    requires i < |xs| && j < |ys|
    ensures |Cross(xs, ys)| == |xs| * |ys|
    ensures 0 <= i * |ys| + j < |xs| * |ys|
    ensures Cross(xs, ys)[i * |ys| + j] == xs[i] + ys[j]
  {
    CrossLength(xs, ys);
    PrefixedAt(xs[0], ys);
    if i > 0 {
      CrossAt(xs[1..], ys, i - 1, j);
      assert i * |ys| + j == |ys| + ((i - 1) * |ys| + j);
      assert |xs[1..]| == |xs| - 1;
      assert |xs| * |ys| == |ys| + (|xs| - 1) * |ys|;
    } else {
      CrossLength(xs[1..], ys);
    }
  }

  lemma {:induction false} CrossLength(xs: seq<string>, ys: seq<string>)
    ensures |Cross(xs, ys)| == |xs| * |ys|
  {
    if xs != [] {
      PrefixedAt(xs[0], ys);
      CrossLength(xs[1..], ys);
      assert |xs| * |ys| == |ys| + (|xs| - 1) * |ys|;
    }
  }

  /** An expansion has as many results as the product of the numbers of alternatives. */
  lemma {:induction false} ProductLength(pieces: seq<Piece>)
    ensures |Product(pieces)| == ProductCount(pieces)
  {
    if pieces != [] {
      ProductLength(pieces[1..]);
      CrossLength(pieces[0].Choices(), Product(pieces[1..]));
    }
  }

  // ---- printing and reading ----------------------------------------------

  predicate Plain(s: string) {
    forall i :: 0 <= i < |s| ==> s[i] != '{' && s[i] != '}'
  }

  /** Literals without braces; groups of at least one alternative, none holding a brace or a comma. */
  predicate WellFormed(pieces: seq<Piece>) {
    forall i :: 0 <= i < |pieces| ==> WellFormedPiece(pieces[i])
  }

  predicate WellFormedPiece(piece: Piece) {
    match piece
    case Literal(c) => c != '{' && c != '}'
    case Group(alternatives) =>
      alternatives != [] && forall i :: 0 <= i < |alternatives| ==> Plain(alternatives[i]) && ',' !in alternatives[i]
  }

  function Join(parts: seq<string>): string
    requires parts != []
  {
    if |parts| == 1 then parts[0] else parts[0] + "," + Join(parts[1..])
  }

  function Print(pieces: seq<Piece>): string
    requires WellFormed(pieces)
  {
    if pieces == [] then []
    else
      assert WellFormedPiece(pieces[0]);
      var head := match pieces[0] case Literal(c) => [c] case Group(alternatives) => "{" + Join(alternatives) + "}";
      head + Print(pieces[1..])
  }

  lemma {:induction false} SplitPlain(a: string)
    requires ',' !in a
    ensures Split(a, ',') == [a]
  {
    if a != [] { SplitPlain(a[1..]); assert a == [a[0]] + a[1..]; }
  }

  lemma {:induction false} SplitFirst(a: string, rest: string)
    requires ',' !in a
    ensures Split(a + "," + rest, ',') == [a] + Split(rest, ',')
  {
    var s := a + "," + rest;
    if a == [] {
      assert s[1..] == rest;
    } else {
      assert s[1..] == a[1..] + "," + rest;
      SplitFirst(a[1..], rest);
      assert a == [a[0]] + a[1..];
    }
  }

  lemma {:induction false} SplitJoin(parts: seq<string>)
    requires parts != [] && forall i :: 0 <= i < |parts| ==> ',' !in parts[i]
    ensures Split(Join(parts), ',') == parts
  {
    if |parts| == 1 {
      SplitPlain(parts[0]);
    } else {
      SplitFirst(parts[0], Join(parts[1..]));
      SplitJoin(parts[1..]);
    }
  }

  lemma {:induction false} ScanPlain(text: string, rest: string, group: string)
    requires Plain(text)
    ensures ScanGroup(text + "}" + rest, 1, group) == (group + text, rest)
  {
    var s := text + "}" + rest;
    if text == [] {
      assert s[1..] == rest && group + text == group;
    } else {
      assert s[1..] == text[1..] + "}" + rest;
      ScanPlain(text[1..], rest, group + [text[0]]);
      assert group + [text[0]] + text[1..] == group + text;
    }
  }

  lemma {:induction false} JoinPlain(parts: seq<string>)
    requires parts != [] && forall i :: 0 <= i < |parts| ==> Plain(parts[i])
    ensures Plain(Join(parts))
  {
    if |parts| > 1 { JoinPlain(parts[1..]); }
  }

  /** Reading back a printed pattern gives its pieces. */
  lemma {:induction false} PiecesOfPrint(pieces: seq<Piece>)
    requires WellFormed(pieces)
    ensures Pieces(Print(pieces)) == pieces
  {
    if pieces != [] {
      assert WellFormedPiece(pieces[0]);
      var tail := Print(pieces[1..]);
      PiecesOfPrint(pieces[1..]);
      match pieces[0] {
        case Literal(c) =>
          assert Print(pieces)[1..] == tail;
        case Group(alternatives) =>
          JoinPlain(alternatives);
          SplitJoin(alternatives);
          assert Print(pieces)[1..] == Join(alternatives) + "}" + tail;
          ScanPlain(Join(alternatives), tail, []);
          assert [] + Join(alternatives) == Join(alternatives);
      }
      assert pieces == [pieces[0]] + pieces[1..];
    }
  }

  lemma {:induction false} CrossPlain(xs: seq<string>, ys: seq<string>)
    requires forall i :: 0 <= i < |xs| ==> Plain(xs[i])
    requires forall j :: 0 <= j < |ys| ==> Plain(ys[j])
    ensures forall k :: 0 <= k < |Cross(xs, ys)| ==> Plain(Cross(xs, ys)[k])
  {
    if xs != [] {
      CrossPlain(xs[1..], ys);
      PrefixedAt(xs[0], ys);
      forall j | 0 <= j < |ys| ensures Plain(Prefixed(xs[0], ys)[j]) {
        assert Plain(xs[0]) && Plain(ys[j]);
      }
    }
  }

  lemma {:induction false} ProductPlain(pieces: seq<Piece>)
    requires WellFormed(pieces)
    ensures forall k :: 0 <= k < |Product(pieces)| ==> Plain(Product(pieces)[k])
  {
    if pieces != [] {
      ProductPlain(pieces[1..]);
      assert WellFormedPiece(pieces[0]);
      CrossPlain(pieces[0].Choices(), Product(pieces[1..]));
    }
  }

  /**
   Brace expansion of a printed pattern is its cartesian product: as many results as the
   alternatives multiply to, and none holding a brace.
   */
  lemma ExpansionOfPrint(pieces: seq<Piece>)
    requires WellFormed(pieces)
    ensures Product(Pieces(Print(pieces))) == Product(pieces)
    ensures |Product(Pieces(Print(pieces)))| == ProductCount(pieces)
    ensures forall k :: 0 <= k < ProductCount(pieces) ==> Plain(Product(Pieces(Print(pieces)))[k])
  {
    PiecesOfPrint(pieces);
    ProductLength(pieces);
    ProductPlain(pieces);
  }

  /** A pattern without an opening brace expands to itself. */
  lemma {:induction false} NoBracesPassthrough(pattern: string)
    requires forall i :: 0 <= i < |pattern| ==> pattern[i] != '{'
    ensures Product(Pieces(pattern)) == [pattern]
  {
    if pattern != [] {
      NoBracesPassthrough(pattern[1..]);
      ProductCons(Literal(pattern[0]), Pieces(pattern[1..]));
      PrefixedAt([pattern[0]], [pattern[1..]]);
      assert Cross([[pattern[0]]], [pattern[1..]]) == Prefixed([pattern[0]], [pattern[1..]]) + [];
      assert pattern == [pattern[0]] + pattern[1..];
    }
  }

  // ---- any pattern -----------------------------------------------------------

  /** How many groups are open after the first `n` characters, starting from `depth`. */
  function Level(s: string, depth: int, n: nat): int
    requires n <= |s|
  {
    if n == 0 then depth
    else Level(s, depth, n - 1) + (if s[n - 1] == '{' then 1 else if s[n - 1] == '}' then -1 else 0)
  }

  lemma {:induction false} LevelTail(s: string, depth: int, n: nat)
    requires n < |s|
    ensures Level(s, depth, n + 1) == Level(s[1..], Level(s, depth, 1), n)
  {
    if n > 0 { LevelTail(s, depth, n - 1); }
  }

  /** Character `n` closes the outermost group. */
  ghost predicate ClosesAt(s: string, depth: int, n: nat) {
    n < |s| && Level(s, depth, n + 1) == 0 && forall k :: 0 <= k <= n ==> Level(s, depth, k) > 0
  }

  ghost predicate NeverCloses(s: string, depth: int) {
    forall k :: 0 <= k <= |s| ==> Level(s, depth, k) > 0
  }

  /** The levels of a text are those of its tail, after the first character. */
  lemma LevelsOfTail(s: string, depth: int)
    requires s != []
    ensures forall k :: 0 < k <= |s| ==> Level(s, depth, k) == Level(s[1..], Level(s, depth, 1), k - 1)
    ensures Level(s, depth, 0) == depth
  {
    forall k | 0 < k <= |s| ensures Level(s, depth, k) == Level(s[1..], Level(s, depth, 1), k - 1) {
      LevelTail(s, depth, k - 1);
    }
  }

  lemma ClosesLater(s: string, depth: int, n: nat)
    requires s != [] && depth > 0 && ClosesAt(s[1..], Level(s, depth, 1), n)
    ensures ClosesAt(s, depth, n + 1)
  {
    LevelsOfTail(s, depth);
  }

  lemma ClosesNever(s: string, depth: int)
    requires s != [] && depth > 0 && NeverCloses(s[1..], Level(s, depth, 1))
    ensures NeverCloses(s, depth)
  {
    LevelsOfTail(s, depth);
  }

  /** A group's text goes up to the brace that closes it, inner braces included, or to the end without one. */
  lemma {:induction false} ScanExact(s: string, depth: nat, group: string)
    requires depth >= 1
    ensures var r := ScanGroup(s, depth, group);
            || (exists n: nat :: ClosesAt(s, depth, n) && r == (group + s[..n], s[n + 1..]))
            || (NeverCloses(s, depth) && r == (group + s, []))
  {
    if s == [] {
      assert group + s == group;
    } else if s[0] == '}' && depth == 1 {
      assert Level(s, depth, 0) == 1 && Level(s, depth, 1) == 0;
      assert ClosesAt(s, depth, 0) && group + s[..0] == group;
    } else {
      assert Level(s, depth, 0) == depth;
      var inner: nat := Level(s, depth, 1);
      ScanExact(s[1..], inner, group + [s[0]]);
      ScanMore(s, depth, inner, group, ScanGroup(s, depth, group));
    }
  }

  lemma ScanMore(s: string, depth: nat, inner: nat, group: string, r: (string, string))
    requires s != [] && depth > 0 && inner == Level(s, depth, 1)
    requires || (exists n: nat :: ClosesAt(s[1..], inner, n) && r == (group + [s[0]] + s[1..][..n], s[1..][n + 1..]))
             || (NeverCloses(s[1..], inner) && r == (group + [s[0]] + s[1..], []))
    ensures || (exists n: nat :: ClosesAt(s, depth, n) && r == (group + s[..n], s[n + 1..]))
            || (NeverCloses(s, depth) && r == (group + s, []))
  {
    if n: nat :| ClosesAt(s[1..], inner, n) && r == (group + [s[0]] + s[1..][..n], s[1..][n + 1..]) {
      ClosesLater(s, depth, n);
      assert group + [s[0]] + s[1..][..n] == group + s[..n + 1] && s[1..][n + 1..] == s[n + 1 + 1..];
    } else {
      ClosesNever(s, depth);
      assert group + [s[0]] + s[1..] == group + s;
    }
  }

  /** An opening brace starts a group, split at every comma; any other character stands for itself. */
  lemma PiecesExact(pattern: string)
    requires pattern != []
    ensures pattern[0] != '{' ==> Pieces(pattern) == [Literal(pattern[0])] + Pieces(pattern[1..])
    ensures pattern[0] == '{' ==>
              || (exists n: nat ::
                    && ClosesAt(pattern[1..], 1, n)
                    && Pieces(pattern) == [Group(Split(pattern[1..][..n], ','))] + Pieces(pattern[1..][n + 1..]))
              || (NeverCloses(pattern[1..], 1) && Pieces(pattern) == [Group(Split(pattern[1..], ','))])
  {
    var s := pattern[1..];
    if pattern[0] == '{' {
      ScanExact(s, 1, []);
      var r := ScanGroup(s, 1, []);
      if n: nat :| ClosesAt(s, 1, n) && r == ([] + s[..n], s[n + 1..]) {
        assert [] + s[..n] == s[..n];
      } else {
        assert [] + s == s;
      }
    }
  }
}
