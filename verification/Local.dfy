/**
 Local symbol sources (source/local.rs) over a file world that does not change: what a `dir` and
 a `glob` source index.
 */
module Local {

  import opened Wrappers
  import opened Modules
  import opened Braces
  import opened Walk

  datatype Path = Path(text: string)

  datatype GlobHit<P> = GlobHit(path: P, isDir: bool)

  /** One indexed debug file. */
  datatype Indexed = Indexed(aliases: seq<string>, path: Path)

  /** The file world: directory trees by root, matches by glob pattern, contents by path. */
  datatype World = World(
    trees: map<string, Tree<Path>>,
    globs: map<string, seq<GlobHit<Path>>>,
    files: map<Path, FileData>)
  {
    /** A root that is missing can be neither listed nor read. */
    function Root(path: string): Tree<Path> {
      Lookup(trees, path).GetOr(UnreadableDir)
    }

    /** `aliases_of`: the index entry of a file the probe recognises. */
    function AliasesOf(path: Path): seq<Indexed> {
      if path in files && files[path].probe.Some? then [Indexed(files[path].probe.value.Aliases(), path)] else []
    }
  }

  // ---- globs -----------------------------------------------------------

  /** The files, not directories, among the first `n` matches of a pattern. */
  function FileHitsUpTo<P>(hits: seq<GlobHit<P>>, n: nat): seq<P>
    requires n <= |hits|
  {
    if n == 0 then []
    else if hits[n - 1].isDir then FileHitsUpTo(hits, n - 1)
    else FileHitsUpTo(hits, n - 1) + [hits[n - 1].path]
  }

  function FileHits<P>(hits: seq<GlobHit<P>>): seq<P> {
    FileHitsUpTo(hits, |hits|)
  }

  /** The files the first `n` expanded patterns match, in order; an invalid pattern matches none. */
  function GlobFilesUpTo<P>(globs: map<string, seq<GlobHit<P>>>, patterns: seq<string>, n: nat): seq<P>
    requires n <= |patterns|
  {
    if n == 0 then []
    else GlobFilesUpTo(globs, patterns, n - 1) + FileHits(Lookup(globs, patterns[n - 1]).GetOr([]))
  }

  function GlobFiles<P>(globs: map<string, seq<GlobHit<P>>>, patterns: seq<string>): seq<P> {
    GlobFilesUpTo(globs, patterns, |patterns|)
  }

  /** The files `index_glob` examines. */
  function GlobExamined<P>(globs: map<string, seq<GlobHit<P>>>, pattern: string, maxFiles: nat): seq<P> {
    Take(GlobFiles(globs, Product(Pieces(pattern))), maxFiles)
  }

  lemma {:induction false} GlobMonotone<P>(globs: map<string, seq<GlobHit<P>>>, patterns: seq<string>, i: nat, n: nat)
    requires i <= n <= |patterns|
    ensures GlobFilesUpTo(globs, patterns, i) <= GlobFilesUpTo(globs, patterns, n)
  {
    if i < n {
      GlobMonotone(globs, patterns, i, n - 1);
    }
  }

  lemma {:induction false} HitsMonotone<P>(hits: seq<GlobHit<P>>, i: nat, n: nat)
    requires i <= n <= |hits|
    ensures FileHitsUpTo(hits, i) <= FileHitsUpTo(hits, n)
  {
    if i < n {
      HitsMonotone(hits, i, n - 1);
    }
  }

  /** One file more than the first `h` matches hold: those are a proper beginning of all. */
  lemma CapReached<P>(hits: seq<GlobHit<P>>, h: nat)
    requires h < |hits| && !hits[h].isDir
    ensures |FileHits(hits)| > |FileHitsUpTo(hits, h)|
    ensures FileHits(hits)[..|FileHitsUpTo(hits, h)|] == FileHitsUpTo(hits, h)
  {
    HitsMonotone(hits, h, |hits|);
    HitsMonotone(hits, h + 1, |hits|);
  }

  /** Index the matches of one expanded pattern; `full` when the cap stopped it. */
  method IndexHits<P, E>(probe: P -> seq<E>, hits: seq<GlobHit<P>>, ghost seen: seq<P>, start: seq<E>, count: nat,
                         maxFiles: nat)
    returns (out: seq<E>, visited: nat, full: bool)
    requires count <= maxFiles && start == Collect(probe, seen)
    ensures var files := FileHits(hits);
            && (full <==> count + |files| > maxFiles)
            && (full ==> out == Collect(probe, seen + files[..maxFiles - count]))
            && (!full ==> out == Collect(probe, seen + files) && visited == count + |files|)
  {
    out, visited := start, count;
    assert seen + [] == seen;
    for h := 0 to |hits|
      invariant visited == count + |FileHitsUpTo(hits, h)| <= maxFiles
      invariant out == Collect(probe, seen + FileHitsUpTo(hits, h))
    {
      if !hits[h].isDir {
        if visited + 1 > maxFiles {
          CapReached(hits, h);
          return out, visited, true;
        }
        CollectSnoc(probe, seen + FileHitsUpTo(hits, h), hits[h].path);
        Associate(seen, FileHitsUpTo(hits, h), [hits[h].path]);
        visited := visited + 1;
        out := out + probe(hits[h].path);
      }
    }
    full := false;
  }

  lemma GlobStops<P>(globs: map<string, seq<GlobHit<P>>>, patterns: seq<string>, i: nat, maxFiles: nat)
    requires i < |patterns|
    requires |GlobFilesUpTo(globs, patterns, i)| <= maxFiles < |GlobFilesUpTo(globs, patterns, i + 1)|
    ensures var seen := GlobFilesUpTo(globs, patterns, i);
            var files := FileHits(Lookup(globs, patterns[i]).GetOr([]));
            && maxFiles - |seen| <= |files|
            && Take(GlobFiles(globs, patterns), maxFiles) == seen + files[..maxFiles - |seen|]
  {
    GlobMonotone(globs, patterns, i + 1, |patterns|);
  }

  /** Index the matches of expanded pattern `i`; an invalid pattern has none. */
  method IndexPattern<P, E>(probe: P -> seq<E>, globs: map<string, seq<GlobHit<P>>>, expanded: seq<string>, i: nat,
                            start: seq<E>, count: nat, maxFiles: nat)
    returns (out: seq<E>, visited: nat, full: bool)
    requires i < |expanded| && count == |GlobFilesUpTo(globs, expanded, i)| <= maxFiles
    requires start == Collect(probe, GlobFilesUpTo(globs, expanded, i))
    ensures full ==> out == Collect(probe, Take(GlobFiles(globs, expanded), maxFiles))
    ensures !full ==> visited == |GlobFilesUpTo(globs, expanded, i + 1)| <= maxFiles
    ensures !full ==> out == Collect(probe, GlobFilesUpTo(globs, expanded, i + 1))
  {
    if expanded[i] in globs {
      out, visited, full := IndexHits(probe, globs[expanded[i]], GlobFilesUpTo(globs, expanded, i), start, count,
                                      maxFiles);
      if full { GlobStops(globs, expanded, i, maxFiles); }
    } else {
      assert GlobFilesUpTo(globs, expanded, i) + [] == GlobFilesUpTo(globs, expanded, i);
      out, visited, full := start, count, false;
    }
  }

  /** `index_glob`: the first `maxFiles` files the expanded patterns match, as far as recognised. */
  method IndexGlob<P, E>(probe: P -> seq<E>, globs: map<string, seq<GlobHit<P>>>, pattern: string, maxFiles: nat)
    returns (out: seq<E>)
    ensures out == Collect(probe, GlobExamined(globs, pattern, maxFiles))
  {
    out := [];
    var visited: nat := 0;
    var expanded := ExpandBraces(pattern);
    for i := 0 to |expanded|
      invariant visited == |GlobFilesUpTo(globs, expanded, i)| <= maxFiles
      invariant out == Collect(probe, GlobFilesUpTo(globs, expanded, i))
    {
      var full;
      out, visited, full := IndexPattern(probe, globs, expanded, i, out, visited, maxFiles);
      if full {
        return;
      }
    }
  }
}
