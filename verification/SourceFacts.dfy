/**
 Which file a token leads to, source by source and file by file: the first recognised file of the
 first source that has one. Disabled, remote and pathless sources have none.
 */
module SourceFacts {

  import opened Wrappers
  import opened Ids
  import opened Manifest
  import opened Braces
  import opened Walk
  import opened Local
  import opened Index

  /** The files a source contributes, in the order they are examined. */
  ghost function Candidates(w: World, s: SourceSpec): seq<Path> {
    if s.enabled && s.kind == "dir" && s.path.Some? then Examined(w.Root(s.path.value), 1_000_000)
    else if s.enabled && s.kind == "glob" && s.path.Some? then GlobExamined(w.globs, s.path.value, 1_000_000)
    else []
  }

  /** A readable debug file that the probe knows under `t`. */
  predicate Known(w: World, q: Path, t: string) {
    q in w.files && w.files[q].probe.Some? && t in w.files[q].probe.value.Aliases()
  }

  ghost predicate NoneKnown(w: World, paths: seq<Path>, n: nat, t: string)
    requires n <= |paths|
  {
    forall j :: 0 <= j < n ==> !Known(w, paths[j], t)
  }

  /** File `j` is the first one known under `t`. */
  ghost predicate FirstKnown(w: World, paths: seq<Path>, t: string, j: nat) {
    j < |paths| && Known(w, paths[j], t) && NoneKnown(w, paths, j, t)
  }

  ghost predicate NoneAmong(w: World, sources: seq<SourceSpec>, n: nat, t: string)
    requires n <= |sources|
  {
    forall i :: 0 <= i < n ==> NoneKnown(w, Candidates(w, sources[i]), |Candidates(w, sources[i])|, t)
  }

  /** Source `i` is the first one with a file known under `t`, and `j` is the first such file of it. */
  ghost predicate FirstAmong(w: World, sources: seq<SourceSpec>, t: string, i: nat, j: nat) {
    i < |sources| && FirstKnown(w, Candidates(w, sources[i]), t, j) && NoneAmong(w, sources, i, t)
  }

  // ---- one source ------------------------------------------------------------

  function OneOffer(w: World, q: Path, isGlob: bool): seq<Offer> {
    if q in w.files && w.files[q].probe.Some? then [Offer(w.files[q].probe.value.Aliases(), IndexHit(q, isGlob))]
    else []
  }

  lemma OfferedSnoc(w: World, front: seq<Path>, q: Path, isGlob: bool)
    ensures Offered(Collect(w.AliasesOf, front + [q]), isGlob)
         == Offered(Collect(w.AliasesOf, front), isGlob) + OneOffer(w, q, isGlob)
  {
    CollectSnoc(w.AliasesOf, front, q);
    var before := Collect(w.AliasesOf, front);
    if w.AliasesOf(q) == [] {
      assert before + [] == before;
    } else {
      assert (before + w.AliasesOf(q))[..|before|] == before;
    }
  }

  lemma OneOfferHit(w: World, q: Path, isGlob: bool, t: string)
    ensures FirstOffer(OneOffer(w, q, isGlob), t) == if Known(w, q, t) then Some(IndexHit(q, isGlob)) else None
  {
    if OneOffer(w, q, isGlob) != [] { assert OneOffer(w, q, isGlob)[..0] == []; }
  }

  function HitIn(w: World, paths: seq<Path>, isGlob: bool, t: string): Option<IndexHit> {
    FirstOffer(Offered(Collect(w.AliasesOf, paths), isGlob), t)
  }

  lemma HitSnoc(w: World, front: seq<Path>, q: Path, isGlob: bool, t: string)
    ensures HitIn(w, front + [q], isGlob, t) ==
            if HitIn(w, front, isGlob, t).Some? then HitIn(w, front, isGlob, t)
            else if Known(w, q, t) then Some(IndexHit(q, isGlob)) else None
  {
    OfferedSnoc(w, front, q, isGlob);
    OneOfferHit(w, q, isGlob, t);
    FirstOfferConcat(Offered(Collect(w.AliasesOf, front), isGlob), OneOffer(w, q, isGlob), t);
  }

  lemma KnownSnoc(w: World, front: seq<Path>, q: Path, t: string)
    ensures NoneKnown(w, front + [q], |front| + 1, t) <==> NoneKnown(w, front, |front|, t) && !Known(w, q, t)
    ensures NoneKnown(w, front, |front|, t) && Known(w, q, t) ==> FirstKnown(w, front + [q], t, |front|)
  {
    assert (front + [q])[|front|] == q;
    assert forall j :: 0 <= j < |front| ==> (front + [q])[j] == front[j];
  }

  lemma FirstKnownSnoc(w: World, front: seq<Path>, q: Path, t: string, j: nat)
    requires FirstKnown(w, front, t, j)
    ensures FirstKnown(w, front + [q], t, j)
  {
    assert forall k :: 0 <= k <= j ==> (front + [q])[k] == front[k];
  }

  /** Looking a token up in one source finds the first file known under it. */
  lemma {:induction false} HitInSource(w: World, paths: seq<Path>, isGlob: bool, t: string)
    ensures HitIn(w, paths, isGlob, t).None? <==> NoneKnown(w, paths, |paths|, t)
    ensures HitIn(w, paths, isGlob, t).Some? ==>
              exists j: nat ::
                FirstKnown(w, paths, t, j) && HitIn(w, paths, isGlob, t).value == IndexHit(paths[j], isGlob)
  {
    if paths != [] {
      var front, q := paths[..|paths| - 1], paths[|paths| - 1];
      assert paths == front + [q];
      HitInSource(w, front, isGlob, t);
      HitSnoc(w, front, q, isGlob, t);
      KnownSnoc(w, front, q, t);
      if HitIn(w, front, isGlob, t).Some? {
        var j: nat :| FirstKnown(w, front, t, j) && HitIn(w, front, isGlob, t).value == IndexHit(front[j], isGlob);
        FirstKnownSnoc(w, front, q, t, j);
      }
    }
  }

  // ---- all sources -----------------------------------------------------------

  function HitAt(w: World, sources: seq<SourceSpec>, t: string): Option<IndexHit> {
    FirstOffer(OffersOf(w, Locals(sources)), t)
  }

  lemma SourceOffersHit(w: World, s: SourceSpec, t: string)
    ensures (if IsLocal(s) then FirstOffer(SourceOffers(w, s), t) else None)
         == HitIn(w, Candidates(w, s), s.kind == "glob", t)
  {
    assert Collect(w.AliasesOf, []) == [];
  }

  lemma OffersSnoc(w: World, locals: seq<SourceSpec>, s: SourceSpec)
    ensures OffersOf(w, locals + [s]) == OffersOf(w, locals) + SourceOffers(w, s)
  {
    OffersPrefix(w, locals, s, |locals|);
  }

  lemma LocalsSnoc(front: seq<SourceSpec>, s: SourceSpec)
    ensures Locals(front + [s]) == if IsLocal(s) then Locals(front) + [s] else Locals(front)
  {
    assert (front + [s])[..|front|] == front;
  }

  lemma SourcesSnoc(w: World, front: seq<SourceSpec>, s: SourceSpec, t: string)
    ensures HitAt(w, front + [s], t) ==
            if HitAt(w, front, t).Some? then HitAt(w, front, t) else HitIn(w, Candidates(w, s), s.kind == "glob", t)
  {
    LocalsSnoc(front, s);
    SourceOffersHit(w, s, t);
    if IsLocal(s) {
      OffersSnoc(w, Locals(front), s);
      FirstOfferConcat(OffersOf(w, Locals(front)), SourceOffers(w, s), t);
    }
  }

  ghost predicate HitIsFirst(w: World, sources: seq<SourceSpec>, t: string, hit: IndexHit, i: nat, j: nat) {
    && FirstAmong(w, sources, t, i, j)
    && hit == IndexHit(Candidates(w, sources[i])[j], sources[i].kind == "glob")
  }

  lemma NoneSnoc(w: World, front: seq<SourceSpec>, s: SourceSpec, t: string)
    ensures NoneAmong(w, front + [s], |front| + 1, t) <==>
            NoneAmong(w, front, |front|, t) && NoneKnown(w, Candidates(w, s), |Candidates(w, s)|, t)
  {
    assert (front + [s])[|front|] == s;
    assert forall i :: 0 <= i < |front| ==> (front + [s])[i] == front[i];
  }

  lemma LastIsFirst(w: World, front: seq<SourceSpec>, s: SourceSpec, t: string, hit: IndexHit, j: nat)
    requires NoneAmong(w, front, |front|, t)
    requires FirstKnown(w, Candidates(w, s), t, j) && hit == IndexHit(Candidates(w, s)[j], s.kind == "glob")
    ensures HitIsFirst(w, front + [s], t, hit, |front|, j)
  {
    assert (front + [s])[|front|] == s;
    assert forall i :: 0 <= i < |front| ==> (front + [s])[i] == front[i];
  }

  lemma FirstStaysFirst(w: World, front: seq<SourceSpec>, s: SourceSpec, t: string, hit: IndexHit, i: nat, j: nat)
    requires HitIsFirst(w, front, t, hit, i, j)
    ensures HitIsFirst(w, front + [s], t, hit, i, j)
  {
    assert forall k :: 0 <= k <= i ==> (front + [s])[k] == front[k];
  }

  /** Looking a token up finds the first known file of the first source that has one. */
  lemma {:induction false} HitAmongSources(w: World, sources: seq<SourceSpec>, t: string)
    ensures HitAt(w, sources, t).None? <==> NoneAmong(w, sources, |sources|, t)
    ensures HitAt(w, sources, t).Some? ==>
              exists i: nat, j: nat :: HitIsFirst(w, sources, t, HitAt(w, sources, t).value, i, j)
  {
    if sources != [] {
      var n := |sources| - 1;
      var front, s := sources[..n], sources[n];
      assert sources == front + [s];
      HitAmongSources(w, front, t);
      SourcesSnoc(w, front, s, t);
      NoneSnoc(w, front, s, t);
      HitInSource(w, Candidates(w, s), s.kind == "glob", t);
      var hit := HitAt(w, sources, t);
      if HitAt(w, front, t).Some? {
        var i: nat, j: nat :| HitIsFirst(w, front, t, hit.value, i, j);
        FirstStaysFirst(w, front, s, t, hit.value, i, j);
      } else if hit.Some? {
        var j: nat :| FirstKnown(w, Candidates(w, s), t, j)
                      && hit.value == IndexHit(Candidates(w, s)[j], s.kind == "glob");
        LastIsFirst(w, front, s, t, hit.value, j);
      }
    }
  }

  /** What `locate` returns about a file: its bytes, its name or else the token, and who found it where. */
  ghost predicate IsLocated(l: Located, w: World, q: Path, kind: string, token: string) {
    && q in w.files && l.data == w.files[q]
    && l.name == (if w.files[q].fileName.Some? then w.files[q].fileName.value else CanonicalToken(token))
    && l.origin == if kind == "glob" then GlobOrigin(q.text) else DirOrigin(q.text)
  }

  /**
   Locating a token yields nothing exactly if no candidate of any source is known under it, and
   otherwise the first known file of the first source that has one.
   */
  lemma LocateExact(w: World, sources: seq<SourceSpec>, token: string)
    ensures var t, found := CanonicalToken(token), Locate(w, sources, token);
            && (found.None? <==> NoneAmong(w, sources, |sources|, t))
            && (found.None? <==> Find(w, sources, token).None?)
            && (found.Some? ==>
                  exists i: nat, j: nat ::
                    && FirstAmong(w, sources, t, i, j)
                    && IsLocated(found.value, w, Candidates(w, sources[i])[j], sources[i].kind, token))
  {
    HitAmongSources(w, sources, CanonicalToken(token));
    if Find(w, sources, token).Some? {
      var hit := Find(w, sources, token).value;
      var i: nat, j: nat :| HitIsFirst(w, sources, CanonicalToken(token), hit, i, j);
      assert Known(w, hit.path, CanonicalToken(token));
      assert IsLocated(Locate(w, sources, token).value, w, Candidates(w, sources[i])[j], sources[i].kind, token);
    }
  }

  // ---- which sources matter ----------------------------------------------------

  /** A source that is disabled, of another kind than `dir` and `glob`, or without a path. */
  predicate IsInert(s: SourceSpec) {
    !s.enabled || (s.kind != "dir" && s.kind != "glob") || s.path.None?
  }

  /** Looking up in two lists, one after the other. */
  lemma {:induction false} HitConcat(w: World, a: seq<SourceSpec>, b: seq<SourceSpec>, t: string)
    ensures HitAt(w, a + b, t) == if HitAt(w, a, t).Some? then HitAt(w, a, t) else HitAt(w, b, t)
  {
    if b == [] {
      assert a + b == a;
    } else {
      var front, s := b[..|b| - 1], b[|b| - 1];
      assert b == front + [s] && a + b == (a + front) + [s];
      HitConcat(w, a, front, t);
      SourcesSnoc(w, a + front, s, t);
      SourcesSnoc(w, front, s, t);
    }
  }

  /** Inert sources change nothing, wherever they are in the list. */
  lemma InertIrrelevant(w: World, a: seq<SourceSpec>, s: SourceSpec, b: seq<SourceSpec>, token: string)
    requires IsInert(s)
    ensures Locate(w, a + [s] + b, token) == Locate(w, a + b, token)
  {
    InertHit(w, a, s, b, CanonicalToken(token));
    SameHit(w, a + [s] + b, a + b, token);
  }

  lemma InertHit(w: World, a: seq<SourceSpec>, s: SourceSpec, b: seq<SourceSpec>, t: string)
    requires IsInert(s)
    ensures HitAt(w, a + [s] + b, t) == HitAt(w, a + b, t)
  {
    SourcesSnoc(w, a, s, t);
    HitConcat(w, a + [s], b, t);
    HitConcat(w, a, b, t);
    HitInSource(w, [], s.kind == "glob", t);
  }

  lemma SameHit(w: World, sources: seq<SourceSpec>, others: seq<SourceSpec>, token: string)
    requires HitAt(w, sources, CanonicalToken(token)) == HitAt(w, others, CanonicalToken(token))
    ensures Locate(w, sources, token) == Locate(w, others, token)
  {
  }

  /** A source whose candidates hold a known file makes the token found. */
  lemma CandidateFound(w: World, sources: seq<SourceSpec>, s: SourceSpec, q: Path, token: string)
    requires s in sources && q in Candidates(w, s) && Known(w, q, CanonicalToken(token))
    ensures Locate(w, sources, token).Some?
  {
    LocateExact(w, sources, token);
    var i: nat :| i < |sources| && sources[i] == s;
    var j: nat :| j < |Candidates(w, s)| && Candidates(w, s)[j] == q;
  }

  /** An enabled `dir` source finds every recognised file of a tree within the file limit. */
  lemma DirFinds(w: World, sources: seq<SourceSpec>, s: SourceSpec, q: Path, token: string)
    requires s in sources && s.enabled && s.kind == "dir" && s.path.Some?
    requires var tree := w.Root(s.path.value); |Reachable(tree)| <= 1_000_000 && q in Reachable(tree)
    requires Known(w, q, CanonicalToken(token))
    ensures Locate(w, sources, token).Some?
  {
    DirectoryWalkExact(w.Root(s.path.value), 1_000_000);
    assert q in Candidates(w, s) by { assert q in multiset(Examined(w.Root(s.path.value), 1_000_000)); }
    CandidateFound(w, sources, s, q, token);
  }

  /** An enabled `glob` source finds every recognised file that one of its expanded patterns matches. */
  lemma GlobFinds(w: World, sources: seq<SourceSpec>, s: SourceSpec, i: nat, hit: GlobHit<Path>, token: string)
    requires s in sources && s.enabled && s.kind == "glob" && s.path.Some?
    requires var patterns := Product(Pieces(s.path.value));
             && |GlobFiles(w.globs, patterns)| <= 1_000_000
             && i < |patterns| && patterns[i] in w.globs && hit in w.globs[patterns[i]]
    requires !hit.isDir && Known(w, hit.path, CanonicalToken(token))
    ensures Locate(w, sources, token).Some?
  {
    var patterns := Product(Pieces(s.path.value));
    var h :| 0 <= h < |w.globs[patterns[i]]| && w.globs[patterns[i]][h] == hit;
    assert IsFileHit(w.globs[patterns[i]], h, hit.path);
    assert Matches(w.globs, patterns[i], hit.path);
    GlobFilesExact(w.globs, patterns, |patterns|, hit.path);
    CandidateFound(w, sources, s, hit.path, token);
  }

  ghost predicate IsFileHit<P(!new)>(hits: seq<GlobHit<P>>, h: int, q: P) {
    0 <= h < |hits| && !hits[h].isDir && hits[h].path == q
  }

  lemma {:induction false} FileHitsExact<P(!new)>(hits: seq<GlobHit<P>>, n: nat, q: P)
    requires n <= |hits|
    ensures q in FileHitsUpTo(hits, n) <==> exists h :: h < n && IsFileHit(hits, h, q)
  {
    if n > 0 {
      FileHitsExact(hits, n - 1, q);
      if q in FileHitsUpTo(hits, n) && q !in FileHitsUpTo(hits, n - 1) { assert IsFileHit(hits, n - 1, q); }
    }
  }

  /** Pattern `p` matches a file, not a directory, at `q`. */
  ghost predicate Matches<P(!new)>(globs: map<string, seq<GlobHit<P>>>, pattern: string, q: P) {
    pattern in globs && exists h :: IsFileHit(globs[pattern], h, q)
  }

  /** The files a list of patterns matches are exactly the matches that are not directories. */
  lemma {:induction false} GlobFilesExact<P(!new)>(globs: map<string, seq<GlobHit<P>>>, patterns: seq<string>, n: nat,
                                                   q: P)
    requires n <= |patterns|
    ensures q in GlobFilesUpTo(globs, patterns, n) <==> exists i :: 0 <= i < n && Matches(globs, patterns[i], q)
  {
    if n > 0 {
      GlobFilesExact(globs, patterns, n - 1, q);
      var hits := Lookup(globs, patterns[n - 1]).GetOr([]);
      FileHitsExact(hits, |hits|, q);
      if q in FileHits(hits) { assert Matches(globs, patterns[n - 1], q); }
    }
  }
}
