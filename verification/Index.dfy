/**
 The alias index of the enabled local sources, from scratch (source/mod.rs): every indexed file
 offers its aliases in source order, and the first offer of a token wins.
 */
module Index {

  import opened Wrappers
  import opened Ids
  import opened Manifest
  import opened Modules
  import opened Walk
  import opened Local

  const MAX_INDEX_FILES: nat := 1_000_000

  /** Where a token leads: a file, and whether a glob found it. */
  datatype IndexHit = IndexHit(path: Path, isGlob: bool)

  datatype Offer = Offer(aliases: seq<string>, hit: IndexHit)

  /** What a search yields: the bytes, the display name and the origin of a file. */
  datatype Located = Located(data: FileData, name: string, origin: Origin)

  predicate IsLocal(s: SourceSpec) {
    s.enabled && (s.kind == "dir" || s.kind == "glob")
  }

  function Locals(sources: seq<SourceSpec>): (r: seq<SourceSpec>)
    ensures forall s :: s in r <==> s in sources && IsLocal(s)
  {
    if sources == [] then []
    else
      var front, last := sources[..|sources| - 1], sources[|sources| - 1];
      assert sources == front + [last];
      if IsLocal(last) then Locals(front) + [last] else Locals(front)
  }

  lemma {:induction false} AllLocal(sources: seq<SourceSpec>)
    requires forall s :: s in sources ==> IsLocal(s)
    ensures Locals(sources) == sources
  {
    if sources != [] {
      var front, last := sources[..|sources| - 1], sources[|sources| - 1];
      AllLocal(front);
      assert IsLocal(last) && sources == front + [last];
    }
  }

  /** The files a source examines, in order. */
  function SourceFiles(w: World, s: SourceSpec): seq<Path> {
    match s.path
    case None => []
    case Some(path) =>
      if s.kind == "glob" then GlobExamined(w.globs, path, MAX_INDEX_FILES) else Examined(w.Root(path), MAX_INDEX_FILES)
  }

  function Offered(entries: seq<Indexed>, isGlob: bool): seq<Offer> {
    if entries == [] then []
    else
      var last := entries[|entries| - 1];
      Offered(entries[..|entries| - 1], isGlob) + [Offer(last.aliases, IndexHit(last.path, isGlob))]
  }

  function SourceOffers(w: World, s: SourceSpec): seq<Offer> {
    Offered(Collect(w.AliasesOf, SourceFiles(w, s)), s.kind == "glob")
  }

  /** The offers of the first `n` sources of a list, in source order. */
  function OffersUpTo(w: World, locals: seq<SourceSpec>, n: nat): seq<Offer>
    requires n <= |locals|
  {
    if n == 0 then [] else OffersUpTo(w, locals, n - 1) + SourceOffers(w, locals[n - 1])
  }

  function OffersOf(w: World, locals: seq<SourceSpec>): seq<Offer> {
    OffersUpTo(w, locals, |locals|)
  }

  /** Offer `i` is the first one with this token. */
  predicate IsFirst(offers: seq<Offer>, token: string, i: nat)
    requires i < |offers|
  {
    token in offers[i].aliases && forall j :: 0 <= j < i ==> token !in offers[j].aliases
  }

  /** The first offer of a token. */
  function FirstOffer(offers: seq<Offer>, token: string): Option<IndexHit> {
    if offers == [] then None
    else
      match FirstOffer(offers[..|offers| - 1], token)
      case Some(hit) => Some(hit)
      case None =>
        if token in offers[|offers| - 1].aliases then Some(offers[|offers| - 1].hit) else None
  }

  /** What a lookup finds is the hit of the first offer of the token. */
  lemma {:induction false} FirstIndex(offers: seq<Offer>, token: string) returns (i: nat)
    requires FirstOffer(offers, token).Some?
    ensures i < |offers| && IsFirst(offers, token, i) && FirstOffer(offers, token) == Some(offers[i].hit)
  {
    var n := |offers| - 1;
    if FirstOffer(offers[..n], token).Some? {
      i := FirstIndex(offers[..n], token);
    } else {
      NothingOffered(offers[..n], token);
      forall j | 0 <= j < n ensures token !in offers[j].aliases { assert offers[..n][j] == offers[j]; }
      i := n;
    }
  }

  /** A lookup finds nothing exactly when no file offers the token. */
  lemma {:induction false} NothingOffered(offers: seq<Offer>, token: string)
    ensures FirstOffer(offers, token).None? <==> forall i :: 0 <= i < |offers| ==> token !in offers[i].aliases
  {
    if offers != [] {
      var n := |offers| - 1;
      NothingOffered(offers[..n], token);
      assert forall i :: 0 <= i < n ==> offers[..n][i] == offers[i];
    }
  }

  /** The reference index: one first-match-wins pass over all enabled local sources. */
  function Find(w: World, sources: seq<SourceSpec>, token: string): Option<IndexHit> {
    FirstOffer(OffersOf(w, Locals(sources)), CanonicalToken(token))
  }

  /** The reference `locate`: find the file, read it, name it and note where it came from. */
  function Locate(w: World, sources: seq<SourceSpec>, token: string): Option<Located> {
    match Find(w, sources, token)
    case None => None
    case Some(hit) =>
      if hit.path !in w.files then None
      else
        var data := w.files[hit.path];
        Some(Located(data, data.fileName.GetOr(CanonicalToken(token)),
                     if hit.isGlob then GlobOrigin(hit.path.text) else DirOrigin(hit.path.text)))
  }

  lemma {:induction false} FirstOfferConcat(a: seq<Offer>, b: seq<Offer>, token: string)
    ensures FirstOffer(a + b, token)
         == (match FirstOffer(a, token) case Some(hit) => Some(hit) case None => FirstOffer(b, token))
  {
    if b == [] {
      assert a + b == a;
    } else {
      assert (a + b)[..|a + b| - 1] == a + b[..|b| - 1];
      FirstOfferConcat(a, b[..|b| - 1], token);
    }
  }

  /** Appending a source leaves the offers of those before it alone. */
  lemma {:induction false} OffersPrefix(w: World, locals: seq<SourceSpec>, s: SourceSpec, n: nat)
    requires n <= |locals|
    ensures OffersUpTo(w, locals + [s], n) == OffersUpTo(w, locals, n)
  {
    if n > 0 { OffersPrefix(w, locals, s, n - 1); }
  }

  /** A token that is found is found in the same place after a source has been appended. */
  lemma AppendedFind(w: World, sources: seq<SourceSpec>, s: SourceSpec, token: string)
    requires Find(w, sources, token).Some?
    ensures Find(w, sources + [s], token) == Find(w, sources, token)
  {
    var locals := Locals(sources);
    assert (sources + [s])[..|sources|] == sources;
    if IsLocal(s) {
      assert Locals(sources + [s]) == locals + [s];
      OffersPrefix(w, locals, s, |locals|);
      FirstOfferConcat(OffersOf(w, locals), SourceOffers(w, s), CanonicalToken(token));
    }
  }

  /** Whether a source offers the token, and whether one of the first `n` does. */
  predicate Offers(w: World, s: SourceSpec, token: string) {
    FirstOffer(SourceOffers(w, s), token).Some?
  }

  predicate SomeOffer(w: World, locals: seq<SourceSpec>, n: nat, token: string)
    requires n <= |locals|
  {
    FirstOffer(OffersUpTo(w, locals, n), token).Some?
  }

  lemma OneMoreSource(w: World, locals: seq<SourceSpec>, n: nat, token: string)
    requires n < |locals|
    ensures SomeOffer(w, locals, n + 1, token) <==> SomeOffer(w, locals, n, token) || Offers(w, locals[n], token)
  {
    FirstOfferConcat(OffersUpTo(w, locals, n), SourceOffers(w, locals[n]), token);
  }

  /** Something that starts false and becomes true exactly when its next part is true. */
  lemma {:induction false} AnyOf(some: nat -> bool, one: nat -> bool, n: nat)
    requires !some(0) && forall k :: 0 <= k < n ==> (some(k + 1) <==> some(k) || one(k))
    ensures some(n) <==> exists i :: 0 <= i < n && one(i)
  {
    if n > 0 { AnyOf(some, one, n - 1); }
  }

  /** A token is offered by a list of sources exactly if one of them offers it. */
  lemma OfferedBySome(w: World, locals: seq<SourceSpec>, token: string)
    ensures SomeOffer(w, locals, |locals|, token) <==> exists i :: 0 <= i < |locals| && Offers(w, locals[i], token)
  {
    var some := (k: nat) => k <= |locals| && SomeOffer(w, locals, k, token);
    var one := (k: nat) => k < |locals| && Offers(w, locals[k], token);
    forall k | 0 <= k < |locals| ensures some(k + 1) <==> some(k) || one(k) {
      OneMoreSource(w, locals, k, token);
    }
    NoSourceYet(w, locals, token);
    AnyOf(some, one, |locals|);
    if i :| 0 <= i < |locals| && Offers(w, locals[i], token) { assert one(i); }
  }

  lemma NoSourceYet(w: World, locals: seq<SourceSpec>, token: string)
    ensures !SomeOffer(w, locals, 0, token)
  {
  }

  /** Fewer sources find nothing new. */
  lemma FewerSourcesFind(w: World, fewer: seq<SourceSpec>, sources: seq<SourceSpec>, token: string)
    requires forall s :: s in fewer ==> s in sources
    requires Find(w, fewer, token).Some?
    ensures Find(w, sources, token).Some?
  {
    var few, all, canon := Locals(fewer), Locals(sources), CanonicalToken(token);
    OfferedBySome(w, few, canon);
    OfferedBySome(w, all, canon);
    var i :| 0 <= i < |few| && Offers(w, few[i], canon);
    assert few[i] in all;
    var k :| 0 <= k < |all| && all[k] == few[i];
  }

  /** Every offer is the probe's finding about one file of the world. */
  ghost predicate IsProbed(w: World, o: Offer) {
    o.hit.path in w.files && w.files[o.hit.path].probe.Some?
    && o.aliases == w.files[o.hit.path].probe.value.Aliases()
  }

  lemma {:induction false} OfferedAreProbed(w: World, paths: seq<Path>, isGlob: bool)
    ensures forall o :: o in Offered(Collect(w.AliasesOf, paths), isGlob) ==> IsProbed(w, o)
  {
    if paths != [] {
      var front, last := paths[..|paths| - 1], paths[|paths| - 1];
      OfferedAreProbed(w, front, isGlob);
      var before := Collect(w.AliasesOf, front);
      if w.AliasesOf(last) != [] {
        assert (before + w.AliasesOf(last))[..|before|] == before;
      } else {
        assert before + [] == before;
      }
    }
  }

  lemma SourceIsProbed(w: World, s: SourceSpec)
    ensures forall o :: o in SourceOffers(w, s) ==> IsProbed(w, o)
  {
    OfferedAreProbed(w, SourceFiles(w, s), s.kind == "glob");
  }

  lemma {:induction false} OffersAreProbed(w: World, locals: seq<SourceSpec>, n: nat)
    requires n <= |locals|
    ensures forall o :: o in OffersUpTo(w, locals, n) ==> IsProbed(w, o)
  {
    if n > 0 {
      OffersAreProbed(w, locals, n - 1);
      SourceIsProbed(w, locals[n - 1]);
    }
  }

  /** A found token is an alias the probe derives from the file it leads to; the file is readable. */
  lemma FoundIsAlias(w: World, sources: seq<SourceSpec>, token: string)
    requires Find(w, sources, token).Some?
    ensures var path := Find(w, sources, token).value.path;
            path in w.files && w.files[path].probe.Some?
            && CanonicalToken(token) in w.files[path].probe.value.Aliases()
    ensures Locate(w, sources, token).Some?
  {
    var offers := OffersOf(w, Locals(sources));
    OffersAreProbed(w, Locals(sources), |Locals(sources)|);
    var i := FirstIndex(offers, CanonicalToken(token));
    assert offers[i] in offers;
  }

  /** Every alias of an offered file is found. */
  lemma AliasesAreFound(w: World, sources: seq<SourceSpec>, token: string, alias: string)
    requires Find(w, sources, token).Some?
    requires var path := Find(w, sources, token).value.path;
             path in w.files && w.files[path].probe.Some? && alias in w.files[path].probe.value.Aliases()
    requires CanonicalToken(alias) == alias
    ensures Find(w, sources, alias).Some?
  {
    var offers := OffersOf(w, Locals(sources));
    OffersAreProbed(w, Locals(sources), |Locals(sources)|);
    var i := FirstIndex(offers, CanonicalToken(token));
    assert offers[i] in offers;
    NothingOffered(offers, alias);
  }
}
