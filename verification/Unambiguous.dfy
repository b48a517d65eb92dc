/**
 When files never compete for a token: any two indexed files have the same aliases or none in
 common. Then every alias of a file leads to the same file, and the cache is transparent.
 */
module Unambiguous {

  import opened Wrappers
  import opened Ids
  import opened Manifest
  import opened Modules
  import opened Local
  import opened Catalogs
  import opened Index
  import opened Caches
  import opened Reference
  import opened Transparency

  /** Any two files the enabled sources offer have equal alias sets or disjoint ones. */
  ghost predicate EqualOrDisjoint(offers: seq<Offer>) {
    forall i, j, t :: 0 <= i < |offers| && 0 <= j < |offers| && t in offers[i].aliases && t in offers[j].aliases ==>
      forall a :: a in offers[i].aliases <==> a in offers[j].aliases
  }

  /** Every path has a final component, as that of a regular file does. */
  ghost predicate Named(w: World) {
    forall p :: p in w.files ==> w.files[p].fileName.Some?
  }

  ghost predicate NoCompetition(x: Setting) {
    && ProbeAgrees(x.world) && Named(x.world)
    && EqualOrDisjoint(OffersOf(x.world, Locals(x.sources)))
  }

  /** Every alias of a module that can be found leads to that same module. */
  ghost predicate Unambiguous(x: Setting) {
    forall u, t :: x.Find(u).Good? && t in x.Find(u).parsed.Id().Aliases() ==> x.Find(t) == x.Find(u)
  }

  lemma SameFirstOffer(offers: seq<Offer>, u: string, t: string, i: nat, j: nat)
    requires EqualOrDisjoint(offers) && i < |offers| && j < |offers|
    requires IsFirst(offers, u, i) && t in offers[i].aliases && IsFirst(offers, t, j)
    ensures i == j
  {
    assert j <= i;
    assert u in offers[j].aliases;
  }

  lemma SameHit(w: World, sources: seq<SourceSpec>, u: string, t: string)
    requires EqualOrDisjoint(OffersOf(w, Locals(sources)))
    requires Index.Find(w, sources, u).Some?
    requires var path := Index.Find(w, sources, u).value.path;
             path in w.files && w.files[path].probe.Some? && t in w.files[path].probe.value.Aliases()
    requires IsCanonical(t)
    ensures Index.Find(w, sources, t) == Index.Find(w, sources, u)
  {
    var offers := OffersOf(w, Locals(sources));
    OffersAreProbed(w, Locals(sources), |Locals(sources)|);
    AliasesAreFound(w, sources, u, t);
    var i := FirstIndex(offers, CanonicalToken(u));
    var j := FirstIndex(offers, t);
    assert offers[i] in offers;
    SameFirstOffer(offers, CanonicalToken(u), t, i, j);
  }

  lemma NoCompetitionIsUnambiguous(x: Setting)
    requires NoCompetition(x)
    ensures Unambiguous(x)
  {
    forall u, t | x.Find(u).Good? && t in x.Find(u).parsed.Id().Aliases() ensures x.Find(t) == x.Find(u) {
      ProbedIdentity(x, u);
      AliasesCanonical(x.Find(u).parsed.Id());
      SameHit(x.world, x.sources, u, t);
    }
  }

  lemma UnambiguousIsCoherent(x: Setting)
    requires Unambiguous(x)
    ensures Coherent(x)
  {
    forall u, t | x.Find(u).Good? && t in x.Find(u).parsed.Id().Aliases() ensures AnswersAs(x, t, x.Find(u).parsed) {
      assert x.Find(t) == x.Find(u);
    }
  }

  /**
   Files that never compete for a token: for all budgets, every run of resolve, function_name,
   evict, export and restart calls is answered exactly as without a cache.
   */
  lemma CacheIsTransparent(x: Setting, catalog: Catalog, maxBytes: nat, maxModules: nat)
    requires NoCompetition(x) && catalog.sources == x.sources
    ensures Start(x, catalog, maxBytes, maxModules).Valid()
    ensures Transparent(x, Start(x, catalog, maxBytes, maxModules))
  {
    NoCompetitionIsUnambiguous(x);
    UnambiguousIsCoherent(x);
    TransparencyExact(x, catalog, maxBytes, maxModules);
  }

  // ---- files that compete ------------------------------------------------------

  /** Where an alias of a file is answered differently from the file's token, no budget makes the cache transparent. */
  lemma OpaqueWhereAnswersDiffer(x: Setting, t: string, u: string, addr: U64, catalog: Catalog, maxBytes: nat,
                                 maxModules: nat)
    requires ProbeAgrees(x.world) && catalog.sources == x.sources
    requires x.Find(u).Good? && t in x.Find(u).parsed.Id().Aliases()
    requires x.Rows(t, addr) != x.Rows(u, addr) || x.Name(t, addr) != x.Name(u, addr)
    ensures Start(x, catalog, maxBytes, maxModules).Valid() && !Transparent(x, Start(x, catalog, maxBytes, maxModules))
  {
    assert !AnswersAs(x, t, x.Find(u).parsed);
    TransparencyExact(x, catalog, maxBytes, maxModules);
  }

  /** Modules of different debug-ids never give the same rows. */
  lemma DifferentIdsDiffer(m: ParsedModule, n: ParsedModule, addr: U64, limits: Limits)
    requires m.Id().debugId != n.Id().debugId
    ensures m.Answer(addr, limits) != n.Answer(addr, limits)
  {
    if m.DebugIdStr() == n.DebugIdStr() { DebugIdStrInjective(m.Id(), n.Id()); }
    assert m.Answer(addr, limits)[0].debugId != n.Answer(addr, limits)[0].debugId;
  }

  /**
   The alias condition is not idle: two findable builds with the same UUID and different ages share
   the UUID as an alias, and then the cached answers depend on what was resolved before.
   */
  lemma SameUuidCompetes(x: Setting, u: string, v: string, catalog: Catalog, maxBytes: nat, maxModules: nat)
    requires ProbeAgrees(x.world) && catalog.sources == x.sources && x.Find(u).Good? && x.Find(v).Good?
    requires var i, j := x.Find(u).parsed.Id().debugId, x.Find(v).parsed.Id().debugId;
             i.uuid == j.uuid && i.age != j.age
    ensures Start(x, catalog, maxBytes, maxModules).Valid() && !Transparent(x, Start(x, catalog, maxBytes, maxModules))
  {
    var m, n := x.Find(u).parsed, x.Find(v).parsed;
    SharedUuid(x, m, n, Hex(m.Id().debugId.uuid));
    TransparencyExact(x, catalog, maxBytes, maxModules);
  }

  lemma SharedUuid(x: Setting, m: ParsedModule, n: ParsedModule, shared: string)
    requires m.Id().debugId.uuid == n.Id().debugId.uuid && m.Id().debugId.age != n.Id().debugId.age
    requires shared == Hex(m.Id().debugId.uuid)
    ensures shared in m.Id().Aliases() && shared in n.Id().Aliases()
    ensures !(AnswersAs(x, shared, m) && AnswersAs(x, shared, n))
  {
    AliasesExact(m.Id());
    AliasesExact(n.Id());
    DifferentIdsDiffer(m, n, 0, x.limits);
    assert !(x.Rows(shared, 0) == m.Answer(0, x.limits) && x.Rows(shared, 0) == n.Answer(0, x.limits));
  }
}
