/**
 The source registry (source/mod.rs): sources are indexed lazily, each once, and the index is
 thrown away when a source is dropped or the list is restored. Whatever the history, a lookup
 answers as one first-match-wins pass over the sources served; these are the enabled local ones,
 except those added under an id that was already marked as indexed.
 */
module Registry {

  import opened Wrappers
  import opened Ids
  import opened Manifest
  import opened Walk
  import opened Local
  import opened Catalogs
  import opened Index

  /** The index answers every token as the first offer does. */
  ghost predicate Agrees(index: map<string, IndexHit>, offers: seq<Offer>) {
    forall t: string :: Lookup(index, t) == FirstOffer(offers, t)
  }

  function IdsUpTo(specs: seq<SourceSpec>, n: nat): set<string>
    requires n <= |specs|
  {
    if n == 0 then {} else IdsUpTo(specs, n - 1) + {specs[n - 1].sourceId}
  }

  /** The local sources among the first `n` that are not indexed yet, in order. */
  function Pending(locals: seq<SourceSpec>, n: nat, indexed: set<string>): seq<SourceSpec>
    requires n <= |locals|
  {
    if n == 0 then []
    else if locals[n - 1].sourceId in indexed then Pending(locals, n - 1, indexed)
    else Pending(locals, n - 1, indexed) + [locals[n - 1]]
  }

  ghost predicate IndexedExactly(w: World, locals: seq<SourceSpec>, covered: nat, index: map<string, IndexHit>,
                                 indexed: set<string>) {
    covered <= |locals| && Agrees(index, OffersUpTo(w, locals, covered)) && indexed == IdsUpTo(locals, covered)
  }

  /**
   What the index covers: the first `covered` local sources, whose ids are exactly those marked
   as indexed, while no later local source is marked.
   */
  ghost predicate Covers(w: World, locals: seq<SourceSpec>, covered: nat, index: map<string, IndexHit>,
                         indexed: set<string>) {
    && IndexedExactly(w, locals, covered, index, indexed)
    && forall i :: covered <= i < |locals| ==> locals[i].sourceId !in indexed
  }

  lemma {:induction false} IdsMember(specs: seq<SourceSpec>, n: nat, i: nat)
    requires i < n <= |specs|
    ensures specs[i].sourceId in IdsUpTo(specs, n)
  {
    if i < n - 1 { IdsMember(specs, n - 1, i); }
  }

  lemma {:induction false} IdsOrigin(specs: seq<SourceSpec>, n: nat, id: string)
    requires n <= |specs| && id in IdsUpTo(specs, n)
    ensures exists i :: 0 <= i < n && specs[i].sourceId == id
  {
    if id != specs[n - 1].sourceId { IdsOrigin(specs, n - 1, id); }
  }

  lemma {:induction false} PendingIsSuffix(locals: seq<SourceSpec>, covered: nat, indexed: set<string>, n: nat)
    requires covered <= n <= |locals|
    requires forall i :: 0 <= i < covered ==> locals[i].sourceId in indexed
    requires forall i :: covered <= i < |locals| ==> locals[i].sourceId !in indexed
    ensures Pending(locals, n, indexed) == locals[covered..n]
  {
    if n > covered {
      PendingIsSuffix(locals, covered, indexed, n - 1);
      assert locals[covered..n] == locals[covered..n - 1] + [locals[n - 1]];
    } else {
      NothingPending(locals, indexed, n);
    }
  }

  lemma {:induction false} NothingPending(locals: seq<SourceSpec>, indexed: set<string>, n: nat)
    requires n <= |locals| && forall i :: 0 <= i < n ==> locals[i].sourceId in indexed
    ensures Pending(locals, n, indexed) == []
  {
    if n > 0 { NothingPending(locals, indexed, n - 1); }
  }

  lemma PendingAfterCovered(w: World, locals: seq<SourceSpec>, covered: nat, index: map<string, IndexHit>,
                            indexed: set<string>)
    requires Covers(w, locals, covered, index, indexed)
    ensures Pending(locals, |locals|, indexed) == locals[covered..]
  {
    forall i | 0 <= i < covered ensures locals[i].sourceId in indexed {
      IdsMember(locals, covered, i);
    }
    PendingIsSuffix(locals, covered, indexed, |locals|);
    assert locals[covered..|locals|] == locals[covered..];
  }

  /** A served source appended with an id that is not marked leaves the coverage as it was. */
  lemma AppendKeepsCoverage(w: World, served: seq<SourceSpec>, s: SourceSpec, covered: nat,
                            index: map<string, IndexHit>, indexed: set<string>)
    requires Covers(w, served, covered, index, indexed) && s.sourceId !in indexed
    ensures Covers(w, served + [s], covered, index, indexed)
  {
    PrefixOnly(served, s, covered);
    OffersPrefix(w, served, s, covered);
  }

  lemma LocalsAppend(sources: seq<SourceSpec>, s: SourceSpec)
    ensures Locals(sources + [s]) == Locals(sources) + (if IsLocal(s) then [s] else [])
  {
    assert (sources + [s])[..|sources|] == sources;
  }

  /**
   What the registry serves: the sources its index covers or will cover, in source order. They are
   among the enabled local sources, and all of them unless some were skipped.
   */
  ghost predicate Serves(locals: seq<SourceSpec>, served: seq<SourceSpec>, covered: nat, indexed: set<string>) {
    && covered <= |served|
    && Pending(locals, |locals|, indexed) == served[covered..]
    && Among(served, locals)
    && (served == locals || |served| < |locals|)
  }

  ghost predicate Among<T(!new)>(a: seq<T>, b: seq<T>) {
    forall t :: t in a ==> t in b
  }

  lemma AmongAppended<T(!new)>(a: seq<T>, b: seq<T>, t: T)
    requires Among(a, b)
    ensures Among(a, b + [t]) && Among(a + [t], b + [t])
  {
  }

  /** A local source is never indexed when its id is already marked. */
  predicate Skips(s: SourceSpec, indexed: set<string>) {
    IsLocal(s) && s.sourceId in indexed
  }

  /** A new local source is served last, or skipped when its id is already marked. */
  lemma AppendServes(locals: seq<SourceSpec>, s: SourceSpec, served: seq<SourceSpec>, covered: nat,
                     indexed: set<string>)
    requires Serves(locals, served, covered, indexed)
    ensures s.sourceId in indexed ==> Serves(locals + [s], served, covered, indexed) && |served| < |locals + [s]|
    ensures s.sourceId !in indexed ==> Serves(locals + [s], served + [s], covered, indexed)
    ensures s.sourceId !in indexed ==> (served + [s] == locals + [s] <==> served == locals)
  {
    ReissuedIsSkipped(locals, s, indexed);
    AmongAppended(served, locals, s);
    if s.sourceId !in indexed {
      SuffixAppended(served, covered, s);
      SameAppended(served, locals, s);
    }
  }

  /** What is served once a source is appended. */
  ghost function Grown(served: seq<SourceSpec>, s: SourceSpec, indexed: set<string>): seq<SourceSpec> {
    if IsLocal(s) && s.sourceId !in indexed then served + [s] else served
  }

  lemma ServedGrows(w: World, locals: seq<SourceSpec>, s: SourceSpec, served: seq<SourceSpec>, covered: nat,
                    index: map<string, IndexHit>, indexed: set<string>)
    requires Covers(w, served, covered, index, indexed) && Serves(locals, served, covered, indexed)
    ensures var after, next := locals + (if IsLocal(s) then [s] else []), Grown(served, s, indexed);
            && Covers(w, next, covered, index, indexed) && Serves(after, next, covered, indexed)
            && (next == after <==> served == locals && !Skips(s, indexed))
  {
    if !IsLocal(s) {
      assert locals + [] == locals;
    } else {
      AppendServes(locals, s, served, covered, indexed);
      if s.sourceId !in indexed { AppendKeepsCoverage(w, served, s, covered, index, indexed); }
    }
  }

  lemma SuffixAppended<T>(a: seq<T>, n: nat, t: T)
    requires n <= |a|
    ensures (a + [t])[n..] == a[n..] + [t]
  {
  }

  lemma SameAppended<T>(a: seq<T>, b: seq<T>, t: T)
    ensures a + [t] == b + [t] <==> a == b
  {
    assert (a + [t])[..|a|] == a && (b + [t])[..|b|] == b;
  }

  /** Once every pending source is marked, none is pending. */
  lemma {:induction false} MarkedOrPending(locals: seq<SourceSpec>, n: nat, indexed: set<string>)
    requires n <= |locals|
    ensures forall i :: 0 <= i < n ==> locals[i].sourceId in indexed || locals[i] in Pending(locals, n, indexed)
  {
    if n > 0 { MarkedOrPending(locals, n - 1, indexed); }
  }

  lemma ServedAll(locals: seq<SourceSpec>, served: seq<SourceSpec>, covered: nat, before: set<string>,
                  after: set<string>)
    requires Serves(locals, served, covered, before) && before <= after && after == IdsUpTo(served, |served|)
    ensures Serves(locals, served, |served|, after)
  {
    MarkedOrPending(locals, |locals|, before);
    forall i | 0 <= i < |locals| ensures locals[i].sourceId in after {
      if locals[i].sourceId !in before {
        var j :| covered <= j < |served| && served[j] == locals[i];
        IdsMember(served, |served|, j);
      }
    }
    NothingPending(locals, after, |locals|);
  }

  lemma NoneServedYet(locals: seq<SourceSpec>)
    ensures Serves(locals, locals, 0, {})
  {
    PendingIsSuffix(locals, 0, {}, |locals|);
    assert locals[0..|locals|] == locals == locals[0..];
  }

  lemma {:induction false} PrefixOnly(locals: seq<SourceSpec>, s: SourceSpec, n: nat)
    requires n <= |locals|
    ensures IdsUpTo(locals + [s], n) == IdsUpTo(locals, n)
  {
    if n > 0 { PrefixOnly(locals, s, n - 1); }
  }

  /** An id behind the counter differs from the one the counter issues next. */
  lemma NextIdIsFresh(c: Catalog, served: seq<SourceSpec>, covered: nat)
    requires CounterAhead(c) && c.nextId < U64_MAX && covered <= |served|
    requires Among(served, Locals(c.sources))
    ensures SourceId(c.nextId) !in IdsUpTo(served, covered)
  {
    forall i | 0 <= i < covered ensures served[i].sourceId != SourceId(c.nextId) {
      assert served[i] in served && served[i] in Locals(c.sources);
      assert Behind(served[i].sourceId, c.nextId);
      SourceIdRoundTrip(c.nextId);
    }
    if id :| id in IdsUpTo(served, covered) && id == SourceId(c.nextId) {
      IdsOrigin(served, covered, id);
    }
  }

  lemma {:induction false} WithoutNone(sources: seq<SourceSpec>, id: string)
    ensures |Without(sources, id)| <= |sources|
    ensures |Without(sources, id)| == |sources| ==> Without(sources, id) == sources
  {
    if sources != [] {
      WithoutNone(sources[..|sources| - 1], id);
    }
  }

  lemma EmptyCovers(w: World, locals: seq<SourceSpec>)
    ensures Covers(w, locals, 0, map[], {})
  {
  }

  class SourceRegistry {
    /** The file world, constant while the registry lives. */
    const world: World
    var sources: seq<SourceSpec>
    var nextId: U64
    var index: map<string, IndexHit>
    var indexed: set<string>
    /** The local sources that are indexed or will be, in order. */
    ghost var served: seq<SourceSpec>
    /** How many of them the index covers. */
    ghost var covered: nat

    ghost function Value(): Catalog
      reads this
    {
      Catalog(sources, nextId)
    }

    ghost predicate Valid()
      reads this
    {
      Covers(world, served, covered, index, indexed) && Serves(Locals(sources), served, covered, indexed)
    }

    /** No source has been skipped since the index was last thrown away. */
    ghost predicate Complete()
      reads this
    {
      served == Locals(sources)
    }

    constructor (w: World)
      ensures Valid() && Value() == EMPTY && world == w && Complete()
    {
      world := w;
      sources, nextId, index, indexed := [], 0, map[], {};
      served, covered := [], 0;
      new;
      EmptyCovers(w, []);
    }

    /** `restore`: take over the list, clear the index, move the counter ahead of every restored id. */
    method Restore(specs: seq<SourceSpec>)
      requires Valid()
      modifies this
      ensures Valid() && Complete()
      ensures Value() == Catalogs.Restore(old(Value()), specs)
    {
      sources := specs;
      Forget();
      for i := 0 to |specs|
        invariant Valid() && Complete() && sources == specs
        invariant nextId == Ahead(old(nextId), specs[..i])
      {
        assert specs[..i + 1][..i] == specs[..i];
        match SourceNumber(specs[i].sourceId) {
          case Some(n) => nextId := Max(nextId, WrappingSucc(n));
          case None =>
        }
      }
      assert specs[..|specs|] == specs;
    }

    /** `add`: validate, issue the next id, append. */
    method Add(r: SourceRequest) returns (result: Result<string, string>)
      requires Valid()
      modifies this
      ensures Valid()
      ensures (Value(), result) == Catalogs.Add(old(Value()), r)
      ensures Complete() <==>
              old(Complete()) && !(result.Success? && Skips(SpecOf(r, SourceId(old(nextId))), old(indexed)))
      ensures old(CounterAhead(Value())) && old(nextId) < U64_MAX ==> (Complete() <==> old(Complete()))
    {
      match Rejection(r) {
        case Some(message) => return Failure(message);
        case None =>
      }
      var id := SourceId(nextId);
      if CounterAhead(Value()) && nextId < U64_MAX { NextIdIsFresh(Value(), served, covered); }
      Append(SpecOf(r, id));
      nextId := WrappingSucc(nextId);
      result := Success(id);
    }

    /** Append one source; if it is served at all, it is served last. */
    method Append(s: SourceSpec)
      requires Valid()
      modifies this`sources, this`served
      ensures Valid() && sources == old(sources) + [s]
      ensures Complete() <==> old(Complete()) && !Skips(s, indexed)
    {
      LocalsAppend(sources, s);
      ServedGrows(world, Locals(sources), s, served, covered, index, indexed);
      served := Grown(served, s, indexed);
      sources := sources + [s];
    }

    /** `drop_source`: remove every source with the id; forget the index if there was one. */
    method DropSource(id: string) returns (removed: bool)
      requires Valid()
      modifies this
      ensures Valid() && (Complete() <==> removed || old(Complete()))
      ensures Value() == Drop(old(Value()), id)
      ensures removed <==> exists s :: s in old(sources) && s.sourceId == id
      ensures removed <==> sources != old(sources)
    {
      RemovedExactly(sources, id);
      var before := |sources|;
      sources := Without(sources, id);
      removed := |sources| != before;
      if removed {
        Forget();
      }
    }

    /** Throw the index away; it is rebuilt when it is next needed. */
    method Forget()
      modifies this`index, this`indexed, this`served, this`covered
      ensures Valid() && Complete() && index == map[] && indexed == {}
    {
      index, indexed := map[], {};
      served, covered := Locals(sources), 0;
      EmptyCovers(world, served);
      NoneServedYet(served);
    }

    /** Index one pending source: the first offer of a token stays. */
    method IndexSource(spec: SourceSpec, ghost offers: seq<Offer>)
      modifies this`index
      ensures old(Agrees(index, offers)) ==> Agrees(index, offers + SourceOffers(world, spec))
    {
      match spec.path {
        case None =>
          assert SourceFiles(world, spec) == [] && offers + [] == offers;
          return;
        case Some(p) =>
          var isGlob := spec.kind == "glob";
          var entries;
          if isGlob {
            entries := IndexGlob(world.AliasesOf, world.globs, p, MAX_INDEX_FILES);
          } else {
            entries := IndexDir(world.AliasesOf, world.Root(p), MAX_INDEX_FILES);
          }
          OfferEntries(entries, isGlob, offers);
      }
    }

    /** `entry(alias).or_insert` for every alias of every entry, in order. */
    method OfferEntries(entries: seq<Indexed>, isGlob: bool, ghost offers: seq<Offer>)
      modifies this`index
      ensures old(Agrees(index, offers)) ==> Agrees(index, offers + Offered(entries, isGlob))
    {
      assert offers + Offered(entries[..0], isGlob) == offers;
      for i := 0 to |entries|
        invariant old(Agrees(index, offers)) ==> Agrees(index, offers + Offered(entries[..i], isGlob))
      {
        assert entries[..i + 1][..i] == entries[..i];
        ghost var before, sofar := index, offers + Offered(entries[..i], isGlob);
        var hit := IndexHit(entries[i].path, isGlob);
        OrInsertAll(entries[i].aliases, hit);
        assert offers + Offered(entries[..i + 1], isGlob) == sofar + [Offer(entries[i].aliases, hit)];
        if Agrees(before, sofar) {
          NewOffer(before, index, sofar, Offer(entries[i].aliases, hit));
        }
      }
      assert entries[..|entries|] == entries;
    }

    method OrInsertAll(aliases: seq<string>, hit: IndexHit)
      modifies this`index
      ensures IsOrInserted(old(index), index, aliases, hit)
    {
      for a := 0 to |aliases|
        invariant IsOrInserted(old(index), index, aliases[..a], hit)
      {
        assert aliases[..a + 1] == aliases[..a] + [aliases[a]];
        if aliases[a] !in index {
          index := index[aliases[a] := hit];
        }
      }
      assert aliases[..|aliases|] == aliases;
    }

    /** Index the next pending source and mark it. */
    method IndexNext(spec: SourceSpec)
      requires IndexedExactly(world, served, covered, index, indexed) && covered < |served| && served[covered] == spec
      modifies this`index, this`indexed, this`covered
      ensures covered == old(covered) + 1 && indexed == old(indexed) + {spec.sourceId}
      ensures IndexedExactly(world, served, covered, index, indexed)
    {
      ghost var before := OffersUpTo(world, served, covered);
      assert Agrees(index, before);
      IndexSource(spec, before);
      assert Agrees(index, before + SourceOffers(world, spec));
      OneMoreCovered(world, served, covered, index, indexed);
      indexed := indexed + {spec.sourceId};
      covered := covered + 1;
    }

    /** `ensure_indexed`: index every enabled local source that is not marked as indexed yet. */
    method EnsureIndexed()
      requires Valid()
      modifies this`index, this`indexed, this`covered
      ensures Valid() && Value() == old(Value())
      ensures Agrees(index, OffersOf(world, served)) && Locals(served) == served
    {
      var locals := Locals(sources);
      PendingAfterCovered(world, served, covered, index, indexed);
      ghost var was, from := indexed, covered;
      IndexAll(Pending(locals, |locals|, indexed));
      ServedAll(locals, served, from, was, indexed);
      AllLocal(served);
    }

    method IndexAll(pending: seq<SourceSpec>)
      requires Covers(world, served, covered, index, indexed) && pending == served[covered..]
      modifies this`index, this`indexed, this`covered
      ensures covered == |served| && Covers(world, served, covered, index, indexed) && old(indexed) <= indexed
    {
      ghost var from := covered;
      for i := 0 to |pending|
        invariant covered == from + i
        invariant IndexedExactly(world, served, covered, index, indexed) && old(indexed) <= indexed
      {
        IndexNext(pending[i]);
      }
    }

    /** `locate`: index what is pending, look the token up, read the file. */
    method Locate(token: string) returns (located: Option<Located>)
      requires Valid()
      modifies this`index, this`indexed, this`covered
      ensures Valid() && Value() == old(Value())
      ensures located == Index.Locate(world, served, token)
      ensures Complete() ==> located == Index.Locate(world, sources, token)
    {
      EnsureIndexed();
      LocateLocals(world, sources, token);
      var canon := CanonicalToken(token);
      assert Lookup(index, canon) == Index.Find(world, served, token);
      if canon !in index {
        return None;
      }
      var hit := index[canon];
      if hit.path !in world.files {
        return None;
      }
      var data := world.files[hit.path];
      var origin := if hit.isGlob then GlobOrigin(hit.path.text) else DirOrigin(hit.path.text);
      return Some(Located(data, data.fileName.GetOr(canon), origin));
    }
  }

  /** A search sees only the enabled local sources. */
  lemma LocateLocals(w: World, sources: seq<SourceSpec>, token: string)
    ensures Index.Locate(w, Locals(sources), token) == Index.Locate(w, sources, token)
  {
    AllLocal(Locals(sources));
  }

  lemma OneMoreCovered(w: World, locals: seq<SourceSpec>, n: nat, index: map<string, IndexHit>, indexed: set<string>)
    requires n < |locals| && Agrees(index, OffersUpTo(w, locals, n) + SourceOffers(w, locals[n]))
             && indexed == IdsUpTo(locals, n)
    ensures IndexedExactly(w, locals, n + 1, index, indexed + {locals[n].sourceId})
  {
  }

  /** A source added under an id already marked as indexed is never pending; any other one is. */
  lemma ReissuedIsSkipped(locals: seq<SourceSpec>, s: SourceSpec, indexed: set<string>)
    ensures Pending(locals + [s], |locals| + 1, indexed)
         == Pending(locals, |locals|, indexed) + (if s.sourceId in indexed then [] else [s])
  {
    PendingPrefix(locals, s, indexed, |locals|);
  }

  lemma {:induction false} PendingPrefix(locals: seq<SourceSpec>, s: SourceSpec, indexed: set<string>, n: nat)
    requires n <= |locals|
    ensures Pending(locals + [s], n, indexed) == Pending(locals, n, indexed)
  {
    if n > 0 { PendingPrefix(locals, s, indexed, n - 1); }
  }

  lemma {:induction false} WithoutAll(sources: seq<SourceSpec>, id: string)
    ensures |Without(sources, id)| == |sources| <==> forall s :: s in sources ==> s.sourceId != id
  {
    if sources != [] {
      var front, last := sources[..|sources| - 1], sources[|sources| - 1];
      assert sources == front + [last];
      WithoutAll(front, id);
      WithoutNone(front, id);
    }
  }

  /** The list gets shorter exactly if a source has the id, and is else unchanged. */
  lemma RemovedExactly(sources: seq<SourceSpec>, id: string)
    ensures |Without(sources, id)| != |sources| <==> exists s :: s in sources && s.sourceId == id
    ensures |Without(sources, id)| != |sources| <==> Without(sources, id) != sources
  {
    WithoutNone(sources, id);
    WithoutAll(sources, id);
  }

  ghost predicate IsOrInserted(before: map<string, IndexHit>, after: map<string, IndexHit>, aliases: seq<string>,
                               hit: IndexHit) {
    forall t: string :: Lookup(after, t)
      == (if t in before then Some(before[t]) else if t in aliases then Some(hit) else None)
  }

  lemma NewOffer(before: map<string, IndexHit>, after: map<string, IndexHit>, offers: seq<Offer>, o: Offer)
    requires Agrees(before, offers) && IsOrInserted(before, after, o.aliases, o.hit)
    ensures Agrees(after, offers + [o])
  {
    assert (offers + [o])[..|offers|] == offers;
    forall t: string ensures Lookup(after, t) == FirstOffer(offers + [o], t) {
      assert Lookup(before, t) == FirstOffer(offers, t);
    }
  }
}
