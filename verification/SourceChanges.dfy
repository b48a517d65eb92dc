/**
 What a worker answers after its list of sources has changed, against the reference on the new
 list: known misses hide new files, and resident modules outlive their source.
 */
module SourceChanges {

  import opened Wrappers
  import opened Frames
  import opened Catalogs
  import opened Index
  import opened States
  import opened Reference
  import opened Transparency

  /** The answers of a worker whose sources have become those of `y` while its cache is still sound for `x`. */
  lemma ChangedAnswers(x: Setting, y: Setting, s: State, t: State, token: string, addr: U64, now: nat)
    requires ProbeAgrees(x.world) && Coherent(x) && Settled(x, s)
    requires y.world == x.world && y.Has(t) && t.cache == s.cache && t.limits == s.limits
    ensures t.Valid()
    ensures States.Resolve(y.world, t, token, addr, now).1 ==
            if s.cache.IsResident(token) then x.Rows(token, addr)
            else if s.cache.IsKnownMiss(token) then [NotFoundRow()] else y.Rows(token, addr)
    ensures States.FunctionName(y.world, t, token, addr, now).1 ==
            if s.cache.IsResident(token) then x.Name(token, addr)
            else if s.cache.IsKnownMiss(token) then None else y.Name(token, addr)
  {
    if s.cache.IsResident(token) {
      ResidentAnswers(x, s.cache, token);
      ResidentAnswered(t, y.Find(token), token, addr, now);
    } else {
      UncachedAnswers(y, t, y.Find(token), token, addr, now);
    }
  }

  // ---- adding a source ------------------------------------------------------------------

  function WithSource(x: Setting, r: SourceRequest, nextId: U64): Setting {
    x.(sources := Add(Catalog(x.sources, nextId), r).0.sources)
  }

  /** An added source changes no answer the files already gave. */
  lemma AddedKeepsFound(x: Setting, r: SourceRequest, nextId: U64, token: string)
    requires !x.Find(token).NoFile?
    ensures WithSource(x, r, nextId).Find(token) == x.Find(token)
  {
    if Rejection(r).None? {
      AppendedFind(x.world, x.sources, SpecOf(r, SourceId(nextId)), token);
    }
  }

  /**
   When an added source is seen: a token is answered as the new list answers it, unless it is a
   known miss and the new list has a file for it, or, for function names, a name.
   */
  lemma NewSourceSeen(x: Setting, s: State, r: SourceRequest, token: string, addr: U64, now: nat)
    requires ProbeAgrees(x.world) && Coherent(x) && Settled(x, s)
    ensures Step(x.world, s, AddSourceOp(r)).0.Valid()
    ensures var t, y := Step(x.world, s, AddSourceOp(r)).0, WithSource(x, r, s.catalog.nextId);
            && y.Has(t)
            && ((States.Resolve(x.world, t, token, addr, now).1 == y.Rows(token, addr)) <==>
                (s.cache.IsKnownMiss(token) ==> y.Find(token).NoFile?))
            && ((States.FunctionName(x.world, t, token, addr, now).1 == y.Name(token, addr)) <==>
                (s.cache.IsKnownMiss(token) ==> y.Name(token, addr).None?))
  {
    var t, y := Step(x.world, s, AddSourceOp(r)).0, WithSource(x, r, s.catalog.nextId);
    ChangedAnswers(x, y, s, t, token, addr, now);
    DeniedIsNoFile(y, token, addr);
    if s.cache.IsResident(token) {
      ResidentIsGood(x, s.cache, token);
      AddedKeepsFound(x, r, s.catalog.nextId, token);
    }
  }

  /** The reference denies exactly the tokens without a file, and names no function for them. */
  lemma DeniedIsNoFile(x: Setting, token: string, addr: U64)
    ensures x.Rows(token, addr) == [NotFoundRow()] <==> x.Find(token).NoFile?
    ensures x.Find(token).NoFile? ==> x.Name(token, addr).None?
  {
  }

  // ---- dropping a source ----------------------------------------------------------------

  function WithoutSource(x: Setting, id: string): Setting {
    x.(sources := Without(x.sources, id))
  }

  /**
   When a dropped source is gone: a token that is not resident is answered as the new list answers
   it, known misses included; a resident one still as the old list did, and so not at all as the
   new one does where that has no file for it.
   */
  lemma DroppedSourceGone(x: Setting, s: State, id: string, token: string, addr: U64, now: nat)
    requires ProbeAgrees(x.world) && Coherent(x) && Settled(x, s)
    ensures Step(x.world, s, DropSourceOp(id)).0.Valid()
    ensures var t, y := Step(x.world, s, DropSourceOp(id)).0, WithoutSource(x, id);
            var z := if s.cache.IsResident(token) then x else y;
            && y.Has(t)
            && States.Resolve(x.world, t, token, addr, now).1 == z.Rows(token, addr)
            && States.FunctionName(x.world, t, token, addr, now).1 == z.Name(token, addr)
            && (s.cache.IsResident(token) && y.Find(token).NoFile? ==> x.Rows(token, addr) != y.Rows(token, addr))
  {
    var t, y := Step(x.world, s, DropSourceOp(id)).0, WithoutSource(x, id);
    ChangedAnswers(x, y, s, t, token, addr, now);
    if s.cache.IsResident(token) {
      ResidentIsGood(x, s.cache, token);
      if y.Find(token).NoFile? { FoundDiffers(x, y, token, addr); }
    } else if s.cache.IsKnownMiss(token) {
      FindCanonical(x, token);
      MissedStaysMissed(x, id, token);
    }
  }

  lemma FoundDiffers(x: Setting, y: Setting, token: string, addr: U64)
    requires !x.Find(token).NoFile? && y.Find(token).NoFile?
    ensures x.Rows(token, addr) != y.Rows(token, addr)
  {
    DeniedIsNoFile(x, token, addr);
    DeniedIsNoFile(y, token, addr);
  }

  lemma MissedStaysMissed(x: Setting, id: string, token: string)
    requires x.Find(token).NoFile?
    ensures WithoutSource(x, id).Find(token).NoFile?
  {
    if Index.Find(x.world, Without(x.sources, id), token).Some? {
      FewerSourcesFind(x.world, Without(x.sources, id), x.sources, token);
      OfferedIsFile(x, token);
    }
  }
}
