/**
 The uncached reference - locate, parse, resolve - and the cache measured against it: every fact a
 sound cache remembers is a fact about the files, and each call on one answers as the reference does.
 */
module Reference {

  import opened Wrappers
  import opened Ids
  import opened Frames
  import opened Manifest
  import opened Modules
  import opened Local
  import opened Index
  import opened Caches
  import opened CacheFacts
  import opened States

  // ---- the uncached reference ----------------------------------------------

  /** What does not change over a run: files, sources and limits. */
  datatype Setting = Setting(world: World, sources: seq<SourceSpec>, limits: Limits)
  {
    function Find(token: string): Lookedup {
      LookUp(world, sources, limits, token)
    }

    /** Locate, parse, resolve; one not_found row without a file; one error row for a malformed one. */
    function Rows(token: string, addr: U64): seq<ResolvedFrame> {
      match Find(token)
      case NoFile => [NotFoundRow()]
      case BadFile(kind) => [ErrorRow(kind, None)]
      case Good(m, _) => m.Answer(addr, limits)
    }

    function Name(token: string, addr: U64): Option<string> {
      match Find(token)
      case Good(m, _) => m.FunctionName(addr)
      case _ => None
    }

    /** The state is that of a worker in this setting. */
    ghost predicate Has(s: State) {
      s.catalog.sources == sources && s.limits == limits
    }
  }

  /** The probe that indexes a file and the parser that reads it derive the same identity. */
  ghost predicate ProbeAgrees(w: World) {
    forall p :: p in w.files && w.files[p].reader.Readable? ==>
      w.files[p].probe == Some(w.files[p].reader.image.identity)
  }

  /** The reference answers `token` as module `m` does, at every address. */
  ghost predicate AnswersAs(x: Setting, token: string, m: ParsedModule) {
    forall addr: U64 :: x.Rows(token, addr) == m.Answer(addr, x.limits) && x.Name(token, addr) == m.FunctionName(addr)
  }

  /** Whatever module any token leads to, all of that module's aliases are answered as it answers. */
  ghost predicate Coherent(x: Setting) {
    forall u, t :: x.Find(u).Good? && t in x.Find(u).parsed.Id().Aliases() ==> AnswersAs(x, t, x.Find(u).parsed)
  }

  /** The token a module was found under is one of its aliases, and each of its aliases leads to some file. */
  lemma FoundUnderAlias(x: Setting, u: string)
    requires ProbeAgrees(x.world) && x.Find(u).Good?
    ensures CanonicalToken(u) in x.Find(u).parsed.Id().Aliases()
    ensures forall t :: t in x.Find(u).parsed.Id().Aliases() ==> !x.Find(t).NoFile?
  {
    FoundIsAlias(x.world, x.sources, u);
    ProbedIdentity(x, u);
    var identity := x.Find(u).parsed.Id();
    AliasesCanonical(identity);
    forall t | t in identity.Aliases() ensures !x.Find(t).NoFile? {
      AliasesAreFound(x.world, x.sources, u, t);
      OfferedIsFile(x, t);
    }
  }

  /** The file a module was parsed from is indexed under that module's identity. */
  lemma ProbedIdentity(x: Setting, u: string)
    requires ProbeAgrees(x.world) && x.Find(u).Good?
    ensures Index.Find(x.world, x.sources, u).Some?
    ensures var path := Index.Find(x.world, x.sources, u).value.path;
            path in x.world.files && x.world.files[path].probe == Some(x.Find(u).parsed.Id())
  {
  }

  lemma OfferedIsFile(x: Setting, t: string)
    requires Index.Find(x.world, x.sources, t).Some?
    ensures !x.Find(t).NoFile?
  {
    FoundIsAlias(x.world, x.sources, t);
  }

  lemma FindCanonical(x: Setting, token: string)
    ensures x.Find(CanonicalToken(token)) == x.Find(token)
  {
    CanonicalIdempotent(token);
  }

  // ---- what a run keeps ------------------------------------------------------

  ghost predicate LeadsTo(x: Setting, u: string, id: string) {
    x.Find(u).Good? && x.Find(u).parsed.DebugIdStr() == id
  }

  /** An alias is a recorded miss of its own token, or an alias of some file's module. */
  ghost predicate AliasSound(x: Setting, t: string, id: string) {
    || (x.Find(t).NoFile? && id == t)
    || exists u :: LeadsTo(x, u, id) && t in x.Find(u).parsed.Id().Aliases()
  }

  ghost predicate ModuleSound(x: Setting, m: ParsedModule) {
    exists u :: LeadsTo(x, u, m.DebugIdStr()) && x.Find(u).parsed == m
  }

  /** A miss entry's token has no file; any other entry is the debug-id of some file's module. */
  ghost predicate EntrySound(x: Setting, e: ManifestEntry) {
    if e.miss then x.Find(e.debugId).NoFile? else exists u :: LeadsTo(x, u, e.debugId)
  }

  /** Every fact the cache remembers is a fact about the files. */
  ghost predicate Sound(x: Setting, c: Cache) {
    && (forall t :: t in c.negative ==> x.Find(t).NoFile?)
    && (forall t :: t in c.aliases ==> AliasSound(x, t, c.aliases[t]))
    && (forall id :: id in c.Table() ==> ModuleSound(x, c.Table()[id].parsed))
    && (forall id :: id in c.entries ==> EntrySound(x, c.entries[id]))
  }

  /** A resident module answers for every token whose alias points to it. */
  lemma ResidentAnswers(x: Setting, c: Cache, token: string)
    requires ProbeAgrees(x.world) && Coherent(x) && Consistent(c) && Sound(x, c) && c.IsResident(token)
    ensures AnswersAs(x, token, c.Table()[c.DebugIdOf(token).value].parsed)
  {
    var t, id := CanonicalToken(token), c.DebugIdOf(token).value;
    var m := c.Table()[id].parsed;
    FindCanonical(x, token);
    assert ResidentOk(c, id) && ModuleSound(x, m) && AliasSound(x, t, id);
    var v :| LeadsTo(x, v, m.DebugIdStr()) && x.Find(v).parsed == m;
    AliasesCanonical(m.Id());
    FoundUnderAlias(x, v);
    var u :| LeadsTo(x, u, id) && t in x.Find(u).parsed.Id().Aliases();
    AliasesCanonical(x.Find(u).parsed.Id());
    SameAnswers(x, token, t, id, x.Find(u).parsed, m);
  }

  /** Where files are coherent, a token whose alias leads to a resident module leads to a good file. */
  lemma ResidentIsGood(x: Setting, c: Cache, token: string)
    requires ProbeAgrees(x.world) && Coherent(x) && Consistent(c) && Sound(x, c) && c.IsResident(token)
    ensures x.Find(token).Good? && !c.IsKnownMiss(token)
  {
    var m := c.Table()[c.DebugIdOf(token).value].parsed;
    ResidentAnswers(x, c, token);
    assert x.Rows(token, 0) == m.Answer(0, x.limits);
    assert x.Rows(token, 0)[0].debugId.Some?;
    FindCanonical(x, token);
  }

  lemma SameAnswers(x: Setting, token: string, t: string, id: string, m: ParsedModule, m': ParsedModule)
    requires x.Find(t) == x.Find(token)
    requires AnswersAs(x, t, m) && AnswersAs(x, id, m) && AnswersAs(x, id, m')
    ensures AnswersAs(x, token, m')
  {
    forall addr: U64
      ensures x.Rows(token, addr) == m'.Answer(addr, x.limits) && x.Name(token, addr) == m'.FunctionName(addr)
    {
      assert x.Rows(token, addr) == x.Rows(t, addr) == m.Answer(addr, x.limits);
      assert x.Rows(id, addr) == m.Answer(addr, x.limits) && x.Rows(id, addr) == m'.Answer(addr, x.limits);
      assert x.Name(token, addr) == x.Name(t, addr) == m.FunctionName(addr);
      assert x.Name(id, addr) == m.FunctionName(addr) && x.Name(id, addr) == m'.FunctionName(addr);
    }
  }

  // ---- each operation keeps it ------------------------------------------------

  /** Soundness survives losing modules and changing counters. */
  lemma SoundFrame(x: Setting, c: Cache, d: Cache)
    requires Sound(x, c) && d.aliases == c.aliases && d.negative == c.negative && d.entries.Keys == c.entries.Keys
    requires forall id :: id in c.entries ==> SameButCounters(d.entries[id], c.entries[id])
    requires forall id :: id in d.Table() ==> id in c.Table() && d.Table()[id].parsed == c.Table()[id].parsed
    ensures Sound(x, d)
  {
    forall id | id in d.entries ensures EntrySound(x, d.entries[id]) {
      assert EntrySound(x, c.entries[id]);
    }
    forall id | id in d.Table() ensures ModuleSound(x, d.Table()[id].parsed) {
      assert ModuleSound(x, c.Table()[id].parsed);
    }
  }

  lemma MissSound(x: Setting, c: Cache, token: string, now: nat)
    requires Sound(x, c) && x.Find(token).NoFile?
    ensures Sound(x, RecordMiss(c, token, now))
  {
    FindCanonical(x, token);
    var d := RecordMiss(c, token, now);
    forall t | t in d.aliases ensures AliasSound(x, t, d.aliases[t]) {
      if t in c.aliases { assert AliasSound(x, t, c.aliases[t]); }
    }
    forall id | id in d.entries ensures EntrySound(x, d.entries[id]) {
      if id in c.entries { assert EntrySound(x, c.entries[id]); }
    }
    forall id | id in d.Table() ensures ModuleSound(x, d.Table()[id].parsed) {
      assert ModuleSound(x, c.Table()[id].parsed);
    }
  }

  lemma StoredSound(x: Setting, c: Cache, found: Lookedup, u: string, now: nat)
    requires Valid(c) && Sound(x, c) && found == x.Find(u) && found.Good?
    ensures var m, origin := found.parsed, found.origin;
            Sound(x, Store(Register(c, m, origin, now), m.DebugIdStr(), FreshResident(m, now)))
  {
    var m, origin := found.parsed, found.origin;
    var id := m.DebugIdStr();
    assert LeadsTo(x, u, id) && ModuleSound(x, m);
    var d := Store(Register(c, m, origin, now), id, FreshResident(m, now));
    forall t | t in d.aliases ensures AliasSound(x, t, d.aliases[t]) {
      if t !in m.Id().Aliases() { assert AliasSound(x, t, c.aliases[t]); }
    }
    forall k | k in d.entries ensures EntrySound(x, d.entries[k]) {
      if k != id { assert EntrySound(x, c.entries[k]); }
    }
    forall k | k in d.Table() ensures ModuleSound(x, d.Table()[k].parsed) {
      if k != id { assert ModuleSound(x, c.Table()[k].parsed); }
    }
  }

  lemma InsertSound(x: Setting, c: Cache, found: Lookedup, u: string, now: nat)
    requires Valid(c) && Sound(x, c) && found == x.Find(u) && found.Good?
    ensures Sound(x, Insert(c, found.parsed, found.origin, now))
  {
    var m, origin := found.parsed, found.origin;
    var d := Store(Register(c, m, origin, now), m.DebugIdStr(), FreshResident(m, now));
    RegisteredStored(c, m, origin, now);
    EvictToBudgetFits(d);
    StoredSound(x, c, found, u, now);
    EvictedSound(x, d, EvictToBudget(d));
  }

  lemma EvictedSound(x: Setting, c: Cache, d: Cache)
    requires Sound(x, c) && OnlyEvicted(c, d)
    ensures Sound(x, d)
  {
    OnlyEvictedCounters(c, d);
    SoundFrame(x, c, d);
  }

  lemma AnsweredSound(x: Setting, c: Cache, token: string, now: nat)
    requires Sound(x, c)
    ensures Sound(x, Answered(c, token, now))
  {
    SoundFrame(x, c, Answered(c, token, now));
  }

  lemma CalledSound(x: Setting, c: Cache, found: Lookedup, token: string, now: nat)
    requires Valid(c) && Sound(x, c) && found == x.Find(token)
    ensures Sound(x, Called(c, found, token, now))
  {
    if c.IsResident(token) || c.IsKnownMiss(token) {
      AnsweredSound(x, c, token, now);
    } else if found.NoFile? {
      MissSound(x, c, token, now);
    } else if found.Good? {
      InsertSound(x, c, found, token, now);
      AnsweredSound(x, Insert(c, found.parsed, found.origin, now), token, now);
    }
  }

  // ---- the resolve flow ---------------------------------------------------------

  /** After an insertion the requested token itself is resident, as the module just parsed. */
  lemma InsertedIsResident(x: Setting, c: Cache, token: string, now: nat)
    requires ProbeAgrees(x.world) && Valid(c) && x.Find(token).Good?
    ensures var m := x.Find(token).parsed;
            var d := Insert(c, m, x.Find(token).origin, now);
            d.IsResident(token) && d.DebugIdOf(token) == Some(m.DebugIdStr()) && d.Table()[m.DebugIdStr()].parsed == m
  {
    var m, origin := x.Find(token).parsed, x.Find(token).origin;
    FoundUnderAlias(x, token);
    InsertIsLru(c, m, origin, now);
    InsertMaps(c, m, origin, now);
  }

  /**
   One resolve call: the answer is the reference's, and the defensive not_found row for a module
   that is not resident after all is never what is returned.
   */
  lemma ResolveLikeReference(x: Setting, s: State, token: string, addr: U64, now: nat)
    requires ProbeAgrees(x.world) && Coherent(x) && s.Valid() && x.Has(s) && Sound(x, s.cache)
    ensures States.Resolve(x.world, s, token, addr, now).1 == x.Rows(token, addr)
    ensures States.FunctionName(x.world, s, token, addr, now).1 == x.Name(token, addr)
    ensures EnsureResident(x.world, s, token, now).1.Ready? ==>
              EnsureResident(x.world, s, token, now).0.cache.IsResident(token)
  {
    AnswersLikeReference(x, s, x.Find(token), token, addr, now);
    ReadyIsResident(x, s, token, now);
  }

  /** Whatever made a module resident for a token, it is resident afterwards. */
  lemma ReadyIsResident(x: Setting, s: State, token: string, now: nat)
    requires ProbeAgrees(x.world) && s.Valid() && x.Has(s)
    ensures var (s', ensured) := Ensure(s, x.Find(token), token, now);
            ensured.Ready? ==> s'.cache.IsResident(token)
  {
    if !s.cache.IsResident(token) && !s.cache.IsKnownMiss(token) && x.Find(token).Good? {
      InsertedIsResident(x, s.cache, token, now);
    }
  }

  lemma AnswersLikeReference(x: Setting, s: State, found: Lookedup, token: string, addr: U64, now: nat)
    requires ProbeAgrees(x.world) && Coherent(x) && s.Valid() && x.Has(s) && Sound(x, s.cache) && found == x.Find(token)
    ensures ResolveFound(s, found, token, addr, now).1 == x.Rows(token, addr)
    ensures NameFound(s, found, token, addr, now).1 == x.Name(token, addr)
  {
    if s.cache.IsResident(token) {
      ResidentAnswered(s, found, token, addr, now);
      ResidentAnswers(x, s.cache, token);
    } else {
      UncachedAnswers(x, s, found, token, addr, now);
      if s.cache.IsKnownMiss(token) { KnownMissDenied(x, s.cache, token, addr); }
    }
  }

  lemma KnownMissDenied(x: Setting, c: Cache, token: string, addr: U64)
    requires Sound(x, c) && c.IsKnownMiss(token)
    ensures x.Rows(token, addr) == [NotFoundRow()] && x.Name(token, addr) == None
  {
    FindCanonical(x, token);
  }

  /** A call that parses answers from the module just parsed. */
  lemma ParsedAnswers(x: Setting, s: State, found: Lookedup, token: string, addr: U64, now: nat)
    requires ProbeAgrees(x.world) && s.Valid() && x.Has(s) && found == x.Find(token) && found.Good?
    requires !s.cache.IsResident(token) && !s.cache.IsKnownMiss(token)
    ensures ResolveFound(s, found, token, addr, now).1 == found.parsed.Answer(addr, x.limits)
    ensures NameFound(s, found, token, addr, now).1 == found.parsed.FunctionName(addr)
  {
    InsertedIsResident(x, s.cache, token, now);
  }

  /** What a call answers a token that is not resident: the reference's answer, unless a known miss hides it. */
  lemma UncachedAnswers(x: Setting, s: State, found: Lookedup, token: string, addr: U64, now: nat)
    requires ProbeAgrees(x.world) && s.Valid() && x.Has(s) && !s.cache.IsResident(token) && found == x.Find(token)
    ensures ResolveFound(s, found, token, addr, now).1 ==
            if s.cache.IsKnownMiss(token) then [NotFoundRow()] else x.Rows(token, addr)
    ensures NameFound(s, found, token, addr, now).1 == if s.cache.IsKnownMiss(token) then None else x.Name(token, addr)
  {
    if !s.cache.IsKnownMiss(token) && found.Good? { ParsedAnswers(x, s, found, token, addr, now); }
  }

  lemma ResidentAnswered(s: State, found: Lookedup, token: string, addr: U64, now: nat)
    requires s.Valid() && s.cache.IsResident(token)
    ensures var m := s.cache.Table()[s.cache.DebugIdOf(token).value].parsed;
            && ResolveFound(s, found, token, addr, now).1 == m.Answer(addr, s.limits)
            && NameFound(s, found, token, addr, now).1 == m.FunctionName(addr)
  {
  }
}
