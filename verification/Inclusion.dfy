/**
 LRU inclusion: on one sequence of calls, whatever is resident under a smaller byte budget is
 resident under a larger one too, so the larger budget never parses more.
 */
module Inclusion {

  import opened Wrappers
  import opened Ids
  import opened Manifest
  import opened Modules
  import opened Catalogs
  import opened Lru
  import opened Log
  import opened Caches
  import opened CacheFacts
  import opened States
  import opened Reference
  import opened Transparency
  import opened Unambiguous
  import opened Conservation
  import opened ColdStart

  // ---- the relation ------------------------------------------------------------

  /** Every resident module of `a` is resident in `b`, and `a`'s recency order begins `b`'s. */
  ghost predicate Nested(a: Cache, b: Cache) {
    && a.Order() <= b.Order()
    && forall id :: id in a.Table() ==>
         id in b.Table() && b.Table()[id].parsed == a.Table()[id].parsed && b.Table()[id].bytes == a.Table()[id].bytes
  }

  ghost predicate SameMaps(a: Cache, b: Cache) {
    && a.aliases == b.aliases && a.negative == b.negative && a.entries.Keys == b.entries.Keys
    && a.resident.cap == b.resident.cap && a.maxBytes <= b.maxBytes
  }

  /** The smaller cache `a` is included in the larger cache `b`, and has parsed at least as often. */
  ghost predicate Included(a: Cache, b: Cache) {
    && Nested(a, b) && SameMaps(a, b) && b.parseCount <= a.parseCount
    && DroppedBytes(a.log) == 0 && DroppedBytes(b.log) == 0
  }

  lemma PrefixRemove<K(!new)>(p: seq<K>, q: seq<K>, k: K)
    requires p <= q
    ensures Remove(p, k) <= Remove(q, k)
  {
    assert q == p + q[|p|..];
    RemoveConcat(p, q[|p|..], k);
  }

  // ---- hits and removals -----------------------------------------------------------

  lemma UseNested(a: Cache, b: Cache, id: string, now: nat)
    requires Nested(a, b) && id in a.Table()
    ensures Nested(Use(a, id, now), Use(b, id, now))
  {
    PrefixRemove(a.Order(), b.Order(), id);
  }

  lemma UseDropped(c: Cache, id: string, now: nat)
    requires id in c.Table()
    ensures DroppedBytes(Use(c, id, now).log) == DroppedBytes(c.log)
  {
    CountSnoc(c.log, Hit(id));
  }

  lemma UseIncluded(a: Cache, b: Cache, id: string, now: nat)
    requires Included(a, b) && id in a.Table()
    ensures Included(Use(a, id, now), Use(b, id, now))
  {
    UseNested(a, b, id, now);
    UseDropped(a, id, now);
    UseDropped(b, id, now);
  }

  lemma TakeOutDropped(c: Cache, id: string)
    requires id in c.Table()
    ensures DroppedBytes(TakeOut(c, id).log) == DroppedBytes(c.log)
  {
    CountSnoc(c.log, Evicted(id, c.Table()[id].bytes));
  }

  lemma EvictTokenIncluded(a: Cache, b: Cache, token: string)
    requires Valid(a) && Valid(b) && Included(a, b)
    ensures Included(EvictToken(a, token).0, EvictToken(b, token).0)
  {
    if b.IsResident(token) {
      EvictIdIncluded(a, b, b.DebugIdOf(token).value, EvictToken(a, token).0, EvictToken(b, token).0);
    }
  }

  lemma EvictIdIncluded(a: Cache, b: Cache, id: string, a': Cache, b': Cache)
    requires Included(a, b) && a.resident.Ok() && id in b.Table()
    requires b' == TakeOut(b, id).(residentBytes := b'.residentBytes)
    requires a' == if id in a.Table() then TakeOut(a, id).(residentBytes := a'.residentBytes) else a
    ensures Included(a', b')
  {
    TakeOutDropped(b, id);
    TakeOutNested(a, b, id);
    if id in a.Table() { TakeOutDropped(a, id); }
  }

  lemma TakeOutNested(a: Cache, b: Cache, id: string)
    requires a.resident.Ok() && Nested(a, b) && id in b.Table()
    ensures Nested(if id in a.Table() then TakeOut(a, id) else a, TakeOut(b, id))
  {
    PrefixRemove(a.Order(), b.Order(), id);
    RemoveMembers(a.Order(), id);
  }

  lemma EvictAllIncluded(a: Cache, b: Cache)
    requires Valid(a) && Valid(b) && Included(a, b)
    ensures Included(EvictAll(a).0, EvictAll(b).0)
  {
    EvictAllKeeps(a);
    EvictAllKeeps(b);
  }

  // ---- insertions --------------------------------------------------------------------

  /** Who is resident after an insertion: the new module, and others as they were. */
  lemma InsertTable(c: Cache, m: ParsedModule, origin: Origin, now: nat)
    requires Valid(c)
    ensures var d, id := Insert(c, m, origin, now), m.DebugIdStr();
            forall k :: k in d.Table() && k != id ==> k in c.Table() && d.Table()[k] == c.Table()[k]
  {
    var s := Store(Register(c, m, origin, now), m.DebugIdStr(), FreshResident(m, now));
    RegisteredStored(c, m, origin, now);
    EvictToBudgetFits(s);
  }

  ghost predicate NoneDropped(log: seq<Event<string>>) {
    forall i :: 0 <= i < |log| ==> !log[i].Dropped?
  }

  /** An insertion that drops a module at count capacity leaves a trace in the history. */
  lemma DropIsLogged(c: Cache, m: ParsedModule, origin: Origin, now: nat)
    requires Valid(c) && Drops(c.resident, m.DebugIdStr())
    ensures !NoneDropped(Insert(c, m, origin, now).log)
  {
    var s := Store(Register(c, m, origin, now), m.DebugIdStr(), FreshResident(m, now));
    RegisteredStored(c, m, origin, now);
    EvictToBudgetLog(s);
    assert s.log[|c.log|].Dropped?;
  }

  /**
   Of two prefixes of one order, the one that fits the smaller budget is no longer than the one
   that cannot be extended within the larger budget.
   */
  lemma FewerFit<K(!new), V>(p: seq<K>, q: seq<K>, all: seq<K>, ta: map<K, V>, tb: map<K, V>, size: V -> nat,
                             small: nat, large: nat)
    requires p <= all && q <= all && q != [] && small <= large
    requires TotalUpTo(p, ta, size, |p|) <= small || |p| <= 1
    requires q < all ==> TotalUpTo(all, tb, size, |q| + 1) > large
    requires forall i :: 0 <= i < |p| ==> Weight(ta, size, p[i]) == Weight(tb, size, p[i])
    ensures p <= q
  {
    if |p| > |q| {
      TotalMonotone(all, tb, size, |q| + 1, |p|);
      TotalAgrees(p, ta, all, tb, size, |p|);
      assert false;
    }
  }

  /** The survivors of the smaller cache weigh the same in the larger one. */
  lemma SameWeights(ta: map<string, Resident>, tb: map<string, Resident>, ta': map<string, Resident>, id: string,
                    k: string)
    requires k in ta' && (k != id ==> k in ta && ta'[k] == ta[k])
    requires k in ta ==> k in tb && tb[k].bytes == ta[k].bytes
    requires id in ta'
    ensures Weight(ta', BytesOf, k) == Weight(tb[id := ta'[id]], BytesOf, k)
  {
  }

  /** The smaller cache's survivors are no more than the larger one's. */
  lemma FewerSurvive(a: Cache, b: Cache, m: ParsedModule, origin: Origin, now: nat)
    requires Valid(a) && Valid(b) && Included(a, b)
    requires m.DebugIdStr() !in b.Table() && !Drops(b.resident, m.DebugIdStr())
    ensures Insert(a, m, origin, now).Order() <= Insert(b, m, origin, now).Order()
  {
    var a', b' := Insert(a, m, origin, now), Insert(b, m, origin, now);
    InsertIsLru(a, m, origin, now);
    InsertIsLru(b, m, origin, now);
    InsertTable(a, m, origin, now);
    InsertDropped(a, m, origin, now);
    InsertTable(b, m, origin, now);
    InsertDropped(b, m, origin, now);
    InsertKeepsAllThatFits(b, m, origin, now);
    SurvivorsFit(a, b, a', b', m.DebugIdStr(), FreshResident(m, now));
  }

  lemma SurvivorsFit(a: Cache, b: Cache, a': Cache, b': Cache, id: string, r: Resident)
    requires Included(a, b) && a'.resident.Ok() && id !in b.Table() && !Drops(b.resident, id)
    requires a'.Order() <= StoredOrder(a, id) && b'.Order() <= StoredOrder(b, id) && b'.Order() != []
    requires id in a'.Table() && a'.Table()[id] == r
    requires forall k :: k in a'.Table() && k != id ==> k in a.Table() && a'.Table()[k] == a.Table()[k]
    requires a'.TrueBytes() <= a.maxBytes || a'.Order() == [id]
    requires DroppedBytes(b'.log) == DroppedBytes(b.log)
    requires b'.Order() < StoredOrder(b, id) ==>
               TotalUpTo(StoredOrder(b, id), Put(b.resident, id, r).table, BytesOf, |b'.Order()| + 1)
               + DroppedBytes(b'.log) > b.maxBytes
    ensures a'.Order() <= b'.Order()
  {
    PrefixRemove(a.Order(), b.Order(), id);
    forall i | 0 <= i < |a'.Order()|
      ensures Weight(a'.Table(), BytesOf, a'.Order()[i]) == Weight(b.Table()[id := r], BytesOf, a'.Order()[i])
    {
      assert a'.Order()[i] in a'.Table();
      SameWeights(a.Table(), b.Table(), a'.Table(), id, a'.Order()[i]);
    }
    FewerFit(a'.Order(), b'.Order(), StoredOrder(b, id), a'.Table(), b.Table()[id := r], BytesOf, a.maxBytes,
             b.maxBytes);
  }

  /** Both caches insert the same module. */
  lemma BothInsert(a: Cache, b: Cache, m: ParsedModule, origin: Origin, now: nat)
    requires Valid(a) && Valid(b) && Included(a, b)
    requires m.DebugIdStr() !in b.Table() && !Drops(b.resident, m.DebugIdStr())
    ensures Included(Insert(a, m, origin, now), Insert(b, m, origin, now))
  {
    var a', b' := Insert(a, m, origin, now), Insert(b, m, origin, now);
    FewerSurvive(a, b, m, origin, now);
    InsertMaps(a, m, origin, now);
    InsertMaps(b, m, origin, now);
    InsertTable(a, m, origin, now);
    InsertDropped(a, m, origin, now);
    InsertTable(b, m, origin, now);
    InsertDropped(b, m, origin, now);
    InsertIsLru(a, m, origin, now);
    InsertIsLru(b, m, origin, now);
    TableNested(a, b, a', b', m.DebugIdStr());
  }

  lemma TableNested(a: Cache, b: Cache, a': Cache, b': Cache, id: string)
    requires Nested(a, b) && a'.resident.Ok() && b'.resident.Ok() && a'.Order() <= b'.Order()
    requires id in a'.Table() && id in b'.Table() && a'.Table()[id] == b'.Table()[id]
    requires forall k :: k in a'.Table() && k != id ==> k in a.Table() && a'.Table()[k] == a.Table()[k]
    requires forall k :: k in b'.Table() && k != id ==> k in b.Table() && b'.Table()[k] == b.Table()[k]
    ensures Nested(a', b')
  {
    forall k | k in a'.Table()
      ensures k in b'.Table() && b'.Table()[k].parsed == a'.Table()[k].parsed
              && b'.Table()[k].bytes == a'.Table()[k].bytes
    {
      assert k in a'.Order();
      assert k in b'.Order();
    }
  }

  /** The smaller cache parses anew what the larger one still holds. */
  lemma OneInserts(a: Cache, b: Cache, m: ParsedModule, origin: Origin, now: nat)
    requires Valid(a) && Valid(b) && Included(a, b)
    requires m.DebugIdStr() !in a.Table() && m.DebugIdStr() in b.Table() && b.Table()[m.DebugIdStr()].parsed == m
    requires PointsHere(b, m.DebugIdStr()) && CanonicalToken(m.DebugIdStr()) !in b.negative
    ensures var a', id := Insert(a, m, origin, now), m.DebugIdStr();
            id in a'.Table() && Included(Use(a', id, now), Use(b, id, now))
  {
    RoomInSmaller(a, b, m.DebugIdStr());
    InsertIsLru(a, m, origin, now);
    InsertTable(a, m, origin, now);
    InsertDropped(a, m, origin, now);
    assert ResidentOk(b, m.DebugIdStr());
    KnownMaps(a, b, m, origin, now);
    OneInserted(a, b, Insert(a, m, origin, now), m, now);
  }

  /** Parsing a module the larger cache still holds teaches the maps nothing. */
  lemma KnownMaps(a: Cache, b: Cache, m: ParsedModule, origin: Origin, now: nat)
    requires a.resident.Ok() && SameMaps(a, b) && m.DebugIdStr() in b.Table() && b.Table()[m.DebugIdStr()].parsed == m
    requires PointsHere(b, m.DebugIdStr()) && CanonicalToken(m.DebugIdStr()) !in b.negative
             && m.DebugIdStr() in b.entries
    ensures SameMaps(Insert(a, m, origin, now), b) && Insert(a, m, origin, now).parseCount == a.parseCount + 1
  {
    InsertMaps(a, m, origin, now);
    assert PointAliases(a.aliases, m.Id().Aliases(), m.DebugIdStr()) == a.aliases;
  }

  lemma OneInserted(a: Cache, b: Cache, a': Cache, m: ParsedModule, now: nat)
    requires Included(a, b) && m.DebugIdStr() in b.Table() && b.Table()[m.DebugIdStr()].parsed == m
    requires b.Table()[m.DebugIdStr()].bytes == m.ResidentBytes() && b.resident.Ok() && a'.resident.Ok()
    requires !Drops(a.resident, m.DebugIdStr())
    requires a'.Order() != [] && a'.Order()[0] == m.DebugIdStr() && a'.Order() <= StoredOrder(a, m.DebugIdStr())
    requires m.DebugIdStr() in a'.Table() && a'.Table()[m.DebugIdStr()] == FreshResident(m, now)
    requires forall k :: k in a'.Table() && k != m.DebugIdStr() ==> k in a.Table() && a'.Table()[k] == a.Table()[k]
    requires SameMaps(a', b) && a'.parseCount > a.parseCount && DroppedBytes(a'.log) == 0
    ensures Included(Use(a', m.DebugIdStr(), now), Use(b, m.DebugIdStr(), now))
  {
    UseDropped(a', m.DebugIdStr(), now);
    UseDropped(b, m.DebugIdStr(), now);
    OneInsertsNested(a, b, a', m, now);
  }

  lemma RoomInSmaller(a: Cache, b: Cache, id: string)
    requires Valid(a) && Valid(b) && Nested(a, b) && a.resident.cap == b.resident.cap && id !in a.Table()
             && id in b.Table()
    ensures !Drops(a.resident, id)
  {
    assert id in b.Order() && id !in a.Order();
    assert a.Order() != b.Order();
  }

  lemma OneInsertsNested(a: Cache, b: Cache, a': Cache, m: ParsedModule, now: nat)
    requires Nested(a, b) && m.DebugIdStr() in b.Table() && b.Table()[m.DebugIdStr()].parsed == m
    requires b.Table()[m.DebugIdStr()].bytes == m.ResidentBytes() && b.resident.Ok() && a'.resident.Ok()
    requires !Drops(a.resident, m.DebugIdStr())
    requires a'.Order() != [] && a'.Order()[0] == m.DebugIdStr() && a'.Order() <= StoredOrder(a, m.DebugIdStr())
    requires m.DebugIdStr() in a'.Table() && a'.Table()[m.DebugIdStr()] == FreshResident(m, now)
    requires forall k :: k in a'.Table() && k != m.DebugIdStr() ==> k in a.Table() && a'.Table()[k] == a.Table()[k]
    ensures Nested(Use(a', m.DebugIdStr(), now), Use(b, m.DebugIdStr(), now))
  {
    var id := m.DebugIdStr();
    PrefixRemove(a.Order(), b.Order(), id);
    MostRecentStays(a'.Order(), id);
  }

  /** Touching the most recent key changes nothing in the order. */
  lemma MostRecentStays(order: seq<string>, id: string)
    requires Distinct(order) && order != [] && order[0] == id
    ensures [id] + Remove(order, id) == order
  {
    assert order == [id] + order[1..];
    RemoveConcat([id], order[1..], id);
    assert id !in order[1..];
    RemoveMembers(order[1..], id);
    assert [id][..0] == [];
  }

  // ---- calls --------------------------------------------------------------------------

  /** A module that is resident for a token is the one the files give for it; the token is no known miss. */
  lemma ResidentIsFound(x: Setting, c: Cache, token: string)
    requires ProbeAgrees(x.world) && Unambiguous.Unambiguous(x) && Consistent(c) && Sound(x, c) && c.IsResident(token)
    ensures x.Find(token).Good? && x.Find(token).parsed == c.Table()[c.DebugIdOf(token).value].parsed
    ensures CanonicalToken(token) !in c.negative
  {
    var t, id := CanonicalToken(token), c.DebugIdOf(token).value;
    var held := c.Table()[id].parsed;
    FindCanonical(x, token);
    assert ResidentOk(c, id) && ModuleSound(x, held) && AliasSound(x, t, id);
    var v :| LeadsTo(x, v, held.DebugIdStr()) && x.Find(v).parsed == held;
    AliasesCanonical(held.Id());
    assert x.Find(id) == x.Find(v);
    var u :| LeadsTo(x, u, id) && t in x.Find(u).parsed.Id().Aliases();
    AliasesCanonical(x.Find(u).parsed.Id());
    assert x.Find(t) == x.Find(u) && x.Find(id) == x.Find(u);
  }

  /** A resident module's own key is no known miss. */
  lemma ResidentNotMissed(x: Setting, c: Cache, id: string)
    requires ProbeAgrees(x.world) && Consistent(c) && Sound(x, c) && id in c.Table()
    ensures CanonicalToken(id) !in c.negative
  {
    var held := c.Table()[id].parsed;
    assert ResidentOk(c, id) && ModuleSound(x, held);
    var v :| LeadsTo(x, v, held.DebugIdStr()) && x.Find(v).parsed == held;
    AliasesCanonical(held.Id());
    FoundUnderAlias(x, v);
  }

  /** Two caches in one setting, alike but for their byte budgets and what is resident. */
  ghost predicate Twins(x: Setting, a: Cache, b: Cache) {
    && Valid(a) && Valid(b) && Sound(x, a) && Sound(x, b) && Orderly(a) && Orderly(b) && Included(a, b)
  }

  /** A call that parses inserts the module and counts one hit on it. */
  lemma ParsesAndHits(x: Setting, c: Cache, found: Lookedup, token: string, now: nat)
    requires ProbeAgrees(x.world) && Valid(c) && found == x.Find(token) && found.Good?
    requires !c.IsResident(token) && !c.IsKnownMiss(token)
    ensures var d, id := Insert(c, found.parsed, found.origin, now), found.parsed.DebugIdStr();
            id in d.Table() && Called(c, found, token, now) == Use(d, id, now)
  {
    InsertedIsResident(x, c, token, now);
  }

  lemma HitsOnly(c: Cache, found: Lookedup, token: string, now: nat)
    requires Valid(c) && c.IsResident(token)
    ensures Called(c, found, token, now) == Use(c, c.DebugIdOf(token).value, now)
  {
  }

  lemma ChangesNothing(c: Cache, found: Lookedup, token: string, now: nat)
    requires Valid(c) && !c.IsResident(token) && (c.IsKnownMiss(token) || found.BadFile?)
    ensures Called(c, found, token, now) == c
  {
  }

  lemma RecordsMiss(c: Cache, found: Lookedup, token: string, now: nat)
    requires Valid(c) && !c.IsResident(token) && !c.IsKnownMiss(token) && found.NoFile?
    ensures Called(c, found, token, now) == RecordMiss(c, token, now)
  {
  }

  /** A module resident for a token is found for it, led to by its aliases, and no known miss. */
  lemma ResidentReady(x: Setting, c: Cache, token: string)
    requires ProbeAgrees(x.world) && Unambiguous.Unambiguous(x)
    requires Consistent(c) && Sound(x, c) && Pointed(c) && c.IsResident(token)
    ensures var id := c.DebugIdOf(token).value;
            && x.Find(token).Good? && x.Find(token).parsed == c.Table()[id].parsed
            && x.Find(token).parsed.DebugIdStr() == id
            && PointsHere(c, id) && CanonicalToken(id) !in c.negative && CanonicalToken(token) !in c.negative
  {
    var id := c.DebugIdOf(token).value;
    ResidentIsFound(x, c, token);
    ResidentNotMissed(x, c, id);
    assert ResidentOk(c, id) && PointsHere(c, id);
  }

  /** A token resident only in the larger cache: the smaller one parses, the larger one hits. */
  lemma OneCalls(x: Setting, a: Cache, b: Cache, found: Lookedup, token: string, now: nat)
    requires ProbeAgrees(x.world) && Unambiguous.Unambiguous(x) && Twins(x, a, b)
    requires found == x.Find(token) && !a.IsResident(token) && b.IsResident(token)
    ensures Included(Called(a, found, token, now), Called(b, found, token, now))
  {
    ResidentReady(x, b, token);
    ParsesAndHits(x, a, found, token, now);
    HitsOnly(b, found, token, now);
    OneInserts(a, b, found.parsed, found.origin, now);
  }

  /** A token resident in neither cache whose file both parse. */
  lemma BothParse(x: Setting, a: Cache, b: Cache, found: Lookedup, token: string, now: nat)
    requires ProbeAgrees(x.world) && Unambiguous.Unambiguous(x) && Twins(x, a, b)
    requires found == x.Find(token) && found.Good?
    requires !a.IsResident(token) && !b.IsResident(token) && !b.IsKnownMiss(token)
    requires NoneDropped(Called(b, found, token, now).log)
    ensures Included(Called(a, found, token, now), Called(b, found, token, now))
  {
    ParsesAndHits(x, a, found, token, now);
    ParsesAndHits(x, b, found, token, now);
    InsertedIsAbsent(x, b, token);
    BothInsertAndHit(a, b, found.parsed, found.origin, now);
  }

  lemma BothInsertAndHit(a: Cache, b: Cache, m: ParsedModule, origin: Origin, now: nat)
    requires Valid(a) && Valid(b) && Included(a, b) && m.DebugIdStr() !in b.Table()
    requires m.DebugIdStr() in Insert(a, m, origin, now).Table() && m.DebugIdStr() in Insert(b, m, origin, now).Table()
    requires NoneDropped(Use(Insert(b, m, origin, now), m.DebugIdStr(), now).log)
    ensures Included(Use(Insert(a, m, origin, now), m.DebugIdStr(), now),
                     Use(Insert(b, m, origin, now), m.DebugIdStr(), now))
  {
    NoDropHere(b, m, origin, now);
    BothInsert(a, b, m, origin, now);
    UseIncluded(Insert(a, m, origin, now), Insert(b, m, origin, now), m.DebugIdStr(), now);
  }

  lemma NoDropHere(c: Cache, m: ParsedModule, origin: Origin, now: nat)
    requires Valid(c) && m.DebugIdStr() in Insert(c, m, origin, now).Table()
    requires NoneDropped(Use(Insert(c, m, origin, now), m.DebugIdStr(), now).log)
    ensures !Drops(c.resident, m.DebugIdStr())
  {
    NoneDroppedBefore(Insert(c, m, origin, now).log, Hit(m.DebugIdStr()));
    if Drops(c.resident, m.DebugIdStr()) { DropIsLogged(c, m, origin, now); }
  }

  lemma NoneDroppedBefore(log: seq<Event<string>>, e: Event<string>)
    requires NoneDropped(log + [e])
    ensures NoneDropped(log)
  {
    assert forall i :: 0 <= i < |log| ==> (log + [e])[i] == log[i];
  }

  lemma MissIncluded(a: Cache, b: Cache, token: string, now: nat)
    requires Included(a, b)
    ensures Included(RecordMiss(a, token, now), RecordMiss(b, token, now))
  {
    SameResidents(a, b, RecordMiss(a, token, now), RecordMiss(b, token, now));
  }

  lemma SameResidents(a: Cache, b: Cache, a': Cache, b': Cache)
    requires Nested(a, b) && a'.resident == a.resident && b'.resident == b.resident
    ensures Nested(a', b')
  {
    forall id | id in a'.Table()
      ensures id in b'.Table() && b'.Table()[id].parsed == a'.Table()[id].parsed
              && b'.Table()[id].bytes == a'.Table()[id].bytes
    {
      assert id in a.Table();
    }
  }

  lemma CalledIncluded(x: Setting, a: Cache, b: Cache, found: Lookedup, token: string, now: nat)
    requires ProbeAgrees(x.world) && Unambiguous.Unambiguous(x) && Twins(x, a, b) && found == x.Find(token)
    requires NoneDropped(Called(b, found, token, now).log)
    ensures Included(Called(a, found, token, now), Called(b, found, token, now))
  {
    if a.IsResident(token) {
      BothHit(a, b, found, token, now);
    } else if b.IsResident(token) {
      OneCalls(x, a, b, found, token, now);
    } else if b.IsKnownMiss(token) || found.BadFile? {
      ChangesNothing(a, found, token, now);
      ChangesNothing(b, found, token, now);
    } else if found.NoFile? {
      RecordsMiss(a, found, token, now);
      RecordsMiss(b, found, token, now);
      MissIncluded(a, b, token, now);
    } else {
      BothParse(x, a, b, found, token, now);
    }
  }

  lemma BothHit(a: Cache, b: Cache, found: Lookedup, token: string, now: nat)
    requires Valid(a) && Valid(b) && Included(a, b) && a.IsResident(token)
    ensures Included(Called(a, found, token, now), Called(b, found, token, now))
  {
    HitsOnly(a, found, token, now);
    HitsOnly(b, found, token, now);
    UseIncluded(a, b, a.DebugIdOf(token).value, now);
  }

  // ---- restarts ------------------------------------------------------------------------

  /** What a sound cache remembers of a debug-id is whether it has a file. */
  lemma MissIsNoFile(x: Setting, c: Cache, id: string)
    requires ProbeAgrees(x.world) && Sound(x, c) && id in c.entries && c.entries[id].debugId == id
    ensures c.entries[id].miss <==> x.Find(id).NoFile?
  {
    assert EntrySound(x, c.entries[id]);
    if !c.entries[id].miss {
      var u :| LeadsTo(x, u, id);
      AliasesCanonical(x.Find(u).parsed.Id());
      FoundUnderAlias(x, u);
    }
  }

  lemma RestartEmpty(s: State, maxBytes: nat, maxModules: nat)
    requires s.Valid()
    ensures var c := Restart(s, maxBytes, maxModules).cache;
            && c.resident == Empty(Max(1, maxModules)) && c.maxBytes == maxBytes && c.parseCount == 0
            && DroppedBytes(c.log) == 0
  {
    LoadUpToResident(New(maxBytes, maxModules), Export(s).1.entries, |Export(s).1.entries|);
  }

  /** Two bare caches that know the same debug-ids and the same misses have the same maps. */
  lemma BareMaps(a: Cache, b: Cache)
    requires Bare(a) && Bare(b) && a.entries.Keys == b.entries.Keys
    requires forall id :: id in a.entries ==> (a.entries[id].miss <==> b.entries[id].miss)
    ensures a.aliases == b.aliases && a.negative == b.negative
  {
  }

  lemma RestartIncluded(x: Setting, a: State, b: State, small: nat, large: nat, maxModules: nat)
    requires ProbeAgrees(x.world) && Settled(x, a) && Settled(x, b) && SameMaps(a.cache, b.cache) && small <= large
    ensures Included(Restart(a, small, maxModules).cache, Restart(b, large, maxModules).cache)
  {
    var a', b' := Restart(a, small, maxModules).cache, Restart(b, large, maxModules).cache;
    RestartEmpty(a, small, maxModules);
    RestartEmpty(b, large, maxModules);
    RestartedMaps(a, small, maxModules);
    RestartedMaps(b, large, maxModules);
    EntriesKeyed(a.cache);
    EntriesKeyed(b.cache);
    forall id | id in a'.entries ensures a'.entries[id].miss <==> b'.entries[id].miss {
      MissIsNoFile(x, a.cache, id);
      MissIsNoFile(x, b.cache, id);
    }
    BareMaps(a', b');
  }

  // ---- calls --------------------------------------------------------------------------

  /** The same call on both sides; a restart may give the second worker a larger byte budget. */
  predicate Wider(a: Op, b: Op) {
    a == b || (a.RestartOp? && b.RestartOp? && a.maxBytes <= b.maxBytes && a.maxModules == b.maxModules)
  }

  /** Two workers in one setting, alike but for their byte budgets and what is resident. */
  ghost predicate Paired(x: Setting, a: State, b: State) {
    && Settled(x, a) && Settled(x, b) && Orderly(a.cache) && Orderly(b.cache)
    && Included(a.cache, b.cache)
  }

  lemma CallIncluded(x: Setting, a: State, b: State, token: string, addr: U64, now: nat)
    requires ProbeAgrees(x.world) && Unambiguous.Unambiguous(x) && Paired(x, a, b)
    requires NoneDropped(States.Resolve(x.world, b, token, addr, now).0.cache.log)
    ensures Included(States.Resolve(x.world, a, token, addr, now).0.cache,
                     States.Resolve(x.world, b, token, addr, now).0.cache)
  {
    ResolveCalls(a, x.Find(token), token, addr, now);
    ResolveCalls(b, x.Find(token), token, addr, now);
    CalledIncluded(x, a.cache, b.cache, x.Find(token), token, now);
  }

  lemma NameIncluded(x: Setting, a: State, b: State, token: string, addr: U64, now: nat)
    requires ProbeAgrees(x.world) && Unambiguous.Unambiguous(x) && Paired(x, a, b)
    requires NoneDropped(States.FunctionName(x.world, b, token, addr, now).0.cache.log)
    ensures Included(States.FunctionName(x.world, a, token, addr, now).0.cache,
                     States.FunctionName(x.world, b, token, addr, now).0.cache)
  {
    FastPathSameState(x.world, a, token, addr, now);
    FastPathSameState(x.world, b, token, addr, now);
    CallIncluded(x, a, b, token, addr, now);
  }

  lemma SyncIncluded(a: Cache, b: Cache)
    requires Included(a, b)
    ensures Included(Sync(a), Sync(b))
  {
    SameResidents(a, b, Sync(a), Sync(b));
  }

  lemma MoveIncluded(x: Setting, a: State, b: State, p: Op, q: Op)
    requires ProbeAgrees(x.world) && Unambiguous.Unambiguous(x) && Paired(x, a, b) && Fixed(p) && Wider(p, q)
    requires NoneDropped(Step(x.world, b, q).0.cache.log)
    ensures Included(Step(x.world, a, p).0.cache, Step(x.world, b, q).0.cache)
  {
    match p {
      case ResolveOp(token, addr, now) => CallIncluded(x, a, b, token, addr, now);
      case NameOp(token, addr, now) => NameIncluded(x, a, b, token, addr, now);
      case EvictOp(token) => EvictTokenIncluded(a.cache, b.cache, token);
      case EvictAllOp => EvictAllIncluded(a.cache, b.cache);
      case ExportOp => SyncIncluded(a.cache, b.cache);
      case RestartOp(maxBytes, maxModules) => RestartIncluded(x, a, b, maxBytes, q.maxBytes, maxModules);
    }
  }

  lemma StepIncluded(x: Setting, a: State, b: State, p: Op, q: Op)
    requires ProbeAgrees(x.world) && Unambiguous.Unambiguous(x) && Paired(x, a, b) && Fixed(p) && Wider(p, q)
    requires NoneDropped(Step(x.world, b, q).0.cache.log)
    ensures Paired(x, Step(x.world, a, p).0, Step(x.world, b, q).0)
  {
    StepSettled(x, a, p);
    StepSettled(x, b, q);
    StepOrderly(x, a, p);
    StepOrderly(x, b, q);
    MoveIncluded(x, a, b, p, q);
  }

  // ---- runs ---------------------------------------------------------------------------

  /** At no moment of a run had the module count made it drop a module. */
  ghost predicate NeverDrops(x: Setting, s: State, ops: seq<Op>)
    requires s.Valid()
  {
    NoneDropped(After(x.world, s, ops).cache.log) && (ops == [] || NeverDrops(x, s, ops[..|ops| - 1]))
  }

  /** Call by call the same run, with byte budgets at least as large after each restart. */
  predicate WiderRun(p: seq<Op>, q: seq<Op>) {
    |p| == |q| && forall i :: 0 <= i < |p| ==> Fixed(p[i]) && Wider(p[i], q[i])
  }

  /** The parses of the processes a run has ended. */
  ghost function EarlierParses(x: Setting, s: State, ops: seq<Op>): nat
    requires s.Valid()
  {
    if ops == [] then 0
    else
      var front := ops[..|ops| - 1];
      EarlierParses(x, s, front) + (if ops[|ops| - 1].RestartOp? then After(x.world, s, front).cache.parseCount else 0)
  }

  /** All parses of a run, those of ended processes included. */
  ghost function AllParses(x: Setting, s: State, ops: seq<Op>): nat
    requires s.Valid()
  {
    EarlierParses(x, s, ops) + After(x.world, s, ops).cache.parseCount
  }

  lemma WiderFront(p: seq<Op>, q: seq<Op>)
    requires p != [] && WiderRun(p, q)
    ensures WiderRun(p[..|p| - 1], q[..|q| - 1])
  {
  }

  lemma {:induction false} RunIncluded(x: Setting, a: State, b: State, p: seq<Op>, q: seq<Op>)
    requires ProbeAgrees(x.world) && Unambiguous.Unambiguous(x) && Paired(x, a, b)
    requires WiderRun(p, q) && NeverDrops(x, b, q)
    ensures Paired(x, After(x.world, a, p), After(x.world, b, q))
    ensures EarlierParses(x, b, q) <= EarlierParses(x, a, p)
  {
    if p != [] {
      var n := |p| - 1;
      WiderFront(p, q);
      RunIncluded(x, a, b, p[..n], q[..n]);
      StepIncluded(x, After(x.world, a, p[..n]), After(x.world, b, q[..n]), p[n], q[n]);
    }
  }

  lemma StartPaired(x: Setting, catalog: Catalog, small: nat, large: nat, maxModules: nat)
    requires catalog.sources == x.sources && small <= large
    ensures Paired(x, Start(x, catalog, small, maxModules), Start(x, catalog, large, maxModules))
  {
    StartSettled(x, catalog, small, maxModules);
    StartSettled(x, catalog, large, maxModules);
  }

  /**
   LRU inclusion over whole runs, restarts included: from empty caches, on the same calls, with no
   module ever dropped at count capacity under the larger budget, everything resident under the
   smaller byte budget is resident under the larger one, in the same order of recency, and the
   larger budget never parses more.
   */
  lemma LargerBudgetIncludes(x: Setting, catalog: Catalog, small: nat, large: nat, maxModules: nat, p: seq<Op>,
                             q: seq<Op>)
    requires NoCompetition(x) && catalog.sources == x.sources && small <= large && WiderRun(p, q)
    requires Start(x, catalog, large, maxModules).Valid() && NeverDrops(x, Start(x, catalog, large, maxModules), q)
    ensures Start(x, catalog, small, maxModules).Valid()
    ensures var a := After(x.world, Start(x, catalog, small, maxModules), p).cache;
            var b := After(x.world, Start(x, catalog, large, maxModules), q).cache;
            a.Order() <= b.Order() && a.Table().Keys <= b.Table().Keys
    ensures AllParses(x, Start(x, catalog, large, maxModules), q)
         <= AllParses(x, Start(x, catalog, small, maxModules), p)
  {
    StartPaired(x, catalog, small, large, maxModules);
    NoCompetitionIsUnambiguous(x);
    RunIncluded(x, Start(x, catalog, small, maxModules), Start(x, catalog, large, maxModules), p, q);
  }
}
