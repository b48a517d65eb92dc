/**
 What each cache operation changes, field by field, in terms of the cache before it: which maps,
 which keys, which columns of which entry or module, and that everything else stays.
 */
module Effects {

  import opened Wrappers
  import opened Ids
  import opened Manifest
  import opened Modules
  import opened Lru
  import opened Caches
  import opened CacheFacts

  ghost predicate SameAt<K, V>(a: map<K, V>, b: map<K, V>, k: K) {
    (k in a <==> k in b) && (k in a ==> a[k] == b[k])
  }

  /** Two maps agree on every key but one. */
  ghost predicate SameBut<K(!new), V>(a: map<K, V>, b: map<K, V>, except: K) {
    forall k :: k != except ==> SameAt(a, b, k)
  }

  /** `t` is `s` without the place that holds `k`. */
  ghost predicate WithoutOne<K(!new)>(s: seq<K>, k: K, t: seq<K>) {
    exists p :: 0 <= p < |s| && s[p] == k && t == s[..p] + s[p + 1..]
  }

  lemma SliceSnoc<K>(front: seq<K>, last: K, p: nat)
    requires p < |front|
    ensures (front + [last])[..p] + (front + [last])[p + 1..] == front[..p] + front[p + 1..] + [last]
  {
  }

  lemma {:induction false} RemovedAt<K(!new)>(s: seq<K>, k: K) returns (p: nat)
    requires Distinct(s) && k in s
    ensures p < |s| && s[p] == k && Remove(s, k) == s[..p] + s[p + 1..]
  {
    p := |s| - 1;
    var front, last := s[..p], s[p];
    if last == k {
      RemoveMembers(front, k);
    } else {
      assert s == front + [last];
      p := RemovedAt(front, k);
      SliceSnoc(front, last, p);
    }
  }

  lemma RemoveIsWithoutOne<K(!new)>(s: seq<K>, k: K)
    requires Distinct(s) && k in s
    ensures WithoutOne(s, k, Remove(s, k))
  {
    var p := RemovedAt(s, k);
  }

  // ---- what the maps say of a token ----------------------------------------

  /** A token is looked up under its canonical spelling: its alias, the module there, the known misses. */
  lemma TokenMeaning(c: Cache, token: string)
    ensures var t := CanonicalToken(token);
            && (c.DebugIdOf(token) == if t in c.aliases then Some(c.aliases[t]) else None)
            && (c.IsResident(token) <==> t in c.aliases && c.aliases[t] in c.resident.table)
            && (c.IsKnownMiss(token) <==> t in c.negative)
  {
  }

  // ---- a new cache -----------------------------------------------------------

  lemma NewIsEmpty(maxBytes: nat, maxModules: nat)
    ensures var c := New(maxBytes, maxModules);
            && c.resident.order == [] && c.resident.table == map[] && c.aliases == map[] && c.entries == map[]
            && c.negative == {} && c.residentBytes == 0 && c.parseCount == 0 && c.maxBytes == maxBytes
            && c.resident.cap == if maxModules == 0 then 1 else maxModules
  {
  }

  // ---- misses ----------------------------------------------------------------

  /** An entry that knows nothing but a key and a time. */
  ghost predicate IsBlankMiss(e: ManifestEntry, key: string, now: nat) {
    && e.debugId == key && e.miss && e.lastUsed == now
    && e.origin.None? && e.format.None? && e.arch.None? && e.name.None? && e.fetchedBytes == 0 && e.rowsResolved == 0
  }

  /** The modules, their order and everything that counts are as before. */
  ghost predicate SameModules(c: Cache, d: Cache) {
    && d.resident.order == c.resident.order && d.resident.table == c.resident.table && d.resident.cap == c.resident.cap
    && d.maxBytes == c.maxBytes && d.residentBytes == c.residentBytes && d.parseCount == c.parseCount && d.log == c.log
  }

  /**
   A recorded miss: the canonical token is a known miss; what the maps held under any key they still
   hold; at most that token is new in them, as its own alias and as a blank entry.
   */
  ghost predicate MissRecorded(c: Cache, d: Cache, token: string, now: nat) {
    var t := CanonicalToken(token);
    && SameModules(c, d)
    && t in d.negative && (forall u :: u != t ==> (u in d.negative <==> u in c.negative))
    && t in d.aliases && SameBut(c.aliases, d.aliases, t)
    && (if t in c.aliases then d.aliases[t] == c.aliases[t] else d.aliases[t] == t)
    && t in d.entries && SameBut(c.entries, d.entries, t)
    && (if t in c.entries then d.entries[t] == c.entries[t] else IsBlankMiss(d.entries[t], t, now))
  }

  lemma MissEffects(c: Cache, token: string, now: nat)
    ensures MissRecorded(c, RecordMiss(c, token, now), token, now)
  {
  }

  // ---- hits --------------------------------------------------------------------

  /** The maps and the counters of a cache are as before. */
  ghost predicate SameMaps(c: Cache, d: Cache) {
    && d.aliases == c.aliases && d.negative == c.negative && d.maxBytes == c.maxBytes
    && d.parseCount == c.parseCount && d.resident.cap == c.resident.cap
  }

  /**
   A hit: the module comes first, the others keep their order; it has one row more and the given
   time; no other module, map or counter changes.
   */
  ghost predicate HitCounted(c: Cache, d: Cache, id: string, now: nat) {
    && SameMaps(c, d) && d.entries == c.entries && d.residentBytes == c.residentBytes
    && |d.resident.order| >= 1 && d.resident.order[0] == id
    && WithoutOne(c.resident.order, id, d.resident.order[1..])
    && SameBut(c.resident.table, d.resident.table, id)
    && id in c.resident.table && id in d.resident.table
    && d.resident.table[id].parsed == c.resident.table[id].parsed
    && d.resident.table[id].bytes == c.resident.table[id].bytes
    && d.resident.table[id].rows == c.resident.table[id].rows + 1
    && d.resident.table[id].lastUsed == now
  }

  /** The cache after a lookup of a token: a hit where its alias leads to a resident module. */
  ghost predicate LookedUp(c: Cache, d: Cache, token: string, now: nat) {
    var t := CanonicalToken(token);
    if t in c.aliases && c.aliases[t] in c.resident.table then HitCounted(c, d, c.aliases[t], now) else d == c
  }

  lemma HitEffects(c: Cache, id: string, now: nat)
    requires c.resident.Ok() && id in c.Table()
    ensures HitCounted(c, Use(c, id, now), id, now)
  {
    RemoveIsWithoutOne(c.Order(), id);
    assert Use(c, id, now).Order()[1..] == Remove(c.Order(), id);
  }

  lemma ResolveEffects(c: Cache, token: string, addr: U64, limits: Limits, now: nat)
    requires c.resident.Ok()
    ensures var (d, rows) := Caches.Resolve(c, token, addr, limits, now);
            LookedUp(c, d, token, now) && (rows.Some? <==> c.IsResident(token))
    ensures var (d, name) := Caches.FunctionName(c, token, addr, now);
            LookedUp(c, d, token, now) && (name.Some? <==> c.IsResident(token))
  {
    if c.IsResident(token) { HitEffects(c, c.DebugIdOf(token).value, now); }
  }

  // ---- insertion ---------------------------------------------------------------

  /** A module just parsed, as the cache holds it. */
  ghost predicate IsNewcomer(r: Resident, m: ParsedModule, now: nat) {
    r.parsed == m && r.bytes == m.ResidentBytes() && r.rows == 0 && r.lastUsed == now
  }

  ghost predicate IsParsedEntry(e: ManifestEntry, m: ParsedModule, origin: Origin, now: nat) {
    && e.debugId == m.Id().DebugIdStr() && !e.miss && e.origin == Some(origin) && e.name == Some(m.DisplayName())
    && e.format.Some? && IsFormatName(e.format.value, m.Id().format) && e.arch == Some(m.Id().arch)
    && e.fetchedBytes == m.ResidentBytes() && e.rowsResolved == 0 && e.lastUsed == now
  }

  /** Entry `a` is entry `b` with the live counters of a module. */
  ghost predicate HasCountersOf(a: ManifestEntry, b: ManifestEntry, r: Resident) {
    && a.rowsResolved == r.rows && a.lastUsed == r.lastUsed
    && a.debugId == b.debugId && a.origin == b.origin && a.format == b.format && a.arch == b.arch && a.name == b.name
    && a.fetchedBytes == b.fetchedBytes && a.miss == b.miss
  }

  /** The modules a newcomer finds: all but an earlier one under its key, or the oldest where there is no room. */
  ghost predicate MakesRoom<K(!new)>(order: seq<K>, cap: nat, id: K, rest: seq<K>) {
    if id in order then WithoutOne(order, id, rest)
    else if |order| < cap then rest == order
    else |order| > 0 && rest == order[..|order| - 1]
  }

  /** What happened to the entry of another key than the newcomer's. */
  ghost predicate OtherEntry(c: Cache, d: Cache, id: string, k: string) {
    && SameKey(c.entries, d.entries, k)
    && (k in c.entries ==>
          if k in c.Table() && k !in d.Table() && !SilentlyDropped(c, id, k)
          then HasCountersOf(d.entries[k], c.entries[k], c.Table()[k])
          else d.entries[k] == c.entries[k])
  }

  ghost predicate SameKey<K, V>(a: map<K, V>, b: map<K, V>, k: K) {
    k in a <==> k in b
  }

  /** The oldest module goes without a trace when a new key needs its place. */
  ghost predicate SilentlyDropped(c: Cache, id: string, k: string) {
    && id !in c.Table() && |c.Order()| == c.resident.cap && |c.Order()| > 0
    && k == c.Order()[|c.Order()| - 1]
  }

  ghost predicate AliasesTaken(before: map<string, string>, after: map<string, string>, m: ParsedModule) {
    && (forall t :: t in m.Id().Aliases() ==> t in after && after[t] == m.Id().DebugIdStr())
    && (forall t :: t !in m.Id().Aliases() ==> SameAt(before, after, t))
  }

  ghost predicate MissCleared(before: set<string>, after: set<string>, id: string) {
    && CanonicalToken(id) !in after
    && forall t :: t != CanonicalToken(id) ==> (t in after <==> t in before)
  }

  ghost predicate NewcomerFirst(c: Cache, d: Cache, id: string) {
    && |d.Order()| >= 1 && d.Order()[0] == id
    && exists rest :: MakesRoom(c.Order(), c.resident.cap, id, rest) && d.Order()[1..] <= rest
  }

  ghost predicate OthersUnchanged<K(!new), V(!new)>(before: map<K, V>, after: map<K, V>, id: K) {
    forall k :: k != id && k in after ==> k in before && after[k] == before[k]
  }

  /** Everything an insertion does. */
  ghost predicate ModuleInserted(c: Cache, d: Cache, m: ParsedModule, origin: Origin, now: nat) {
    var id := m.Id().DebugIdStr();
    && d.parseCount == c.parseCount + 1 && d.maxBytes == c.maxBytes && d.resident.cap == c.resident.cap
    && AliasesTaken(c.aliases, d.aliases, m)
    && MissCleared(c.negative, d.negative, id)
    && id in d.entries && IsParsedEntry(d.entries[id], m, origin, now)
    && (forall k :: k != id ==> OtherEntry(c, d, id, k))
    && id in d.Table() && IsNewcomer(d.Table()[id], m, now)
    && OthersUnchanged(c.Table(), d.Table(), id)
    && NewcomerFirst(c, d, id)
  }

  lemma PointedAt<K(!new), V(!new)>(before: map<K, V>, aliases: seq<K>, id: V)
    ensures var after := PointAliases(before, aliases, id);
            && (forall t :: t in aliases ==> t in after && after[t] == id)
            && (forall t :: t !in aliases ==> SameAt(before, after, t))
  {
  }

  lemma InsertMapEffects(c: Cache, d: Cache, m: ParsedModule, id: string)
    requires id == m.Id().DebugIdStr()
    requires d.aliases == PointAliases(c.aliases, m.Id().Aliases(), id)
    requires d.negative == c.negative - {CanonicalToken(id)}
    ensures AliasesTaken(c.aliases, d.aliases, m) && MissCleared(c.negative, d.negative, id)
  {
    PointedAt(c.aliases, m.Id().Aliases(), id);
  }

  lemma ParsedEntryFields(e: ManifestEntry, m: ParsedModule, origin: Origin, now: nat)
    requires e == ManifestEntry(m.DebugIdStr(), Some(origin), Some(m.Id().format.AsStr()), Some(m.Id().arch),
                                Some(m.DisplayName()), m.ResidentBytes(), 0, now, false)
    ensures IsParsedEntry(e, m, origin, now)
  {
    FormatNamed(m.Id().format);
  }

  lemma InsertOrderEffects(c: Cache, d: Cache, id: string)
    requires c.resident.Ok() && d.Order() != [] && d.Order()[0] == id && d.Order() <= StoredOrder(c, id)
    ensures NewcomerFirst(c, d, id)
  {
    RoomMade(c, id);
    assert d.Order()[1..] <= StoredOrder(c, id)[1..];
  }

  lemma InsertEffects(c: Cache, m: ParsedModule, origin: Origin, now: nat)
    requires Valid(c)
    ensures ModuleInserted(c, Insert(c, m, origin, now), m, origin, now)
  {
    InsertIsLru(c, m, origin, now);
    InsertMaps(c, m, origin, now);
    InsertedEntry(c, m, origin, now);
    InsertModules(c, m, origin, now);
    var d := Insert(c, m, origin, now);
    InsertMapEffects(c, d, m, m.DebugIdStr());
    InsertOrderEffects(c, d, m.DebugIdStr());
    ParsedEntryFields(d.entries[m.DebugIdStr()], m, origin, now);
  }

  lemma RoomMade(c: Cache, id: string)
    requires c.resident.Ok()
    ensures MakesRoom(c.Order(), c.resident.cap, id, StoredOrder(c, id)[1..])
  {
    if id in c.Order() {
      RemoveIsWithoutOne(c.Order(), id);
    } else {
      RemoveMembers(c.Order(), id);
      if |c.Order()| > 0 { RemoveMembers(c.Order()[..|c.Order()| - 1], id); }
    }
  }

  /** A put leaves the other modules alone, but for the oldest one where it needs its place. */
  lemma PutOthers<K(!new), V(!new)>(l: Lru<K, V>, id: K, v: V, k: K)
    requires l.Ok() && k != id
    ensures k in Put(l, id, v).table <==>
            k in l.table && !(id !in l.table && |l.order| == l.cap && k == l.order[|l.order| - 1])
    ensures k in Put(l, id, v).table ==> Put(l, id, v).table[k] == l.table[k]
  {
  }

  lemma RegisteredOthers(c: Cache, m: ParsedModule, origin: Origin, now: nat)
    ensures SameBut(c.entries, Register(c, m, origin, now).entries, m.DebugIdStr())
    ensures Register(c, m, origin, now).resident == c.resident
  {
  }

  lemma PutModules(c: Cache, id: string, r: Resident)
    requires c.resident.Ok()
    ensures forall k :: k != id ==>
              (k in Put(c.resident, id, r).table <==> k in c.Table() && !SilentlyDropped(c, id, k))
    ensures OthersUnchanged(c.Table(), Put(c.resident, id, r).table, id)
  {
    forall k | k != id
      ensures k in Put(c.resident, id, r).table <==> k in c.Table() && !SilentlyDropped(c, id, k)
      ensures k in Put(c.resident, id, r).table ==> Put(c.resident, id, r).table[k] == c.Table()[k]
    {
      PutOthers(c.resident, id, r, k);
    }
  }

  lemma InsertModules(c: Cache, m: ParsedModule, origin: Origin, now: nat)
    requires Valid(c)
    ensures var d, id := Insert(c, m, origin, now), m.DebugIdStr();
            OthersUnchanged(c.Table(), d.Table(), id) && forall k :: k != id ==> OtherEntry(c, d, id, k)
  {
    var id, r := m.DebugIdStr(), FreshResident(m, now);
    var s := Store(Register(c, m, origin, now), id, r);
    RegisteredStored(c, m, origin, now);
    EvictToBudgetFits(s);
    RegisteredOthers(c, m, origin, now);
    PutModules(c, id, r);
    StoredOthers(c, s, EvictToBudget(s), id);
  }

  lemma StoredOthers(c: Cache, s: Cache, d: Cache, id: string)
    requires OnlyEvicted(s, d)
    requires SameBut(c.entries, s.entries, id) && OthersUnchanged(c.Table(), s.Table(), id)
    requires forall k :: k != id ==> (k in s.Table() <==> k in c.Table() && !SilentlyDropped(c, id, k))
    ensures OthersUnchanged(c.Table(), d.Table(), id)
    ensures forall k :: k != id ==> OtherEntry(c, d, id, k)
  {
    forall k | k != id ensures OtherEntry(c, d, id, k) {
      assert SameAt(c.entries, s.entries, k);
    }
  }

  // ---- eviction and export -------------------------------------------------------

  /** A forced eviction takes out the token's module, its bytes and nothing else; its counters stay in its entry. */
  ghost predicate ModuleEvicted(c: Cache, d: Cache, id: string, freed: nat) {
    && SameMaps(c, d)
    && id in c.Table() && id !in d.Table() && SameBut(c.Table(), d.Table(), id)
    && WithoutOne(c.Order(), id, d.Order())
    && freed == c.Table()[id].bytes && d.residentBytes + freed == c.residentBytes
    && id in c.entries && id in d.entries && HasCountersOf(d.entries[id], c.entries[id], c.Table()[id])
    && SameBut(c.entries, d.entries, id)
  }

  ghost predicate TokenEvicted(c: Cache, d: Cache, token: string, freed: nat) {
    var t := CanonicalToken(token);
    if t in c.aliases && c.aliases[t] in c.resident.table then ModuleEvicted(c, d, c.aliases[t], freed)
    else d == c && freed == 0
  }

  lemma PopEffects<K(!new), V(!new)>(l: Lru<K, V>, k: K)
    requires l.Ok() && k in l.table
    ensures k !in Pop(l, k).table && SameBut(l.table, Pop(l, k).table, k) && WithoutOne(l.order, k, Pop(l, k).order)
  {
    RemoveIsWithoutOne(l.order, k);
  }

  lemma FoldBackEffects(entries: map<string, ManifestEntry>, id: string, r: Resident)
    requires id in entries
    ensures id in FoldBack(entries, id, r) && HasCountersOf(FoldBack(entries, id, r)[id], entries[id], r)
    ensures SameBut(entries, FoldBack(entries, id, r), id)
  {
  }

  lemma TakeOutEffects(c: Cache, id: string)
    requires Valid(c) && id in c.Table()
    ensures var freed := c.Table()[id].bytes;
            ModuleEvicted(c, TakeOut(c, id).(residentBytes := SaturatingSub(c.residentBytes, freed)), id, freed)
  {
    assert ResidentOk(c, id);
    TakeOutKeeps(c, id);
    PopEffects(c.resident, id);
    FoldBackEffects(c.entries, id, c.Table()[id]);
  }

  lemma EvictEffects(c: Cache, token: string)
    requires Valid(c)
    ensures var (d, freed) := EvictToken(c, token);
            TokenEvicted(c, d, token, freed)
  {
    if c.IsResident(token) { TakeOutEffects(c, c.DebugIdOf(token).value); }
  }

  /** Evicting everything leaves every entry, with the counters of the module that was resident for it. */
  ghost predicate AllEvicted(c: Cache, d: Cache, freed: nat) {
    && SameMaps(c, d) && d.Table() == map[] && d.Order() == [] && d.residentBytes == 0 && freed == c.TrueBytes()
    && EntriesSynced(c, d.entries)
  }

  /** The entries of resident modules have their live counters, all others are as they were. */
  ghost predicate EntriesSynced(c: Cache, entries: map<string, ManifestEntry>) {
    forall k ::
      && SameKey(c.entries, entries, k)
      && (k in c.entries ==>
            if k in c.Table() then HasCountersOf(entries[k], c.entries[k], c.Table()[k])
            else entries[k] == c.entries[k])
  }

  lemma EvictAllEffects(c: Cache)
    requires Valid(c)
    ensures var (d, freed) := EvictAll(c);
            AllEvicted(c, d, freed)
  {
    EvictAllKeeps(c);
  }

  lemma SyncEffects(c: Cache)
    ensures EntriesSynced(c, Sync(c).entries) && SameModules(c, Sync(c))
    ensures Sync(c).aliases == c.aliases && Sync(c).negative == c.negative
  {
  }

  // ---- import --------------------------------------------------------------------

  /** Entry `i` is the last one of its key among the first `n`. */
  ghost predicate IsLast<T(!new), K(!new)>(es: seq<T>, n: nat, key: T -> K, i: nat)
    requires n <= |es|
  {
    i < n && forall j :: i < j < n ==> key(es[j]) != key(es[i])
  }

  ghost predicate NoKey<T(!new), K(!new)>(es: seq<T>, n: nat, key: T -> K, k: K)
    requires n <= |es|
  {
    forall i :: 0 <= i < n ==> key(es[i]) != k
  }

  function TokenOf(e: ManifestEntry): string { CanonicalToken(e.debugId) }

  /** A map after writing the first `n` items in order: the last one of a key wins, other keys are as before. */
  ghost predicate Written<T(!new), K(!new), V(!new)>(before: map<K, V>, after: map<K, V>, es: seq<T>, n: nat,
                                                      key: T -> K, value: T -> V)
    requires n <= |es|
  {
    && (forall i: nat :: IsLast(es, n, key, i) ==> key(es[i]) in after && after[key(es[i])] == value(es[i]))
    && (forall k :: NoKey(es, n, key, k) ==> SameAt(before, after, k))
  }

  lemma WrittenMore<T(!new), K(!new), V(!new)>(before: map<K, V>, m: map<K, V>, es: seq<T>, n: nat, key: T -> K,
                                               value: T -> V)
    requires n < |es| && Written(before, m, es, n, key, value)
    ensures Written(before, m[key(es[n]) := value(es[n])], es, n + 1, key, value)
  {
    var m' := m[key(es[n]) := value(es[n])];
    forall i: nat | IsLast(es, n + 1, key, i) ensures key(es[i]) in m' && m'[key(es[i])] == value(es[i]) {
      if i < n { assert IsLast(es, n, key, i); }
    }
    forall k | NoKey(es, n + 1, key, k) ensures SameAt(before, m', k) {
      assert NoKey(es, n, key, k) && key(es[n]) != k;
    }
  }

  function Itself(e: ManifestEntry): ManifestEntry { e }

  ghost predicate IsMissOf(e: ManifestEntry, t: string) {
    e.miss && CanonicalToken(e.debugId) == t
  }

  ghost predicate MissesAdded(before: set<string>, after: set<string>, es: seq<ManifestEntry>, n: nat)
    requires n <= |es|
  {
    forall t :: t in after <==> t in before || exists i :: 0 <= i < n && IsMissOf(es[i], t)
  }

  /**
   The first `n` entries are taken over: each under its own debug-id, the last of equals winning; its
   canonical token leads to it; misses are added; what was there under other keys stays, and so do
   the modules.
   */
  ghost predicate EntriesLoaded(c: Cache, d: Cache, es: seq<ManifestEntry>, n: nat)
    requires n <= |es|
  {
    && SameModules(c, d)
    && Written(c.entries, d.entries, es, n, EntryKey, Itself)
    && Written(c.aliases, d.aliases, es, n, TokenOf, EntryKey)
    && MissesAdded(c.negative, d.negative, es, n)
  }

  lemma MissesMore(before: set<string>, m: set<string>, es: seq<ManifestEntry>, n: nat)
    requires n < |es| && MissesAdded(before, m, es, n)
    ensures MissesAdded(before, if es[n].miss then m + {CanonicalToken(es[n].debugId)} else m, es, n + 1)
  {
    var m' := if es[n].miss then m + {CanonicalToken(es[n].debugId)} else m;
    forall t ensures t in m' <==> t in before || exists i :: 0 <= i < n + 1 && IsMissOf(es[i], t) {
      assert t in m' <==> t in m || IsMissOf(es[n], t);
    }
  }

  lemma {:induction false} LoadEffects(c: Cache, es: seq<ManifestEntry>, n: nat)
    requires n <= |es|
    ensures EntriesLoaded(c, LoadUpTo(c, es, n), es, n)
  {
    if n == 0 {
      NoneLoaded(c, es);
    } else {
      LoadEffects(c, es, n - 1);
      LoadNext(c, es, n);
    }
  }

  lemma NoneLoaded(c: Cache, es: seq<ManifestEntry>)
    ensures EntriesLoaded(c, c, es, 0)
  {
    assert forall k :: SameAt(c.entries, c.entries, k);
    assert forall k :: SameAt(c.aliases, c.aliases, k);
  }

  lemma LoadNext(c: Cache, es: seq<ManifestEntry>, n: nat)
    requires 0 < n <= |es| && EntriesLoaded(c, LoadUpTo(c, es, n - 1), es, n - 1)
    ensures EntriesLoaded(c, LoadUpTo(c, es, n), es, n)
  {
    LoadMore(c, LoadUpTo(c, es, n - 1), LoadUpTo(c, es, n), es, n - 1, n);
  }

  lemma LoadMore(c: Cache, d: Cache, after: Cache, es: seq<ManifestEntry>, n: nat, m: nat)
    requires n < |es| && m == n + 1 && after == Load(d, es[n]) && EntriesLoaded(c, d, es, n)
    ensures EntriesLoaded(c, after, es, m)
  {
    WrittenMore(c.entries, d.entries, es, n, EntryKey, Itself);
    WrittenMore(c.aliases, d.aliases, es, n, TokenOf, EntryKey);
    MissesMore(c.negative, d.negative, es, n);
  }
}
