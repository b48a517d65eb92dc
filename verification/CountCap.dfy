/**
 Why LRU inclusion needs the count cap out of reach: a module dropped at count capacity keeps its
 bytes on the books, and a larger byte budget can then hold less than a smaller one.
 */
module CountCap {

  import opened Wrappers
  import opened Manifest
  import opened Modules
  import opened Lru
  import opened Caches
  import opened Catalogs
  import opened States
  import opened Reference
  import opened Transparency
  import opened Unambiguous
  import opened Inclusion

  /** Recency order, byte counter and budgets of a cache whose modules have the given sizes. */
  ghost predicate Holds(c: Cache, order: seq<string>, bytes: nat) {
    c.resident.Ok() && c.Order() == order && c.residentBytes == bytes
  }

  /** The order `put` of a new key leaves. */
  function Fit(order: seq<string>, cap: nat): seq<string>
    requires cap >= 1
  {
    if |order| >= cap then order[..|order| - 1] else order
  }

  lemma PutNew<V>(l: Lru<string, V>, k: string, v: V)
    requires l.Ok() && k !in l.order
    ensures Put(l, k, v).order == [k] + Fit(l.order, l.cap) && Put(l, k, v).Ok()
    ensures |l.order| < l.cap ==> Put(l, k, v).table == l.table[k := v]
  {
    PutOk(l, k, v);
    RemoveMembers(Fit(l.order, l.cap), k);
  }

  /** An insertion of a new module before eviction to budget. */
  lemma Stored(c: Cache, m: ParsedModule, origin: Origin, order: seq<string>, bytes: nat)
    requires Holds(c, order, bytes) && m.DebugIdStr() !in order
    ensures var s := Store(Register(c, m, origin, 0), m.DebugIdStr(), FreshResident(m, 0));
            && s.resident.cap == c.resident.cap && s.maxBytes == c.maxBytes
            && Holds(s, [m.DebugIdStr()] + Fit(order, c.resident.cap), bytes + m.ResidentBytes())
            && (|order| < c.resident.cap ==> s.Table() == c.Table()[m.DebugIdStr() := FreshResident(m, 0)])
  {
    PutNew(c.resident, m.DebugIdStr(), FreshResident(m, 0));
  }

  /** Nothing is evicted from a cache within its budget, or holding one module. */
  lemma Stays(c: Cache, m: ParsedModule, origin: Origin, order: seq<string>, bytes: nat)
    requires Holds(c, order, bytes) && m.DebugIdStr() !in order && |order| < c.resident.cap
    requires bytes + m.ResidentBytes() <= c.maxBytes || order == []
    ensures var d := Insert(c, m, origin, 0);
            && Holds(d, [m.DebugIdStr()] + order, bytes + m.ResidentBytes())
            && d.maxBytes == c.maxBytes && d.resident.cap == c.resident.cap
            && d.Table() == c.Table()[m.DebugIdStr() := FreshResident(m, 0)]
  {
    Stored(c, m, origin, order, bytes);
  }

  /** Two modules over budget: the older one goes, and then one remains whatever it weighs. */
  lemma OneOver(s: Cache, newer: string, older: string, bytes: nat)
    requires Holds(s, [newer, older], bytes) && bytes > s.maxBytes
    ensures older in s.Table() && newer in s.Table() && newer != older
    ensures var d := EvictToBudget(s);
            && Holds(d, [newer], SaturatingSub(bytes, s.Table()[older].bytes))
            && d.Table() == s.Table() - {older} && d.maxBytes == s.maxBytes && d.resident.cap == s.resident.cap
  {
    assert s.Order()[0] == newer && s.resident.Oldest() == older;
    PopOldestIsPop(s.resident);
    assert EvictOldest(s).Order() == s.Order()[..1] == [newer];
    assert !OverBudget(EvictOldest(s));
  }

  /** One module is evicted when that is enough, or leaves only the new one. */
  lemma EvictsOne(c: Cache, m: ParsedModule, origin: Origin, prior: string, bytes: nat)
    requires Holds(c, [prior], bytes) && m.DebugIdStr() != prior && c.resident.cap == 2
    requires bytes + m.ResidentBytes() > c.maxBytes && c.Table()[prior].bytes == bytes
    ensures var d := Insert(c, m, origin, 0);
            && Holds(d, [m.DebugIdStr()], m.ResidentBytes())
            && d.maxBytes == c.maxBytes && d.resident.cap == 2
            && m.DebugIdStr() in d.Table() && d.Table()[m.DebugIdStr()] == FreshResident(m, 0)
  {
    Stored(c, m, origin, [prior], bytes);
    var s := Store(Register(c, m, origin, 0), m.DebugIdStr(), FreshResident(m, 0));
    OneOver(s, m.DebugIdStr(), prior, bytes + m.ResidentBytes());
  }

  /** At count capacity the oldest module is dropped and its bytes stay, so the other one is evicted as well. */
  lemma DropsThenEvicts(c: Cache, m: ParsedModule, origin: Origin, newer: string, older: string, bytes: nat)
    requires Holds(c, [newer, older], bytes) && m.DebugIdStr() != newer && m.DebugIdStr() != older
             && c.resident.cap == 2
    requires bytes + m.ResidentBytes() > c.maxBytes
    ensures Insert(c, m, origin, 0).Order() == [m.DebugIdStr()]
  {
    Stored(c, m, origin, [newer, older], bytes);
    var s := Store(Register(c, m, origin, 0), m.DebugIdStr(), FreshResident(m, 0));
    assert [newer, older][..1] == [newer];
    OneOver(s, m.DebugIdStr(), newer, bytes + m.ResidentBytes());
  }

  // ---- requests ------------------------------------------------------------------------

  lemma UseHolds(c: Cache, id: string, order: seq<string>, bytes: nat)
    requires Holds(c, order, bytes) && order != [] && order[0] == id && id in c.Table()
    ensures Holds(Use(c, id, 0), order, bytes) && Use(c, id, 0).Table()[id].bytes == c.Table()[id].bytes
  {
    TouchOk(c.resident, id, c.Table()[id].(rows := c.Table()[id].rows + 1, lastUsed := 0));
    MostRecentStays(order, id);
  }

  /** A request for a module that is not resident parses it and counts one hit on it. */
  lemma FirstRequest(x: Setting, c: Cache, found: Lookedup, token: string)
    requires ProbeAgrees(x.world) && Unambiguous.Unambiguous(x) && Valid(c) && Sound(x, c)
    requires found == x.Find(token) && found.Good? && found.parsed.DebugIdStr() !in c.Table()
    ensures var d, id := Insert(c, found.parsed, found.origin, 0), found.parsed.DebugIdStr();
            id in d.Table() && Called(c, found, token, 0) == Use(d, id, 0)
  {
    NotResidentYet(x, c, token);
    FindCanonical(x, token);
    ParsesAndHits(x, c, found, token, 0);
  }

  lemma NotResidentYet(x: Setting, c: Cache, token: string)
    requires ProbeAgrees(x.world) && Unambiguous.Unambiguous(x) && Valid(c) && Sound(x, c)
    requires x.Find(token).Good? && x.Find(token).parsed.DebugIdStr() !in c.Table()
    ensures !c.IsResident(token)
  {
    if c.IsResident(token) {
      assert ResidentOk(c, c.DebugIdOf(token).value);
      ResidentIsFound(x, c, token);
    }
  }

  /** The debug-id of a token's module, if it leads to one. */
  function Id(x: Setting, token: string): string {
    match x.Find(token)
    case Good(m, _) => m.DebugIdStr()
    case _ => ""
  }

  function Bytes(x: Setting, token: string): nat {
    match x.Find(token)
    case Good(m, _) => m.ResidentBytes()
    case _ => 0
  }

  /** Recency order, bytes, budgets, and the weight of the most recent module. */
  ghost predicate Weighs(c: Cache, order: seq<string>, bytes: nat, newest: nat, maxBytes: nat) {
    && Holds(c, order, bytes) && c.maxBytes == maxBytes && c.resident.cap == 2
    && (order != [] ==> order[0] in c.Table() && c.Table()[order[0]].bytes == newest)
  }

  ghost predicate Ready(x: Setting, c: Cache) {
    ProbeAgrees(x.world) && Unambiguous.Unambiguous(x) && Valid(c) && Sound(x, c)
  }

  /** A request for a module that is not resident yet. */
  ghost predicate Fresh(x: Setting, c: Cache, found: Lookedup, token: string) {
    Ready(x, c) && found == x.Find(token) && found.Good? && found.parsed.DebugIdStr() !in c.Table()
  }

  /** A module is inserted and hit. */
  ghost function Taken(c: Cache, m: ParsedModule, origin: Origin): Cache
    requires c.resident.Ok()
  {
    var d := Insert(c, m, origin, 0);
    if m.DebugIdStr() in d.Table() then Use(d, m.DebugIdStr(), 0) else d
  }

  /** A module there is room for. */
  lemma TakeStays(c: Cache, m: ParsedModule, origin: Origin, order: seq<string>, bytes: nat, newest: nat, maxBytes: nat,
                  after: seq<string>, total: nat)
    requires Weighs(c, order, bytes, newest, maxBytes) && m.DebugIdStr() !in order && |order| < 2
    requires total <= maxBytes || order == []
    requires after == [m.DebugIdStr()] + order && total == bytes + m.ResidentBytes()
    ensures Weighs(Taken(c, m, origin), after, total, m.ResidentBytes(), maxBytes)
  {
    Stays(c, m, origin, order, bytes);
    UseHolds(Insert(c, m, origin, 0), m.DebugIdStr(), after, total);
  }

  /** A module that evicts the one there is. */
  lemma TakeEvictsOne(c: Cache, m: ParsedModule, origin: Origin, prior: string, bytes: nat, maxBytes: nat)
    requires Weighs(c, [prior], bytes, bytes, maxBytes) && m.DebugIdStr() != prior
             && bytes + m.ResidentBytes() > maxBytes
    ensures Weighs(Taken(c, m, origin), [m.DebugIdStr()], m.ResidentBytes(), m.ResidentBytes(), maxBytes)
  {
    EvictsOne(c, m, origin, prior, bytes);
    UseHolds(Insert(c, m, origin, 0), m.DebugIdStr(), [m.DebugIdStr()], m.ResidentBytes());
  }

  /** A module that drops one at count capacity and evicts the other. */
  lemma TakeDropsThenEvicts(c: Cache, m: ParsedModule, origin: Origin, newer: string, older: string,
                            bytes: nat, newest: nat, maxBytes: nat)
    requires Weighs(c, [newer, older], bytes, newest, maxBytes)
    requires m.DebugIdStr() != newer && m.DebugIdStr() != older && bytes + m.ResidentBytes() > maxBytes
    ensures Taken(c, m, origin).Order() == [m.DebugIdStr()]
  {
    DropsThenEvicts(c, m, origin, newer, older, bytes);
    MostRecentStays([m.DebugIdStr()], m.DebugIdStr());
  }

  lemma TakenWhenAsked(x: Setting, c: Cache, found: Lookedup, token: string)
    requires Fresh(x, c, found, token)
    ensures Called(c, found, token, 0) == Taken(c, found.parsed, found.origin)
  {
    FirstRequest(x, c, found, token);
  }

  // ---- the counterexample ----------------------------------------------------------------

  /** Three tokens that lead to different modules. */
  ghost predicate ThreeModules(x: Setting, a: string, b: string, c: string) {
    && x.Find(a).Good? && x.Find(b).Good? && x.Find(c).Good?
    && Id(x, a) != Id(x, b) && Id(x, a) != Id(x, c) && Id(x, b) != Id(x, c)
  }

  function Requests(a: string, b: string, c: string): seq<Op> {
    [ResolveOp(a, 0, 0), ResolveOp(b, 0, 0), ResolveOp(c, 0, 0)]
  }

  /** The modules the three tokens lead to, in the order they are asked for. */
  datatype Trio = Trio(big: ParsedModule, p: ParsedModule, q: ParsedModule)
  {
    predicate Distinct() {
      big.DebugIdStr() != p.DebugIdStr() && big.DebugIdStr() != q.DebugIdStr() && p.DebugIdStr() != q.DebugIdStr()
    }

    /** The byte budget holds `p` and `q` but not `big` and `p`, or `big` and `p` but not all three. */
    predicate Sizes(tight: bool, budget: nat) {
      var a, b, c := big.ResidentBytes(), p.ResidentBytes(), q.ResidentBytes();
      if tight then b + c <= budget < a + b else a + b <= budget < a + b + c
    }

    function At(n: nat): ParsedModule {
      if n == 0 then big else if n == 1 then p else q
    }
  }

  /** What the cache holds after `n` of the requests. */
  ghost predicate Stage(c: Cache, n: nat, tight: bool, budget: nat, m: Trio) {
    var a, b := m.big.ResidentBytes(), m.p.ResidentBytes();
    if n == 0 then Weighs(c, [], 0, 0, budget)
    else if n == 1 then Weighs(c, [m.big.DebugIdStr()], a, a, budget)
    else if n == 2 && tight then Weighs(c, [m.p.DebugIdStr()], b, b, budget)
    else if n == 2 then Weighs(c, [m.p.DebugIdStr(), m.big.DebugIdStr()], a + b, b, budget)
    else if tight then c.Order() == [m.q.DebugIdStr(), m.p.DebugIdStr()]
    else c.Order() == [m.q.DebugIdStr()]
  }

  /** The module asked for next is not held yet. */
  lemma NextIsNew(c: Cache, n: nat, tight: bool, budget: nat, m: Trio)
    requires n < 3 && m.Distinct() && Stage(c, n, tight, budget, m)
    ensures m.At(n).DebugIdStr() !in c.Table()
  {
    assert m.At(n).DebugIdStr() !in c.Order();
  }

  lemma TakeStage(c: Cache, n: nat, origin: Origin, tight: bool, budget: nat, m: Trio)
    requires n < 3 && m.Distinct() && m.Sizes(tight, budget) && Stage(c, n, tight, budget, m)
    ensures c.resident.Ok() && Stage(Taken(c, m.At(n), origin), n + 1, tight, budget, m)
  {
    var a, b, d := m.big.ResidentBytes(), m.p.ResidentBytes(), m.q.ResidentBytes();
    if n == 0 {
      TakeStays(c, m.big, origin, [], 0, 0, budget, [m.big.DebugIdStr()], a);
    } else if n == 1 && tight {
      TakeEvictsOne(c, m.p, origin, m.big.DebugIdStr(), a, budget);
    } else if n == 1 {
      TakeStays(c, m.p, origin, [m.big.DebugIdStr()], a, a, budget, [m.p.DebugIdStr(), m.big.DebugIdStr()], a + b);
    } else if tight {
      TakeStays(c, m.q, origin, [m.p.DebugIdStr()], b, b, budget, [m.q.DebugIdStr(), m.p.DebugIdStr()], b + d);
    } else {
      TakeDropsThenEvicts(c, m.q, origin, m.p.DebugIdStr(), m.big.DebugIdStr(), a + b, b, budget);
    }
  }

  lemma NextStage(x: Setting, c: Cache, n: nat, found: Lookedup, token: string, tight: bool, budget: nat, m: Trio)
    requires Ready(x, c) && m.Distinct() && m.Sizes(tight, budget)
    requires n < 3 && Stage(c, n, tight, budget, m) && found == x.Find(token) && found.Good? && found.parsed == m.At(n)
    ensures Stage(Called(c, found, token, 0), n + 1, tight, budget, m)
  {
    NextIsNew(c, n, tight, budget, m);
    TakenWhenAsked(x, c, found, token);
    TakeStage(c, n, found.origin, tight, budget, m);
  }

  /** One request in a settled worker. */
  lemma Request(x: Setting, s: State, token: string)
    requires Settled(x, s)
    ensures Settled(x, Step(x.world, s, ResolveOp(token, 0, 0)).0)
    ensures Step(x.world, s, ResolveOp(token, 0, 0)).0.cache == Called(s.cache, x.Find(token), token, 0)
  {
    StepSettled(x, s, ResolveOp(token, 0, 0));
    ResolveCalls(s, x.Find(token), token, 0, 0);
  }

  /** A request for a token that leads to module `m`. */
  ghost predicate Wants(x: Setting, op: Op, m: ParsedModule)
    requires op.ResolveOp?
  {
    op.addr == 0 && op.now == 0 && x.Find(op.token).Good? && x.Find(op.token).parsed == m
  }

  lemma StepStage(x: Setting, s: State, op: Op, n: nat, tight: bool, budget: nat, m: Trio)
    requires ProbeAgrees(x.world) && Unambiguous.Unambiguous(x) && Settled(x, s)
    requires n < 3 && m.Distinct() && m.Sizes(tight, budget) && Stage(s.cache, n, tight, budget, m)
    requires op.ResolveOp? && Wants(x, op, m.At(n))
    ensures Settled(x, Step(x.world, s, op).0) && Stage(Step(x.world, s, op).0.cache, n + 1, tight, budget, m)
  {
    NextStage(x, s.cache, n, x.Find(op.token), op.token, tight, budget, m);
    Request(x, s, op.token);
  }

  ghost predicate AllWant(x: Setting, ops: seq<Op>, m: Trio) {
    |ops| <= 3 && forall i :: 0 <= i < |ops| ==> ops[i].ResolveOp? && Wants(x, ops[i], m.At(i))
  }

  lemma FrontWants(x: Setting, ops: seq<Op>, m: Trio)
    requires ops != [] && AllWant(x, ops, m)
    ensures AllWant(x, ops[..|ops| - 1], m)
    ensures ops[|ops| - 1].ResolveOp? && Wants(x, ops[|ops| - 1], m.At(|ops| - 1))
  {
  }

  lemma {:induction false} RunStage(x: Setting, s: State, ops: seq<Op>, t: State, tight: bool, budget: nat, m: Trio)
    requires ProbeAgrees(x.world) && Unambiguous.Unambiguous(x) && Settled(x, s) && Stage(s.cache, 0, tight, budget, m)
    requires AllWant(x, ops, m) && m.Distinct() && m.Sizes(tight, budget) && t == After(x.world, s, ops)
    ensures Settled(x, t) && Stage(t.cache, |ops|, tight, budget, m)
  {
    if ops != [] {
      var n := |ops| - 1;
      var before := After(x.world, s, ops[..n]);
      FrontWants(x, ops, m);
      RunStage(x, s, ops[..n], before, tight, budget, m);
      StepStage(x, before, ops[n], n, tight, budget, m);
    }
  }

  lemma AfterThree(x: Setting, s: State, ops: seq<Op>, tight: bool, budget: nat, m: Trio)
    requires ProbeAgrees(x.world) && Unambiguous.Unambiguous(x) && Settled(x, s) && Weighs(s.cache, [], 0, 0, budget)
    requires |ops| == 3 && AllWant(x, ops, m)
    requires m.Distinct() && m.Sizes(tight, budget)
    ensures After(x.world, s, ops).cache.Order() ==
            if tight then [m.q.DebugIdStr(), m.p.DebugIdStr()] else [m.q.DebugIdStr()]
  {
    RunStage(x, s, ops, After(x.world, s, ops), tight, budget, m);
    StageThree(After(x.world, s, ops).cache, tight, budget, m);
  }

  lemma StageThree(c: Cache, tight: bool, budget: nat, m: Trio)
    requires Stage(c, 3, tight, budget, m)
    ensures c.Order() == if tight then [m.q.DebugIdStr(), m.p.DebugIdStr()] else [m.q.DebugIdStr()]
  {
  }

  lemma RequestsWant(x: Setting, a: string, b: string, c: string, m: Trio)
    requires ThreeModules(x, a, b, c) && m == Trio(x.Find(a).parsed, x.Find(b).parsed, x.Find(c).parsed)
    ensures m.Distinct()
    ensures AllWant(x, Requests(a, b, c), m)
  {
  }

  lemma StartWeighs(x: Setting, catalog: Catalog, budget: nat)
    requires catalog.sources == x.sources
    ensures Settled(x, Start(x, catalog, budget, 2)) && Weighs(Start(x, catalog, budget, 2).cache, [], 0, 0, budget)
  {
    StartSettled(x, catalog, budget, 2);
  }

  /**
   Inclusion fails once the count cap is reached: with room for two modules, after requests for
   three, the smaller budget holds the last two while the larger one, which held on to a big module
   for longer, holds only the last.
   */
  lemma LargerBudgetHoldsLess(x: Setting, catalog: Catalog, small: nat, large: nat, big: string, p: string, q: string)
    requires NoCompetition(x) && catalog.sources == x.sources && ThreeModules(x, big, p, q)
    requires Bytes(x, p) + Bytes(x, q) <= small < Bytes(x, big) + Bytes(x, p) <= large
    requires Bytes(x, big) + Bytes(x, p) + Bytes(x, q) > large
    ensures Start(x, catalog, small, 2).Valid() && Start(x, catalog, large, 2).Valid()
    ensures After(x.world, Start(x, catalog, small, 2), Requests(big, p, q)).cache.Order() == [Id(x, q), Id(x, p)]
    ensures After(x.world, Start(x, catalog, large, 2), Requests(big, p, q)).cache.Order() == [Id(x, q)]
  {
    NoCompetitionIsUnambiguous(x);
    StartWeighs(x, catalog, small);
    StartWeighs(x, catalog, large);
    var m, ops := Trio(x.Find(big).parsed, x.Find(p).parsed, x.Find(q).parsed), Requests(big, p, q);
    RequestsWant(x, big, p, q, m);
    AfterThree(x, Start(x, catalog, small, 2), ops, true, small, m);
    AfterThree(x, Start(x, catalog, large, 2), ops, false, large, m);
  }
}
