/**
 The ordered list of registered sources (source/mod.rs): registration, dropping, restoring from a
 manifest, and the issue of source ids.
 */
module Catalogs {

  import opened Wrappers
  import opened Ids
  import opened Manifest

  // ---- decimal numbers ---------------------------------------------------

  function Digit(n: nat): (c: char)
    requires n < 10
    ensures IsDigit(c) && DigitValue(c) == n
  {
    (('0' as int) + n) as char
  }

  predicate IsDigit(c: char) {
    '0' <= c <= '9'
  }

  function DigitValue(c: char): nat
    requires IsDigit(c)
  {
    c as int - '0' as int
  }

  /** A number in decimal, as `format!` prints it. */
  function Decimal(n: nat): string {
    if n < 10 then [Digit(n)] else Decimal(n / 10) + [Digit(n % 10)]
  }

  function DigitsValue(s: string): Option<nat> {
    if s == [] then Some(0)
    else
      var last := s[|s| - 1];
      match DigitsValue(s[..|s| - 1])
      case None => None
      case Some(v) => if IsDigit(last) then Some(10 * v + DigitValue(last)) else None
  }

  /** `u64::from_str`: an optional plus sign and at least one digit, within range. */
  function ParseU64(s: string): Option<U64> {
    var digits := if s != [] && s[0] == '+' then s[1..] else s;
    match DigitsValue(digits)
    case Some(v) => if digits != [] && v <= U64_MAX then Some(v) else None
    case None => None
  }

  lemma {:induction false} DecimalDigits(n: nat)
    ensures |Decimal(n)| >= 1 && IsDigit(Decimal(n)[0]) && DigitsValue(Decimal(n)) == Some(n)
    ensures n > 0 ==> Decimal(n)[0] != '0'
  {
    if n < 10 {
      assert [Digit(n)][..0] == [];
    } else {
      DecimalDigits(n / 10);
      assert Decimal(n)[..|Decimal(n)| - 1] == Decimal(n / 10);
    }
  }

  /** Parsing what was printed gives the number back. */
  lemma DecimalRoundTrip(n: U64)
    ensures ParseU64(Decimal(n)) == Some(n)
  {
    DecimalDigits(n);
  }

  // ---- source ids --------------------------------------------------------

  const PREFIX := "src"

  function SourceId(n: nat): string {
    PREFIX + Decimal(n)
  }

  /** The number a source id spells, if it spells one. */
  function SourceNumber(id: string): Option<U64> {
    if PREFIX <= id then ParseU64(id[3..]) else None
  }

  lemma SourceIdRoundTrip(n: U64)
    ensures SourceNumber(SourceId(n)) == Some(n)
  {
    DecimalRoundTrip(n);
    assert SourceId(n)[3..] == Decimal(n);
  }

  // ---- the catalog -------------------------------------------------------

  datatype Catalog = Catalog(sources: seq<SourceSpec>, nextId: U64)

  const EMPTY := Catalog([], 0)

  predicate IsWhitespace(c: char) {
    || '\U{9}' <= c <= '\U{D}' || c == ' ' || c == '\U{85}' || c == '\U{A0}' || c == '\U{1680}'
    || '\U{2000}' <= c <= '\U{200A}' || c == '\U{2028}' || c == '\U{2029}' || c == '\U{202F}'
    || c == '\U{205F}' || c == '\U{3000}'
  }

  function TrimStart(s: string): string {
    if s != [] && IsWhitespace(s[0]) then TrimStart(s[1..]) else s
  }

  function TrimEnd(s: string): string {
    if s != [] && IsWhitespace(s[|s| - 1]) then TrimEnd(s[..|s| - 1]) else s
  }

  function Lowercase(s: string): string {
    seq(|s|, i requires 0 <= i < |s| => LowerChar(s[i]))
  }

  function NormalKind(kind: string): string {
    Lowercase(TrimEnd(TrimStart(kind)))
  }

  /** What an `add` call carries. */
  datatype SourceRequest = SourceRequest(
    kind: string, path: Option<string>, url: Option<string>, bucket: Option<string>,
    enabled: Option<bool>, secret: Option<string>)

  predicate IsRemote(kind: string) {
    kind == "debuginfod" || kind == "s3" || kind == "http"
  }

  /** The validation of a request: each kind's locator must be present and not empty. */
  function Rejection(r: SourceRequest): Option<string> {
    var kind := NormalKind(r.kind);
    if kind == "dir" || kind == "glob" then
      if r.path.GetOr("") == "" then Some("source kind '" + kind + "' requires path =>") else None
    else if kind == "debuginfod" || kind == "http" then
      if r.url.GetOr("") == "" then Some("source kind '" + kind + "' requires url =>") else None
    else if kind == "s3" then
      if r.bucket.GetOr("") == "" then Some("source kind 's3' requires bucket =>") else None
    else if kind == "inline" then None
    else Some("unknown source kind '" + kind + "'")
  }

  function SpecOf(r: SourceRequest, id: string): SourceSpec {
    var kind := NormalKind(r.kind);
    var egress := IsRemote(kind);
    SourceSpec(id, kind, r.path, r.url, r.bucket, r.enabled.GetOr(!egress), egress, r.secret)
  }

  function Add(c: Catalog, r: SourceRequest): (Catalog, Result<string, string>) {
    match Rejection(r)
    case Some(message) => (c, Failure(message))
    case None =>
      var id := SourceId(c.nextId);
      (Catalog(c.sources + [SpecOf(r, id)], WrappingSucc(c.nextId)), Success(id))
  }

  function Without(sources: seq<SourceSpec>, id: string): (r: seq<SourceSpec>)
    ensures forall s :: s in r <==> s in sources && s.sourceId != id
  {
    if sources == [] then []
    else
      var front, last := sources[..|sources| - 1], sources[|sources| - 1];
      assert sources == front + [last];
      if last.sourceId == id then Without(front, id) else Without(front, id) + [last]
  }

  function Drop(c: Catalog, id: string): Catalog {
    c.(sources := Without(c.sources, id))
  }

  /** The id counter after reading the ids of `specs`: ahead of every number they spell. */
  function Ahead(nextId: U64, specs: seq<SourceSpec>): U64 {
    if specs == [] then nextId
    else
      var before := Ahead(nextId, specs[..|specs| - 1]);
      match SourceNumber(specs[|specs| - 1].sourceId)
      case Some(n) => Max(before, WrappingSucc(n))
      case None => before
  }

  function Restore(c: Catalog, specs: seq<SourceSpec>): Catalog {
    Catalog(specs, Ahead(c.nextId, specs))
  }

  // ---- ids are never reissued ----------------------------------------------

  /** Every number spelled by a present id is behind the counter (the last number has no successor). */
  ghost predicate CounterAhead(c: Catalog) {
    forall s :: s in c.sources ==> Behind(s.sourceId, c.nextId)
  }

  predicate Behind(id: string, nextId: U64) {
    match SourceNumber(id)
    case Some(n) => n < nextId || n == U64_MAX
    case None => true
  }

  lemma {:induction false} AheadOfAll(nextId: U64, specs: seq<SourceSpec>)
    ensures Ahead(nextId, specs) >= nextId
    ensures forall s :: s in specs ==> Behind(s.sourceId, Ahead(nextId, specs))
  {
    if specs != [] {
      var front, last := specs[..|specs| - 1], specs[|specs| - 1];
      assert specs == front + [last];
      AheadOfAll(nextId, front);
    }
  }

  datatype CatalogOp = AddOp(request: SourceRequest) | DropOp(id: string) | RestoreOp(specs: seq<SourceSpec>)

  function Apply(c: Catalog, op: CatalogOp): (Catalog, seq<string>) {
    match op
    case AddOp(r) =>
      var (c', result) := Add(c, r);
      (c', match result case Success(id) => [id] case Failure(_) => [])
    case DropOp(id) => (Drop(c, id), [])
    case RestoreOp(specs) => (Restore(c, specs), [])
  }

  /** The ids `add` returns over a run, in order. */
  function Issued(c: Catalog, ops: seq<CatalogOp>): seq<string>
    decreases |ops|
  {
    if ops == [] then []
    else
      var (c', ids) := Apply(c, ops[0]);
      ids + Issued(c', ops[1..])
  }

  /** No `add` of the run meets the counter at its last value. */
  predicate NeverExhausted(c: Catalog, ops: seq<CatalogOp>)
    decreases |ops|
  {
    ops == [] || ((ops[0].AddOp? ==> c.nextId < U64_MAX) && NeverExhausted(Apply(c, ops[0]).0, ops[1..]))
  }

  lemma ApplyKeepsCounterAhead(c: Catalog, op: CatalogOp)
    requires CounterAhead(c) && (op.AddOp? ==> c.nextId < U64_MAX)
    ensures CounterAhead(Apply(c, op).0) && Apply(c, op).0.nextId >= c.nextId
  {
    match op {
      case AddOp(r) =>
        SourceIdRoundTrip(c.nextId);
      case DropOp(id) =>
      case RestoreOp(specs) => AheadOfAll(c.nextId, specs);
    }
  }

  ghost predicate NumbersGrow(ids: seq<string>, from: nat) {
    && (forall id :: id in ids ==> SourceNumber(id).Some? && from <= SourceNumber(id).value < U64_MAX)
    && (forall i, j :: 0 <= i < j < |ids| ==> SourceNumber(ids[i]).value < SourceNumber(ids[j]).value)
  }

  lemma NumbersGrowCons(id: string, later: seq<string>, from: nat)
    requires SourceNumber(id) == Some(from) && from < U64_MAX && NumbersGrow(later, from + 1)
    ensures NumbersGrow([id] + later, from)
  {
    var ids := [id] + later;
    forall i, j | 0 <= i < j < |ids| ensures SourceNumber(ids[i]).value < SourceNumber(ids[j]).value {
      assert ids[j] == later[j - 1] && later[j - 1] in later;
      if i > 0 { assert ids[i] == later[i - 1]; }
    }
  }

  lemma IssuedFirst(c: Catalog, op: CatalogOp, later: seq<string>)
    requires (op.AddOp? ==> c.nextId < U64_MAX) && Apply(c, op).0.nextId >= c.nextId
    requires NumbersGrow(later, Apply(c, op).0.nextId)
    ensures NumbersGrow(Apply(c, op).1 + later, c.nextId)
  {
    if Apply(c, op).1 != [] {
      SourceIdRoundTrip(c.nextId);
      NumbersGrowCons(SourceId(c.nextId), later, c.nextId);
    } else {
      assert Apply(c, op).1 + later == later;
    }
  }

  /** An issued id spells a number from the counter's start on, and later ids spell larger numbers. */
  lemma {:induction false} IssuedNumbersGrow(c: Catalog, ops: seq<CatalogOp>)
    requires NeverExhausted(c, ops) && CounterAhead(c)
    ensures NumbersGrow(Issued(c, ops), c.nextId)
    decreases |ops|
  {
    if ops != [] {
      ApplyKeepsCounterAhead(c, ops[0]);
      var (c', ids) := Apply(c, ops[0]);
      IssuedNumbersGrow(c', ops[1..]);
      IssuedFirst(c, ops[0], Issued(c', ops[1..]));
    }
  }

  /**
   Over any run of adds, drops and restores of arbitrary specs that does not exhaust the counter,
   no issued id equals another issued id or an id present at the start. Since every suffix of a
   run is a run, no issued id is present when it is issued.
   */
  lemma IdsNeverReissued(c: Catalog, ops: seq<CatalogOp>)
    requires NeverExhausted(c, ops) && CounterAhead(c)
    ensures forall i, j :: 0 <= i < j < |Issued(c, ops)| ==> Issued(c, ops)[i] != Issued(c, ops)[j]
    ensures forall id, s :: id in Issued(c, ops) && s in c.sources ==> id != s.sourceId
  {
    IssuedNumbersGrow(c, ops);
    forall id, s | id in Issued(c, ops) && s in c.sources ensures id != s.sourceId {
      assert Behind(s.sourceId, c.nextId);
    }
  }

  /** The bound is needed: past the last number the counter wraps, and an id that is present is issued again. */
  lemma ExhaustionReissues(present: SourceSpec, r: SourceRequest)
    requires present.sourceId == SourceId(0) && Rejection(r).None?
    ensures SourceId(0) in Issued(Catalog([present], U64_MAX), [AddOp(r), AddOp(r)])
  {
    var c := Catalog([present], U64_MAX);
    var c' := Apply(c, AddOp(r)).0;
    assert [AddOp(r), AddOp(r)][1..] == [AddOp(r)] && [AddOp(r)][1..] == [];
    assert c'.nextId == 0;
    assert Issued(c', [AddOp(r)]) == [SourceId(0)] + [];
  }

  // ---- what add, drop and restore do, field by field ------------------------

  /** `kind` is `raw` without the white space around it, in lowercase. */
  ghost predicate IsNormalized(raw: string, i: nat, j: nat, kind: string) {
    && i <= j <= |raw| && |kind| == j - i
    && (forall k :: 0 <= k < |raw| && (k < i || j <= k) ==> IsWhitespace(raw[k]))
    && (i < j ==> !IsWhitespace(raw[i]) && !IsWhitespace(raw[j - 1]))
    && (forall k :: 0 <= k < |kind| ==>
          kind[k] == if 'A' <= raw[i + k] <= 'Z' then (raw[i + k] as int + 32) as char else raw[i + k])
  }

  lemma {:induction false} TrimStartExact(s: string) returns (i: nat)
    ensures i <= |s| && TrimStart(s) == s[i..] && (forall k :: 0 <= k < i ==> IsWhitespace(s[k]))
    ensures i < |s| ==> !IsWhitespace(s[i])
  {
    i := 0;
    if s != [] && IsWhitespace(s[0]) {
      i := TrimStartExact(s[1..]);
      assert forall k :: 0 < k < |s| ==> s[k] == s[1..][k - 1];
      i := i + 1;
    }
  }

  lemma {:induction false} TrimEndExact(s: string) returns (j: nat)
    ensures j <= |s| && TrimEnd(s) == s[..j] && (forall k :: j <= k < |s| ==> IsWhitespace(s[k]))
    ensures j > 0 ==> !IsWhitespace(s[j - 1])
  {
    j := |s|;
    if s != [] && IsWhitespace(s[|s| - 1]) {
      j := TrimEndExact(s[..|s| - 1]);
      assert s[..|s| - 1][..j] == s[..j];
    }
  }

  lemma NormalKindExact(raw: string) returns (i: nat, j: nat)
    ensures IsNormalized(raw, i, j, NormalKind(raw))
  {
    i := TrimStartExact(raw);
    var n := TrimEndExact(raw[i..]);
    j := i + n;
    assert raw[i..][..n] == raw[i..j];
  }

  predicate Given(field: Option<string>) {
    field.Some? && |field.value| > 0
  }

  /** The locator each kind of source needs. */
  predicate Acceptable(kind: string, r: SourceRequest) {
    match kind
    case "dir" => Given(r.path)
    case "glob" => Given(r.path)
    case "debuginfod" => Given(r.url)
    case "http" => Given(r.url)
    case "s3" => Given(r.bucket)
    case "inline" => true
    case _ => false
  }

  /** The appended source: local kinds are enabled unless told otherwise, remote ones only when told so. */
  ghost predicate IsAdded(s: SourceSpec, kind: string, r: SourceRequest) {
    && s.kind == kind && s.path == r.path && s.url == r.url && s.bucket == r.bucket && s.secret == r.secret
    && (s.egress <==> kind in {"debuginfod", "s3", "http"})
    && s.enabled == if r.enabled.Some? then r.enabled.value else kind !in {"debuginfod", "s3", "http"}
  }

  /** What a rejected request is told. */
  ghost predicate IsComplaint(message: string, kind: string) {
    if kind in {"dir", "glob"} then message == "source kind '" + kind + "' requires path =>"
    else if kind in {"debuginfod", "http"} then message == "source kind '" + kind + "' requires url =>"
    else if kind == "s3" then message == "source kind 's3' requires bucket =>"
    else message == "unknown source kind '" + kind + "'"
  }

  /** The catalog and the result after a request with this kind. */
  ghost predicate SourceAdded(c: Catalog, d: Catalog, kind: string, r: SourceRequest, result: Result<string, string>) {
    && (result.Success? <==> Acceptable(kind, r))
    && (result.Failure? ==> d == c && IsComplaint(result.error, kind))
    && (result.Success? ==>
          && result.value == "src" + Decimal(c.nextId)
          && |d.sources| == |c.sources| + 1 && d.sources[..|c.sources|] == c.sources
          && d.sources[|c.sources|].sourceId == result.value && IsAdded(d.sources[|c.sources|], kind, r)
          && d.nextId == if c.nextId == 0xFFFF_FFFF_FFFF_FFFF then 0 else c.nextId + 1)
  }

  /**
   A request is accepted exactly if its kind, however it is spelled, is known and has its locator;
   then one source with the next id is appended, and otherwise nothing changes.
   */
  lemma AddExact(c: Catalog, r: SourceRequest) returns (i: nat, j: nat)
    ensures IsNormalized(r.kind, i, j, NormalKind(r.kind))
    ensures var (d, result) := Add(c, r); SourceAdded(c, d, NormalKind(r.kind), r, result)
  {
    i, j := NormalKindExact(r.kind);
  }

  /** Dropping keeps the other sources in their order, each as often as it was there. */
  lemma {:induction false} DropKeepsOrder(a: seq<SourceSpec>, b: seq<SourceSpec>, id: string)
    ensures Without(a + b, id) == Without(a, id) + Without(b, id)
    ensures (forall s :: s in a ==> s.sourceId != id) ==> Without(a, id) == a
  {
    if b == [] {
      assert a + b == a;
      if forall s :: s in a ==> s.sourceId != id { WithoutOther(a, id); }
    } else {
      assert (a + b)[..|a + b| - 1] == a + b[..|b| - 1];
      DropKeepsOrder(a, b[..|b| - 1], id);
    }
  }

  lemma {:induction false} WithoutOther(a: seq<SourceSpec>, id: string)
    requires forall s :: s in a ==> s.sourceId != id
    ensures Without(a, id) == a
  {
    if a != [] {
      WithoutOther(a[..|a| - 1], id);
      assert a[|a| - 1] in a && a == a[..|a| - 1] + [a[|a| - 1]];
    }
  }

  /** The id of a source reads `src` and a number that has a successor, the given one. */
  predicate IsNumbered(s: SourceSpec, next: nat) {
    |s.sourceId| >= 3 && s.sourceId[..3] == "src" && next > 0 && ParseU64(s.sourceId[3..]) == Some(next - 1)
  }

  /** Restoring moves the counter just past the largest number present, and never back. */
  lemma {:induction false} AheadExactly(nextId: U64, specs: seq<SourceSpec>)
    ensures var next := Ahead(nextId, specs);
            && next >= nextId
            && (next == nextId || exists s :: s in specs && IsNumbered(s, next))
            && (forall s, n: nat :: s in specs && n <= 0xFFFF_FFFF_FFFF_FFFF && IsNumbered(s, n) ==> n <= next)
  {
    if specs != [] {
      var front, last := specs[..|specs| - 1], specs[|specs| - 1];
      assert specs == front + [last];
      AheadExactly(nextId, front);
      var before, next := Ahead(nextId, front), Ahead(nextId, specs);
      if next != before {
        assert PREFIX <= last.sourceId && last.sourceId[..3] == "src";
        assert last in specs && IsNumbered(last, next);
      } else if next != nextId {
        var s :| s in front && IsNumbered(s, next);
        assert s in specs;
      }
      forall s, n: nat | s in specs && n <= 0xFFFF_FFFF_FFFF_FFFF && IsNumbered(s, n) ensures n <= next {
        if s !in front { assert s == last && PREFIX <= last.sourceId; }
      }
    }
  }

  // ---- numerals ----------------------------------------------------------------

  /** What reads as a number: after at most one plus sign only digits, at least one, within 64 bits. */
  lemma NumeralExact(s: string)
    ensures var digits := if |s| > 0 && s[0] == '+' then s[1..] else s;
            && (ParseU64(s).Some? ==> |digits| > 0 && forall k :: 0 <= k < |digits| ==> '0' <= digits[k] <= '9')
            && (|digits| > 0 && (forall k :: 0 <= k < |digits| ==> '0' <= digits[k] <= '9') ==>
                  DigitsValue(digits).Some?
                  && (ParseU64(s).Some? <==> DigitsValue(digits).value <= 0xFFFF_FFFF_FFFF_FFFF)
                  && (ParseU64(s).Some? ==> ParseU64(s) == DigitsValue(digits)))
  {
    DigitsExact(if |s| > 0 && s[0] == '+' then s[1..] else s);
  }

  lemma {:induction false} DigitsExact(s: string)
    ensures DigitsValue(s).Some? <==> forall k :: 0 <= k < |s| ==> '0' <= s[k] <= '9'
    ensures DigitsValue(s).Some? && |s| > 0 ==>
              var front, last := s[..|s| - 1], s[|s| - 1];
              && DigitsValue(front).Some?
              && DigitsValue(s).value == 10 * DigitsValue(front).value + (last as int - 48)
  {
    if s != [] { DigitsExact(s[..|s| - 1]); }
  }
}
