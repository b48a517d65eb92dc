/**
 Identifier keys (id.rs): canonical tokens, hexadecimal encoding, and the lookup aliases of
 a debug file's identity.
 */
module Ids {

  import opened Wrappers
  import opened Sorting

  type Byte = x: nat | x < 256

  predicate IsAsciiWhitespace(c: char) {
    c == ' ' || c == '\t' || c == '\n' || c == '\r' || c == '\U{C}'
  }

  predicate IsSeparator(c: char) {
    IsAsciiWhitespace(c) || c == '-' || c == '{' || c == '}'
  }

  function LowerChar(c: char): char {
    if 'A' <= c <= 'Z' then ((c as int) + 32) as char else c
  }

  /** `canonical_token`: drop the separators, lowercase what is left. */
  function CanonicalToken(s: string): string {
    if s == [] then []
    else if IsSeparator(s[0]) then CanonicalToken(s[1..])
    else [LowerChar(s[0])] + CanonicalToken(s[1..])
  }

  function HexDigit(n: nat): (c: char)
    requires n < 16
    ensures HexValue(c) == n
    ensures !IsSeparator(c) && LowerChar(c) == c
  {
    if n < 10 then (('0' as int) + n) as char else (('a' as int) + n - 10) as char
  }

  function HexValue(c: char): int {
    if '0' <= c <= '9' then c as int - '0' as int else c as int - 'a' as int + 10
  }

  /** The lowercase hexadecimal spelling of a byte string, two digits a byte. */
  function Hex(bytes: seq<Byte>): string {
    if bytes == [] then []
    else [HexDigit(bytes[0] / 16), HexDigit(bytes[0] % 16)] + Hex(bytes[1..])
  }

  /** `hex_encode`, pushing one digit at a time. */
  method HexEncode(bytes: seq<Byte>) returns (s: string)
    ensures s == Hex(bytes)
  {
    s := [];
    for i := 0 to |bytes|
      invariant Hex(bytes) == s + Hex(bytes[i..])
    {
      s := s + [HexDigit(bytes[i] / 16)];
      s := s + [HexDigit(bytes[i] % 16)];
      assert bytes[i..][1..] == bytes[i + 1..];
    }
  }

  /** A number in lowercase hexadecimal without leading zeros, as the age of a debug-id is printed. */
  function HexNumber(n: nat): string {
    if n < 16 then [HexDigit(n)] else HexNumber(n / 16) + [HexDigit(n % 16)]
  }

  // ---- identities ------------------------------------------------------

  datatype Format = Elf | MachO | DSym | Pe | Pdb | Breakpad
  {
    function AsStr(): string {
      match this
      case Elf => "ELF"
      case MachO => "MachO"
      case DSym => "dSYM"
      case Pe => "PE"
      case Pdb => "PDB"
      case Breakpad => "Breakpad"
    }
  }

  /** The name a format is shown under. */
  ghost predicate IsFormatName(name: string, format: Format) {
    && (format.Elf? ==> name == "ELF") && (format.MachO? ==> name == "MachO") && (format.DSym? ==> name == "dSYM")
    && (format.Pe? ==> name == "PE") && (format.Pdb? ==> name == "PDB") && (format.Breakpad? ==> name == "Breakpad")
  }

  lemma FormatNamed(format: Format)
    ensures IsFormatName(format.AsStr(), format)
  {
  }

  type Uuid = u: seq<Byte> | |u| == 16 witness seq(16, i => 0)

  /** A normalized debug-id: a UUID and an age. */
  datatype DebugId = DebugId(uuid: Uuid, age: nat)

  datatype Identity = Identity(format: Format, arch: string, debugId: DebugId, rawBuildId: Option<string>)
  {
    /** The cache key: the breakpad spelling in lowercase. */
    function DebugIdStr(): string {
      Hex(debugId.uuid) + HexNumber(debugId.age)
    }

    /** The tokens `aliases` starts from, before sorting. */
    function AliasInputs(): seq<string> {
      [CanonicalToken(DebugIdStr()), CanonicalToken(Hex(debugId.uuid))]
      + (match rawBuildId case Some(b) => [CanonicalToken(b)] case None => [])
    }

    /** `aliases`: sorted and without duplicates. */
    function Aliases(): seq<string> {
      DedupByKey(StableSort(AliasInputs(), Itself, StringLeq), Itself)
    }
  }

  function Itself(s: string): string { s }

  // ---- canonical tokens ------------------------------------------------

  lemma {:induction false} CanonicalChars(s: string, c: char)
    requires c in CanonicalToken(s)
    ensures !IsSeparator(c) && LowerChar(c) == c
  {
    if !IsSeparator(s[0]) && c == LowerChar(s[0]) {
    } else {
      CanonicalChars(s[1..], c);
    }
  }

  /** A text without separators or capitals is its own canonical token. */
  lemma {:induction false} CanonicalFixes(s: string)
    requires forall c :: c in s ==> !IsSeparator(c) && LowerChar(c) == c
    ensures CanonicalToken(s) == s
  {
    if s != [] {
      CanonicalFixes(s[1..]);
    }
  }

  lemma {:induction false} CanonicalIdempotent(s: string)
    ensures CanonicalToken(CanonicalToken(s)) == CanonicalToken(s)
  {
    forall c | c in CanonicalToken(s) ensures !IsSeparator(c) && LowerChar(c) == c {
      CanonicalChars(s, c);
    }
    CanonicalFixes(CanonicalToken(s));
  }

  lemma {:induction false} CanonicalConcat(s: string, t: string)
    ensures CanonicalToken(s + t) == CanonicalToken(s) + CanonicalToken(t)
  {
    if s == [] {
      assert s + t == t;
    } else {
      assert (s + t)[1..] == s[1..] + t;
      CanonicalConcat(s[1..], t);
    }
  }

  /** Separators anywhere, and either case of any letter, leave the canonical token unchanged. */
  lemma SpellingIrrelevant(before: string, c: char, separators: string, after: string)
    requires forall d :: d in separators ==> IsSeparator(d)
    ensures CanonicalToken(before + [c] + separators + after) == CanonicalToken(before + [LowerChar(c)] + after)
  {
    var head, lower := before + [c], before + [LowerChar(c)];
    CanonicalConcat(head + separators, after);
    SeparatorsAfter(head, separators);
    CanonicalConcat(lower, after);
    EitherCase(before, c);
  }

  lemma SeparatorsAfter(s: string, separators: string)
    requires forall d :: d in separators ==> IsSeparator(d)
    ensures CanonicalToken(s + separators) == CanonicalToken(s)
  {
    CanonicalConcat(s, separators);
    SeparatorsVanish(separators);
  }

  lemma EitherCase(s: string, c: char)
    ensures CanonicalToken(s + [c]) == CanonicalToken(s + [LowerChar(c)])
  {
    CanonicalConcat(s, [c]);
    CanonicalConcat(s, [LowerChar(c)]);
  }

  lemma {:induction false} SeparatorsVanish(s: string)
    requires forall d :: d in s ==> IsSeparator(d)
    ensures CanonicalToken(s) == []
  {
    if s != [] {
      SeparatorsVanish(s[1..]);
    }
  }

  // ---- hexadecimal -----------------------------------------------------

  lemma {:induction false} HexChars(bytes: seq<Byte>, c: char)
    requires c in Hex(bytes)
    ensures !IsSeparator(c) && LowerChar(c) == c
  {
    if c != HexDigit(bytes[0] / 16) && c != HexDigit(bytes[0] % 16) {
      HexChars(bytes[1..], c);
    }
  }

  lemma {:induction false} HexNumberChars(n: nat, c: char)
    requires c in HexNumber(n)
    ensures !IsSeparator(c) && LowerChar(c) == c
  {
    if n >= 16 && c != HexDigit(n % 16) {
      HexNumberChars(n / 16, c);
    }
  }

  lemma {:induction false} HexIsCanonical(bytes: seq<Byte>)
    ensures CanonicalToken(Hex(bytes)) == Hex(bytes)
  {
    forall c | c in Hex(bytes) ensures !IsSeparator(c) && LowerChar(c) == c { HexChars(bytes, c); }
    CanonicalFixes(Hex(bytes));
  }

  lemma {:induction false} HexLength(bytes: seq<Byte>)
    ensures |Hex(bytes)| == 2 * |bytes|
  {
    if bytes != [] { HexLength(bytes[1..]); }
  }

  lemma {:induction false} HexInjective(a: seq<Byte>, b: seq<Byte>)
    requires Hex(a) == Hex(b)
    ensures a == b
  {
    HexLength(a);
    HexLength(b);
    if a != [] {
      assert Hex(a)[0] == HexDigit(a[0] / 16) && Hex(a)[1] == HexDigit(a[0] % 16);
      assert Hex(b)[0] == HexDigit(b[0] / 16) && Hex(b)[1] == HexDigit(b[0] % 16);
      assert Hex(a)[2..] == Hex(a[1..]) && Hex(b)[2..] == Hex(b[1..]);
      HexInjective(a[1..], b[1..]);
      assert a[0] == a[0] / 16 * 16 + a[0] % 16 && b[0] == b[0] / 16 * 16 + b[0] % 16;
      assert a == [a[0]] + a[1..] && b == [b[0]] + b[1..];
    }
  }

  lemma {:induction false} HexNumberInjective(m: nat, n: nat)
    requires HexNumber(m) == HexNumber(n)
    ensures m == n
  {
    var s, t := HexNumber(m), HexNumber(n);
    assert HexValue(s[|s| - 1]) == m % 16 && HexValue(t[|t| - 1]) == n % 16;
    HexNumberLength(m / 16);
    HexNumberLength(n / 16);
    if m >= 16 {
      assert s[..|s| - 1] == HexNumber(m / 16) && t[..|t| - 1] == HexNumber(n / 16);
      HexNumberInjective(m / 16, n / 16);
    }
  }

  lemma {:induction false} HexNumberLength(n: nat)
    ensures |HexNumber(n)| >= 1
  {
    if n >= 16 { HexNumberLength(n / 16); }
  }

  // ---- identity keys ---------------------------------------------------

  lemma DebugIdStrIsCanonical(i: Identity)
    ensures CanonicalToken(i.DebugIdStr()) == i.DebugIdStr()
  {
    forall c | c in i.DebugIdStr() ensures !IsSeparator(c) && LowerChar(c) == c {
      if c in Hex(i.debugId.uuid) {
        HexChars(i.debugId.uuid, c);
      } else {
        HexNumberChars(i.debugId.age, c);
      }
    }
    CanonicalFixes(i.DebugIdStr());
  }

  /** Different debug-ids never share a cache key. */
  lemma DebugIdStrInjective(i: Identity, j: Identity)
    requires i.DebugIdStr() == j.DebugIdStr()
    ensures i.debugId == j.debugId
  {
    HexLength(i.debugId.uuid);
    HexLength(j.debugId.uuid);
    assert i.DebugIdStr()[..32] == Hex(i.debugId.uuid) && i.DebugIdStr()[32..] == HexNumber(i.debugId.age);
    assert j.DebugIdStr()[..32] == Hex(j.debugId.uuid) && j.DebugIdStr()[32..] == HexNumber(j.debugId.age);
    HexInjective(i.debugId.uuid, j.debugId.uuid);
    HexNumberInjective(i.debugId.age, j.debugId.age);
  }

  lemma AliasesOfInputs(i: Identity)
    ensures SortedBy(i.Aliases(), Itself, StringLeq) && DistinctBy(i.Aliases(), Itself)
    ensures forall t :: t in i.Aliases() <==> t in i.AliasInputs()
  {
    StringOrder();
    var inputs := i.AliasInputs();
    var sorted := StableSort(inputs, Itself, StringLeq);
    StableSortCorrect(inputs, Itself, StringLeq);
    DedupCorrect(sorted, Itself, StringLeq);
    forall t ensures t in i.Aliases() <==> t in inputs {
      SameMember(inputs, i.Aliases(), Itself, t);
    }
  }

  /** The alias list is strictly sorted and holds exactly the canonical spellings of the three ids. */
  lemma AliasesExact(i: Identity)
    ensures SortedBy(i.Aliases(), Itself, StringLeq) && DistinctBy(i.Aliases(), Itself)
    ensures forall t :: t in i.Aliases() <==>
              t == i.DebugIdStr() || t == Hex(i.debugId.uuid)
              || (i.rawBuildId.Some? && t == CanonicalToken(i.rawBuildId.value))
  {
    AliasesOfInputs(i);
    DebugIdStrIsCanonical(i);
    HexIsCanonical(i.debugId.uuid);
  }

  /** Every alias is canonical, and the cache key itself is an alias. */
  lemma AliasesCanonical(i: Identity)
    ensures i.DebugIdStr() in i.Aliases()
    ensures forall t :: t in i.Aliases() ==> CanonicalToken(t) == t
  {
    AliasesExact(i);
    DebugIdStrIsCanonical(i);
    HexIsCanonical(i.debugId.uuid);
    if i.rawBuildId.Some? { CanonicalIdempotent(i.rawBuildId.value); }
  }

  // ---- spellings, character by character -------------------------------

  const DIGITS := "0123456789abcdef"

  /** The canonical token of one character; by concatenation this fixes that of every text. */
  lemma CanonicalOfChar(c: char)
    ensures c in " \t\n\r\U{C}-{}" ==> CanonicalToken([c]) == []
    ensures 'A' <= c <= 'Z' ==> CanonicalToken([c]) == [(c as int - 'A' as int + 'a' as int) as char]
    ensures c !in " \t\n\r\U{C}-{}" && !('A' <= c <= 'Z') ==> CanonicalToken([c]) == [c]
  {
    assert [c][1..] == [];
  }

  lemma DigitAt(n: nat)
    requires n < 16
    ensures HexDigit(n) == DIGITS[n]
  {
  }

  /** Each byte is spelled by its two digits, the high one first. */
  lemma {:induction false} HexSpells(bytes: seq<Byte>, i: nat)
    requires i < |bytes|
    ensures |Hex(bytes)| == 2 * |bytes|
    ensures Hex(bytes)[2 * i] == DIGITS[bytes[i] / 16] && Hex(bytes)[2 * i + 1] == DIGITS[bytes[i] % 16]
  {
    HexLength(bytes);
    if i == 0 {
      DigitAt(bytes[0] / 16);
      DigitAt(bytes[0] % 16);
    } else {
      HexSpells(bytes[1..], i - 1);
      assert Hex(bytes)[2 * i] == Hex(bytes[1..])[2 * (i - 1)];
      assert Hex(bytes)[2 * i + 1] == Hex(bytes[1..])[2 * (i - 1) + 1];
    }
  }

  /** `s` spells `n` in hexadecimal: no leading zero, the digits most significant first. */
  ghost predicate SpellsNumber(s: string, n: nat) {
    && |s| >= 1 && s[|s| - 1] == DIGITS[n % 16]
    && (|s| == 1 <==> n < 16)
    && (|s| > 1 ==> SpellsNumber(s[..|s| - 1], n / 16))
  }

  lemma {:induction false} HexNumberSpells(n: nat)
    ensures SpellsNumber(HexNumber(n), n)
  {
    DigitAt(n % 16);
    HexNumberLength(n / 16);
    if n >= 16 {
      HexNumberSpells(n / 16);
      assert HexNumber(n)[..|HexNumber(n)| - 1] == HexNumber(n / 16);
    }
  }

  /** The cache key: 32 digits of the UUID, then the age in as many digits as it needs. */
  lemma DebugIdSpells(i: Identity)
    ensures var s := i.DebugIdStr();
            && |s| > 32 && SpellsNumber(s[32..], i.debugId.age)
            && (forall k :: 0 <= k < 16 ==>
                  s[2 * k] == DIGITS[i.debugId.uuid[k] / 16] && s[2 * k + 1] == DIGITS[i.debugId.uuid[k] % 16])
  {
    var s, hex := i.DebugIdStr(), Hex(i.debugId.uuid);
    HexNumberSpells(i.debugId.age);
    HexLength(i.debugId.uuid);
    assert s[32..] == HexNumber(i.debugId.age);
    forall k | 0 <= k < 16
      ensures s[2 * k] == DIGITS[i.debugId.uuid[k] / 16] && s[2 * k + 1] == DIGITS[i.debugId.uuid[k] % 16]
    {
      HexSpells(i.debugId.uuid, k);
    }
  }
}
