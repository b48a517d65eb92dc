/**
 The symbol table of a DWARF module (module/dwarf.rs): built by a stable sort on the address
 and a dedup, searched for the nearest symbol at or below an address.
 */
module Symbols {

  import opened Wrappers
  import opened Sorting

  /** A linkage name with the demangler's rendering of it. */
  datatype Name = Name(raw: string, demangled: string)

  /** A symbol as the object reader reports it; `name` is None when the name is unreadable. */
  datatype ObjectSymbol = ObjectSymbol(address: U64, isText: bool, name: Option<Name>)

  datatype Symbol = Symbol(address: U64, name: string)

  function AddressOf(s: Symbol): U64 { s.address }

  predicate AddressLeq(a: U64, b: U64) { a <= b }

  /** The function symbols: text symbols whose name is readable and not empty, in file order. */
  function TextSymbols(all: seq<ObjectSymbol>): seq<Symbol> {
    if all == [] then []
    else
      var s := all[0];
      var rest := TextSymbols(all[1..]);
      if s.isText && s.name.Some? && s.name.value.raw != "" then [Symbol(s.address, s.name.value.demangled)] + rest
      else rest
  }

  function SymbolTable(symbols: seq<Symbol>): seq<Symbol> {
    DedupByKey(StableSort(symbols, AddressOf, AddressLeq), AddressOf)
  }

  /** `symbol_for`: the symbol at `addr`, else the one before the insertion point. */
  function SymbolFor(table: seq<Symbol>, addr: U64): Option<string> {
    match BinarySearch(table, addr, AddressOf, AddressLeq, 0, |table|)
    case Success(i) => Some(table[i].name)
    case Failure(0) => None
    case Failure(i) => Some(table[i - 1].name)
  }

  /**
   The reference: one pass in file order that keeps the first symbol among those with the
   greatest address seen so far at or below `addr`.
   */
  function Nearest(symbols: seq<Symbol>, addr: U64): (best: Option<Symbol>)
    ensures best.None? <==> forall s :: s in symbols ==> addr < s.address
    ensures best.Some? ==> best.value in symbols && best.value.address <= addr
    ensures best.Some? ==> forall s :: s in symbols && s.address <= addr ==> s.address <= best.value.address
    ensures best.Some? ==> best.value == WithKey(symbols, AddressOf, best.value.address)[0]
  {
    if symbols == [] then None
    else
      var prefix, last := symbols[..|symbols| - 1], symbols[|symbols| - 1];
      assert symbols == prefix + [last];
      var best := Nearest(prefix, addr);
      WithKeySnoc(prefix, last, last.address);
      if last.address <= addr && (best.None? || best.value.address < last.address) then
        assert WithKey(prefix, AddressOf, last.address) != [] ==>
            WithKey(prefix, AddressOf, last.address)[0] in WithKey(prefix, AddressOf, last.address);
        Some(last)
      else
        if best.Some? then WithKeySnoc(prefix, last, best.value.address); best else best
  }

  lemma {:induction false} WithKeySnoc(prefix: seq<Symbol>, last: Symbol, k: U64)
    ensures WithKey(prefix + [last], AddressOf, k)
         == WithKey(prefix, AddressOf, k) + (if last.address == k then [last] else [])
  {
    if prefix == [] {
      assert prefix + [last] == [last];
    } else {
      assert (prefix + [last])[1..] == prefix[1..] + [last];
      WithKeySnoc(prefix[1..], last, k);
    }
  }

  lemma AddressOrder()
    ensures TotalOrder(AddressLeq)
  {
  }

  /** Sorting, deduplicating and binary searching finds exactly what the one-pass scan finds. */
  lemma SymbolForIsNearest(symbols: seq<Symbol>, addr: U64)
    ensures SymbolFor(SymbolTable(symbols), addr)
         == (match Nearest(symbols, addr) case None => None case Some(s) => Some(s.name))
  {
    TableOfSymbols(symbols);
    NearestFromTable(symbols, SymbolTable(symbols), addr);
  }

  /** The table holds, strictly sorted, the first symbol of the file at each address that has one. */
  ghost predicate IsTable(symbols: seq<Symbol>, table: seq<Symbol>) {
    && SortedBy(table, AddressOf, AddressLeq) && DistinctBy(table, AddressOf)
    && (forall i :: 0 <= i < |table| ==> TableRow(symbols, table[i]))
    && (forall s :: s in symbols ==> InTable(table, s))
  }

  ghost predicate InTable(table: seq<Symbol>, s: Symbol) {
    exists i :: 0 <= i < |table| && table[i].address == s.address
  }

  lemma TableOfSymbols(symbols: seq<Symbol>)
    ensures IsTable(symbols, SymbolTable(symbols))
  {
    var sorted, table := StableSort(symbols, AddressOf, AddressLeq), SymbolTable(symbols);
    StableSortCorrect(symbols, AddressOf, AddressLeq);
    DedupCorrect(sorted, AddressOf, AddressLeq);
    TableFromKeys(symbols, table);
  }

  lemma TableFromKeys(symbols: seq<Symbol>, table: seq<Symbol>)
    requires SortedBy(table, AddressOf, AddressLeq) && DistinctBy(table, AddressOf)
    requires forall k :: WithKey(table, AddressOf, k) == Head(WithKey(symbols, AddressOf, k))
    ensures IsTable(symbols, table)
  {
    forall i | 0 <= i < |table| ensures TableRow(symbols, table[i]) {
      TableRowFromFile(symbols, table, i);
    }
    forall s | s in symbols ensures InTable(table, s) {
      FileSymbolInTable(symbols, table, s);
    }
  }

  /** `t` is the first symbol of the file at its address. */
  ghost predicate TableRow(symbols: seq<Symbol>, t: Symbol) {
    var same := WithKey(symbols, AddressOf, t.address);
    same != [] && same[0] == t
  }

  lemma TableRowFromFile(symbols: seq<Symbol>, table: seq<Symbol>, i: nat)
    requires i < |table|
    requires forall k :: WithKey(table, AddressOf, k) == Head(WithKey(symbols, AddressOf, k))
    requires DistinctBy(table, AddressOf)
    ensures TableRow(symbols, table[i])
  {
    var k := table[i].address;
    var w := WithKey(table, AddressOf, k);
    assert table[i] in w;
    assert w == Head(WithKey(symbols, AddressOf, k));
  }

  lemma FileSymbolInTable(symbols: seq<Symbol>, table: seq<Symbol>, s: Symbol)
    requires s in symbols
    requires forall k :: WithKey(table, AddressOf, k) == Head(WithKey(symbols, AddressOf, k))
    ensures InTable(table, s)
  {
    var w := WithKey(table, AddressOf, s.address);
    assert s in WithKey(symbols, AddressOf, s.address);
    assert w[0] in w && w[0] in table;
  }

  /** Where the search lands: the last table row at or below `addr`, -1 when there is none. */
  function LandsAt(table: seq<Symbol>, addr: U64): (at: int)
    ensures -1 <= at < |table|
    ensures SymbolFor(table, addr) == if at < 0 then None else Some(table[at].name)
  {
    match BinarySearch(table, addr, AddressOf, AddressLeq, 0, |table|)
    case Success(i) => i
    case Failure(i) => i - 1
  }

  lemma LandsAtSplits(table: seq<Symbol>, addr: U64, i: nat)
    requires i < |table|
    requires SortedBy(table, AddressOf, AddressLeq) && DistinctBy(table, AddressOf)
    ensures table[i].address <= addr <==> i <= LandsAt(table, addr)
  {
    AddressOrder();
    BinarySearchCorrect(table, addr, AddressOf, AddressLeq, 0, |table|);
    var at := LandsAt(table, addr);
    if 0 <= at {
      assert i < at ==> AddressLeq(AddressOf(table[i]), AddressOf(table[at]));
      assert at < i ==>
          AddressLeq(AddressOf(table[at]), AddressOf(table[i])) && AddressOf(table[i]) != AddressOf(table[at]);
    }
  }

  lemma NearestFromTable(symbols: seq<Symbol>, table: seq<Symbol>, addr: U64)
    requires IsTable(symbols, table)
    ensures SymbolFor(table, addr) == (match Nearest(symbols, addr) case None => None case Some(s) => Some(s.name))
  {
    var at := LandsAt(table, addr);
    if at < 0 {
      forall s | s in symbols ensures addr < s.address {
        var i := RowOf(table, s);
        LandsAtSplits(table, addr, i);
      }
    } else {
      NearestIsRow(symbols, table, addr, at);
    }
  }

  lemma RowOf(table: seq<Symbol>, s: Symbol) returns (i: nat)
    requires InTable(table, s)
    ensures i < |table| && table[i].address == s.address
  {
    i :| 0 <= i < |table| && table[i].address == s.address;
  }

  /** The row the search lands at is the symbol the scan keeps. */
  lemma NearestIsRow(symbols: seq<Symbol>, table: seq<Symbol>, addr: U64, at: nat)
    requires IsTable(symbols, table) && at < |table| && at == LandsAt(table, addr)
    ensures Nearest(symbols, addr) == Some(table[at])
  {
    LandsAtSplits(table, addr, at);
    var t, best := table[at], Nearest(symbols, addr);
    assert TableRow(symbols, t);
    assert t in WithKey(symbols, AddressOf, t.address);
    var i := RowOf(table, best.value);
    LandsAtSplits(table, addr, i);
    assert i < at ==> AddressLeq(AddressOf(table[i]), AddressOf(table[at]));
    assert best.value.address == t.address;
  }
}
