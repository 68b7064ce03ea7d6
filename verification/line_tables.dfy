/** Line tables of compiled methods, and their reading after the dump
    (src/profiler/code_cache.cpp, offlineprocess/pylib/code_cache.py). */
module LineTables {

  import opened Options
  import opened RangeSets

  datatype Line = Line(start: nat, line: int)
  datatype Location = Location(start: nat, bci: nat)

  // ----- Byte code indices

  ghost predicate Sorted(table: seq<Line>) {
    forall i, j :: 0 <= i < j < |table| ==> table[i].start <= table[j].start
  }

  function LineEnd(table: seq<Line>, end: int, i: nat): int
    requires i < |table|
  {
    if i < |table| - 1 then table[i + 1].start - 1 else end
  }

  /** An entry with the same start as the next one has no range. */
  predicate HasRange(table: seq<Line>, end: int, i: nat) {
    i < |table| && table[i].start <= LineEnd(table, end, i)
  }

  function LineRange(table: seq<Line>, end: int, i: nat): Range<int>
    requires HasRange(table, end, i)
  {
    Range(table[i].start, LineEnd(table, end, i), table[i].line)
  }

  ghost predicate LineOf(m: map<nat, Range<int>>, table: seq<Line>, end: int, a: nat, i: nat) {
    HasRange(table, end, i) && table[i].start == a && a in m && m[a] == LineRange(table, end, i)
  }

  ghost predicate Entered(m: map<nat, Range<int>>, table: seq<Line>, end: int, i: nat) {
    HasRange(table, end, i) ==> LineOf(m, table, end, table[i].start, i)
  }

  /** The ranges of the first `k` entries. */
  ghost predicate BciRanges(m: map<nat, Range<int>>, table: seq<Line>, end: int, k: nat) {
    && (forall a :: a in m ==> exists i: nat :: i < k && LineOf(m, table, end, a, i))
    && (forall i: nat {:trigger Entered(m, table, end, i)} :: i < k ==> Entered(m, table, end, i))
  }

  lemma RangeBefore(table: seq<Line>, end: int, i: nat, j: nat)
    requires Sorted(table) && i < j < |table|
    ensures LineEnd(table, end, i) < table[j].start
    ensures table[i].start <= table[j].start
  {
  }

  lemma InOrder(table: seq<Line>, i: nat, j: nat)
    requires Sorted(table) && i < |table| && j < |table| && table[i].start < table[j].start
    ensures i < j
  {
  }

  lemma LineRangesApart(m: map<nat, Range<int>>, table: seq<Line>, end: int, k: nat)
    requires Sorted(table) && BciRanges(m, table, end, k) && k <= |table|
    ensures Apart(m)
  {
    forall a, b | a in m && b in m && a < b ensures m[a].end < b {
      var i: nat :| i < k && LineOf(m, table, end, a, i);
      var j: nat :| j < k && LineOf(m, table, end, b, j);
      InOrder(table, i, j);
      RangeBefore(table, end, i, j);
    }
  }

  /** The last entry that starts at or before `bci`. */
  ghost predicate IsLastAt(table: seq<Line>, bci: nat, i: nat) {
    i < |table| && table[i].start <= bci && forall j :: i < j < |table| ==> bci < table[j].start
  }

  ghost predicate Answers(table: seq<Line>, end: int, bci: nat, i: nat) {
    IsLastAt(table, bci, i) && (i < |table| - 1 || bci <= end)
  }

  ghost function BciLine(table: seq<Line>, end: int, bci: nat): Option<int> {
    if i: nat :| Answers(table, end, bci, i) then Some(table[i].line) else None
  }

  /** A lookup gives the line of the last entry that starts at or before the index; the last range ends with the
      method. */
  lemma BciLookup(m: map<nat, Range<int>>, table: seq<Line>, end: int, bci: nat)
    requires Sorted(table) && BciRanges(m, table, end, |table|)
    ensures DataOf(Found(m, bci)) == BciLine(table, end, bci)
  {
    LineRangesApart(m, table, end, |table|);
    hide Sorted, BciRanges, Answers, Found, Apart;
    forall i: nat | Answers(table, end, bci, i) ensures DataOf(Found(m, bci)) == Some(table[i].line) {
      AnswerFound(m, table, end, bci, i);
    }
    if Found(m, bci).Some? { var i := FoundAnswers(m, table, end, bci); }
  }

  lemma AnswerFound(m: map<nat, Range<int>>, table: seq<Line>, end: int, bci: nat, i: nat)
    requires Sorted(table) && BciRanges(m, table, end, |table|) && Apart(m) && Answers(table, end, bci, i)
    ensures DataOf(Found(m, bci)) == Some(table[i].line)
  {
    assert HasRange(table, end, i) && Entered(m, table, end, i);
    hide Found, Apart;
    FoundContains(m, bci, LineRange(table, end, i));
  }

  lemma FoundAnswers(m: map<nat, Range<int>>, table: seq<Line>, end: int, bci: nat) returns (i: nat)
    requires Sorted(table) && BciRanges(m, table, end, |table|) && Apart(m) && Found(m, bci).Some?
    ensures Answers(table, end, bci, i)
  {
    var r := Found(m, bci).value;
    FoundContains(m, bci, r);
    i :| i < |table| && LineOf(m, table, end, r.start, i);
    hide Found, Apart, BciRanges, Sorted;
    forall j | i < j < |table| ensures bci < table[j].start { RangeBefore(table, end, i, j); }
  }

  // ----- Addresses

  /** The addresses increase, and the first one lies above the start of the code. */
  ghost predicate Increasing(locs: seq<Location>, codeStart: nat) {
    && (forall i :: 0 <= i < |locs| ==> codeStart < locs[i].start)
    && forall i, j :: 0 <= i < j < |locs| ==> locs[i].start < locs[j].start
  }

  /** Each entry ends the range that starts with the one before it. */
  function AddrStart(locs: seq<Location>, codeStart: nat, i: nat): nat
    requires i < |locs|
  {
    if i == 0 then codeStart else locs[i - 1].start
  }

  ghost predicate AddrOf(m: map<nat, Range<int>>, bcis: map<nat, Range<int>>, locs: seq<Location>, codeStart: nat,
                         a: nat, i: nat) {
    && i < |locs| && locs[i].start > 0 && a == AddrStart(locs, codeStart, i) && a in m && Found(bcis, locs[i].bci).Some?
    && m[a] == Range(a, locs[i].start - 1, Found(bcis, locs[i].bci).value.data)
  }

  ghost predicate AddrIn(m: map<nat, Range<int>>, bcis: map<nat, Range<int>>, locs: seq<Location>, codeStart: nat,
                         i: nat) {
    i < |locs| && AddrOf(m, bcis, locs, codeStart, AddrStart(locs, codeStart, i), i)
  }

  /** The ranges of the first `k` entries. */
  ghost predicate AddrRanges(m: map<nat, Range<int>>, bcis: map<nat, Range<int>>, locs: seq<Location>, codeStart: nat,
                             k: nat) {
    && (forall a :: a in m ==> exists i: nat :: i < k && AddrOf(m, bcis, locs, codeStart, a, i))
    && (forall i: nat {:trigger AddrIn(m, bcis, locs, codeStart, i)} :: i < k ==> AddrIn(m, bcis, locs, codeStart, i))
  }

  /** The entries before the first one whose index is not covered by the line table. */
  ghost predicate IsCovered(bcis: map<nat, Range<int>>, locs: seq<Location>, k: nat) {
    && k <= |locs| && (forall i :: 0 <= i < k ==> Found(bcis, locs[i].bci).Some?)
    && (k < |locs| ==> Found(bcis, locs[k].bci).None?)
  }

  lemma AddrRangesApart(m: map<nat, Range<int>>, bcis: map<nat, Range<int>>, locs: seq<Location>, codeStart: nat,
                        k: nat)
    requires Increasing(locs, codeStart) && AddrRanges(m, bcis, locs, codeStart, k)
    ensures Apart(m)
  {
    forall a | a in m ensures m[a].start == a <= m[a].end {
      var i: nat :| i < k && AddrOf(m, bcis, locs, codeStart, a, i);
      if i > 0 { assert locs[i - 1].start < locs[i].start; }
    }
    forall a, b | a in m && b in m && a < b ensures m[a].end < b {
      var i: nat :| i < k && AddrOf(m, bcis, locs, codeStart, a, i);
      var j: nat :| j < k && AddrOf(m, bcis, locs, codeStart, b, j);
      AddrInOrder(locs, codeStart, i, j);
    }
  }

  lemma AddrInOrder(locs: seq<Location>, codeStart: nat, i: nat, j: nat)
    requires Increasing(locs, codeStart) && i < |locs| && j < |locs| &&
             AddrStart(locs, codeStart, i) < AddrStart(locs, codeStart, j)
    ensures i < j && locs[i].start <= AddrStart(locs, codeStart, j)
  {
  }

  /** The first entry that starts after the address. */
  ghost predicate IsFirstAfter(locs: seq<Location>, addr: nat, i: nat) {
    i < |locs| && addr < locs[i].start && forall j :: 0 <= j < i ==> locs[j].start <= addr
  }

  ghost predicate AddrAnswers(locs: seq<Location>, codeStart: nat, k: nat, addr: nat, i: nat) {
    i < k && IsFirstAfter(locs, addr, i) && codeStart <= addr
  }

  /** The line of the first entry that starts after the address, if it is among the first `k`. */
  ghost function AddrLine(bcis: map<nat, Range<int>>, locs: seq<Location>, codeStart: nat, k: nat,
                          addr: nat): Option<int> {
    if i: nat :| AddrAnswers(locs, codeStart, k, addr, i) then DataOf(Found(bcis, locs[i].bci)) else None
  }

  lemma AddrLookup(m: map<nat, Range<int>>, bcis: map<nat, Range<int>>, locs: seq<Location>, codeStart: nat, k: nat,
                   addr: nat)
    requires Increasing(locs, codeStart) && AddrRanges(m, bcis, locs, codeStart, k) && k <= |locs|
    ensures DataOf(Found(m, addr)) == AddrLine(bcis, locs, codeStart, k, addr)
  {
    AddrRangesApart(m, bcis, locs, codeStart, k);
    forall i: nat | AddrAnswers(locs, codeStart, k, addr, i)
      ensures DataOf(Found(m, addr)) == DataOf(Found(bcis, locs[i].bci))
    {
      hide Found, Apart;
      AddrAnswerFound(m, bcis, locs, codeStart, k, addr, i);
    }
    hide AddrRanges, Apart, Increasing, Found, AddrAnswers;
    if Found(m, addr).Some? { var i := FoundAddrAnswers(m, bcis, locs, codeStart, k, addr); }
  }

  lemma AddrAnswerFound(m: map<nat, Range<int>>, bcis: map<nat, Range<int>>, locs: seq<Location>, codeStart: nat,
                        k: nat, addr: nat, i: nat)
    requires Increasing(locs, codeStart) && AddrRanges(m, bcis, locs, codeStart, k) && k <= |locs| && Apart(m)
    requires AddrAnswers(locs, codeStart, k, addr, i)
    ensures DataOf(Found(m, addr)) == DataOf(Found(bcis, locs[i].bci))
  {
    hide Found, Apart;
    assert AddrIn(m, bcis, locs, codeStart, i);
    FoundContains(m, addr, m[AddrStart(locs, codeStart, i)]);
  }

  lemma FoundAddrAnswers(m: map<nat, Range<int>>, bcis: map<nat, Range<int>>, locs: seq<Location>, codeStart: nat,
                         k: nat, addr: nat)
    returns (i: nat)
    requires Increasing(locs, codeStart) && AddrRanges(m, bcis, locs, codeStart, k) && k <= |locs| && Apart(m)
    requires Found(m, addr).Some?
    ensures AddrAnswers(locs, codeStart, k, addr, i)
  {
    hide Found, Apart;
    var r := Found(m, addr).value;
    FoundContains(m, addr, r);
    i :| i < k && AddrOf(m, bcis, locs, codeStart, r.start, i);
    FirstAfter(locs, codeStart, addr, i);
  }

  lemma OneFirst(locs: seq<Location>, addr: nat, i: nat, j: nat)
    requires IsFirstAfter(locs, addr, i) && IsFirstAfter(locs, addr, j)
    ensures i == j
  {
  }

  lemma FirstAfter(locs: seq<Location>, codeStart: nat, addr: nat, i: nat)
    requires Increasing(locs, codeStart) && i < |locs| && AddrStart(locs, codeStart, i) <= addr < locs[i].start
    ensures IsFirstAfter(locs, addr, i) && codeStart <= addr
  {
  }

  // ----- The compiled method of the profiler

  class CompiledMethod {
    const startAddr: nat
    const codeSize: nat
    const isNative: bool
    const bci2line: RangeSet<int>
    const addr2line: RangeSet<int>

    constructor (startAddr: nat, codeSize: nat, isNative: bool)
      ensures this.startAddr == startAddr && this.codeSize == codeSize && this.isNative == isNative
      ensures fresh(bci2line) && fresh(addr2line) && bci2line != addr2line
      ensures bci2line.startMap == map[] && addr2line.startMap == map[]
    {
      this.startAddr, this.codeSize, this.isNative := startAddr, codeSize, isNative;
      bci2line := new RangeSet();
      addr2line := new RangeSet();
    }

    method LoadBCILineTable(table: seq<Line>, endLocation: int)
      modifies bci2line
      ensures if isNative || old(bci2line.startMap) != map[] then bci2line.startMap == old(bci2line.startMap)
              else bci2line.startMap == TableRanges(table, endLocation, |table|)
                   && (Sorted(table) ==> BciRanges(bci2line.startMap, table, endLocation, |table|))
    {
      if isNative || bci2line.startMap != map[] { return; }
      for i := 0 to |table|
        invariant bci2line.startMap == TableRanges(table, endLocation, i)
      {
        var start := table[i].start;
        var end := if i < |table| - 1 then table[i + 1].start - 1 else endLocation;
        if end >= start {
          var ok := bci2line.Insert(start, end, table[i].line);
        }
      }
      if Sorted(table) { SortedTable(table, endLocation, |table|); }
    }

    /** Stops at the first entry whose index has no line. */
    method LoadAddrLocationMap(locs: seq<Location>)
      requires Increasing(locs, startAddr) && (forall i :: 0 < i < |locs| ==> locs[i].start <= startAddr + codeSize)
      requires bci2line != addr2line && addr2line.startMap == map[]
      modifies addr2line
      ensures if isNative || bci2line.startMap == map[] then addr2line.startMap == map[]
              else
                exists k ::
                  && IsCovered(bci2line.startMap, locs, k)
                  && AddrRanges(addr2line.startMap, bci2line.startMap, locs, startAddr, k)
    {
      hide Increasing, AddrRanges, Found;
      if isNative { return; }
      NoAddrs(bci2line.startMap, locs, startAddr);
      if |locs| == 0 {
        assert IsCovered(bci2line.startMap, locs, 0);
        return;
      }
      if bci2line.startMap == map[] { return; }
      ghost var bcis := bci2line.startMap;
      AddrAbove(locs, startAddr, 0);
      var start, end := startAddr, locs[0].start - 1;
      var line := bci2line.GetData(locs[0].bci);
      if line.None? {
        assert IsCovered(bcis, locs, 0);
        return;
      }
      ghost var m := addr2line.startMap;
      var ok := addr2line.Insert(start, end, line.value);
      AddrAdded(m, addr2line.startMap, bcis, locs, startAddr, 0);
      for i := 0 to |locs| - 1
        invariant bci2line.startMap == bcis
        invariant forall j :: 0 <= j <= i ==> Found(bcis, locs[j].bci).Some?
        invariant AddrRanges(addr2line.startMap, bcis, locs, startAddr, i + 1)
      {
        AddrAbove(locs, startAddr, i + 1);
        start, end := locs[i].start, locs[i + 1].start - 1;
        line := bci2line.GetData(locs[i + 1].bci);
        if line.None? {
          assert IsCovered(bcis, locs, i + 1);
          return;
        }
        m := addr2line.startMap;
        NewAddr(m, bcis, locs, startAddr, i + 1);
        ok := addr2line.Insert(start, end, line.value);
        AddrAdded(m, addr2line.startMap, bcis, locs, startAddr, i + 1);
      }
      assert IsCovered(bcis, locs, |locs|);
    }

    /** 0 stands for an address without a line. The assertion fails for an address outside the code
        that has no line, unless there are no lines at all. */
    method Addr2Line(addr: nat) returns (line: int, holds: bool)
      ensures line == match DataOf(Found(addr2line.startMap, addr)) case None => 0 case Some(l) => l
      ensures !holds <==>
                && addr2line.startMap != map[] && Found(addr2line.startMap, addr).None?
                && !(startAddr <= addr < startAddr + codeSize)
    {
      if addr2line.startMap == map[] { return 0, true; }
      var data := addr2line.GetData(addr);
      match data {
        case None => return 0, startAddr <= addr && addr <= startAddr + codeSize - 1;
        case Some(l) => return l, true;
      }
    }
  }

  lemma NewLine(m: map<nat, Range<int>>, table: seq<Line>, end: int, i: nat)
    requires Sorted(table) && BciRanges(m, table, end, i) && HasRange(table, end, i)
    ensures table[i].start !in m
  {
    if table[i].start in m {
      var j: nat :| j < i && LineOf(m, table, end, table[i].start, j);
      RangeBefore(table, end, j, i);
    }
  }

  lemma LineAdded(m: map<nat, Range<int>>, m': map<nat, Range<int>>, table: seq<Line>, end: int, i: nat)
    requires Sorted(table) && BciRanges(m, table, end, i) && i < |table|
    requires m' == if HasRange(table, end, i) then m[table[i].start := LineRange(table, end, i)] else m
    requires HasRange(table, end, i) ==> table[i].start !in m
    ensures BciRanges(m', table, end, i + 1)
  {
    forall a | a in m' ensures exists j: nat :: j < i + 1 && LineOf(m', table, end, a, j) {
      if a in m {
        var j: nat :| j < i && LineOf(m, table, end, a, j);
        assert LineOf(m', table, end, a, j);
      } else {
        assert LineOf(m', table, end, a, i);
      }
    }
    forall j: nat | j < i + 1 ensures Entered(m', table, end, j) {
      assert j < i ==> Entered(m, table, end, j);
    }
  }

  /** The ranges of the first `k` entries of any table: of two that begin together the first one stays. */
  function TableRanges(table: seq<Line>, end: int, k: nat): map<nat, Range<int>>
    requires k <= |table|
  {
    if k == 0 then map[]
    else
      var m := TableRanges(table, end, k - 1);
      if HasRange(table, end, k - 1) && table[k - 1].start !in m then
        m[table[k - 1].start := LineRange(table, end, k - 1)] else m
  }

  /** Entry `i` is the first one of those before `k` that start at `a` and have a range. */
  ghost predicate FirstWithRange(table: seq<Line>, end: int, k: nat, a: nat, i: nat) {
    && i < k <= |table| && RangeFrom(table, end, i, a)
    && forall j: nat :: j < i ==> !RangeFrom(table, end, j, a)
  }

  /** Entry `i` starts at `a`, no later than the next one does less one, or, at the end of the table, than the method.
      */
  ghost predicate RangeFrom(table: seq<Line>, end: int, i: nat, a: nat) {
    i < |table| && table[i].start == a && a <= if i < |table| - 1 then table[i + 1].start - 1 else end
  }

  /** What the ranges of any table are. */
  lemma TableRangesAre(table: seq<Line>, end: int, k: nat, a: nat)
    requires k <= |table|
    ensures a in TableRanges(table, end, k) <==> exists i: nat :: i < k && RangeFrom(table, end, i, a)
    ensures forall i: nat :: FirstWithRange(table, end, k, a, i) ==>
              && a in TableRanges(table, end, k)
              && TableRanges(table, end, k)[a] ==
                   Range(a, if i < |table| - 1 then table[i + 1].start - 1 else end, table[i].line)
  {
    RangeStarts(table, end, k, a);
    forall i: nat | FirstWithRange(table, end, k, a, i)
      ensures a in TableRanges(table, end, k)
      ensures TableRanges(table, end, k)[a] ==
                Range(a, if i < |table| - 1 then table[i + 1].start - 1 else end, table[i].line) {
      FirstRange(table, end, k, a, i);
    }
  }

  lemma {:induction false} RangeStarts(table: seq<Line>, end: int, k: nat, a: nat)
    requires k <= |table|
    ensures a in TableRanges(table, end, k) <==> exists i: nat :: i < k && RangeFrom(table, end, i, a)
  {
    if k > 0 {
      RangeStarts(table, end, k - 1, a);
      assert HasRange(table, end, k - 1) && table[k - 1].start == a <==> RangeFrom(table, end, k - 1, a);
    }
  }

  lemma {:induction false} FirstRange(table: seq<Line>, end: int, k: nat, a: nat, i: nat)
    requires FirstWithRange(table, end, k, a, i)
    ensures a in TableRanges(table, end, k)
    ensures TableRanges(table, end, k)[a] ==
              Range(a, if i < |table| - 1 then table[i + 1].start - 1 else end, table[i].line)
  {
    if i < k - 1 {
      FirstRange(table, end, k - 1, a, i);
    } else {
      RangeStarts(table, end, i, a);
      assert HasRange(table, end, i);
    }
  }

  lemma {:induction false} SortedTable(table: seq<Line>, end: int, k: nat)
    requires Sorted(table) && k <= |table|
    ensures BciRanges(TableRanges(table, end, k), table, end, k)
  {
    if k > 0 {
      SortedTable(table, end, k - 1);
      var m := TableRanges(table, end, k - 1);
      if HasRange(table, end, k - 1) { NewLine(m, table, end, k - 1); }
      LineAdded(m, TableRanges(table, end, k), table, end, k - 1);
    }
  }

  lemma NoAddrs(bcis: map<nat, Range<int>>, locs: seq<Location>, codeStart: nat)
    ensures AddrRanges(map[], bcis, locs, codeStart, 0)
  {
  }

  lemma AddrAbove(locs: seq<Location>, codeStart: nat, i: nat)
    requires Increasing(locs, codeStart) && i < |locs|
    ensures AddrStart(locs, codeStart, i) < locs[i].start
  {
  }

  lemma NewAddr(m: map<nat, Range<int>>, bcis: map<nat, Range<int>>, locs: seq<Location>, codeStart: nat, i: nat)
    requires Increasing(locs, codeStart) && AddrRanges(m, bcis, locs, codeStart, i) && i < |locs|
    ensures AddrStart(locs, codeStart, i) !in m
  {
    var a := AddrStart(locs, codeStart, i);
    if a in m {
      var j: nat :| j < i && AddrOf(m, bcis, locs, codeStart, a, j);
      AddrBefore(locs, codeStart, j, i);
    }
  }

  lemma AddrBefore(locs: seq<Location>, codeStart: nat, j: nat, i: nat)
    requires Increasing(locs, codeStart) && j < i < |locs|
    ensures AddrStart(locs, codeStart, j) < AddrStart(locs, codeStart, i)
  {
  }

  lemma AddrAdded(m: map<nat, Range<int>>, m': map<nat, Range<int>>, bcis: map<nat, Range<int>>, locs: seq<Location>,
                  codeStart: nat, i: nat)
    requires Increasing(locs, codeStart) && AddrRanges(m, bcis, locs, codeStart, i) && i < |locs| &&
             Found(bcis, locs[i].bci).Some?
    requires var a := AddrStart(locs, codeStart, i);
             a !in m && m' == m[a := Range(a, locs[i].start - 1, Found(bcis, locs[i].bci).value.data)]
    ensures AddrRanges(m', bcis, locs, codeStart, i + 1)
  {
    var b := AddrStart(locs, codeStart, i);
    assert AddrOf(m', bcis, locs, codeStart, b, i);
    forall a, j: nat | AddrOf(m, bcis, locs, codeStart, a, j) ensures AddrOf(m', bcis, locs, codeStart, a, j) {
    }
    hide AddrOf;
    forall a | a in m' ensures exists j: nat :: j < i + 1 && AddrOf(m', bcis, locs, codeStart, a, j) {
      if a in m {
        var j: nat :| j < i && AddrOf(m, bcis, locs, codeStart, a, j);
      }
    }
    forall j: nat | j < i + 1 ensures AddrIn(m', bcis, locs, codeStart, j) {
      assert j < i ==> AddrIn(m, bcis, locs, codeStart, j);
    }
  }

  /** The whole way: what an address looks up after both tables were loaded. */
  lemma LoadedLookup(bcis: map<nat, Range<int>>, addrs: map<nat, Range<int>>, table: seq<Line>, end: int,
                     locs: seq<Location>, codeStart: nat, k: nat, addr: nat, i: nat)
    requires Sorted(table) && BciRanges(bcis, table, end, |table|) && Increasing(locs, codeStart)
    requires IsCovered(bcis, locs, k) && AddrRanges(addrs, bcis, locs, codeStart, k)
    requires IsFirstAfter(locs, addr, i) && codeStart <= addr
    ensures DataOf(Found(addrs, addr)) == if i < k then BciLine(table, end, locs[i].bci) else None
  {
    AddrLookup(addrs, bcis, locs, codeStart, k, addr);
    BciLookup(bcis, table, end, locs[i].bci);
    assert i < k ==> AddrAnswers(locs, codeStart, k, addr, i);
    forall j: nat | AddrAnswers(locs, codeStart, k, addr, j) ensures i == j { OneFirst(locs, addr, i, j); }
  }

  // ----- The trees of the post-processor

  ghost predicate Overlaps(m: map<nat, Range<int>>, start: nat, end: nat) {
    exists a :: a in m && m[a].start <= end && start <= m[a].end
  }

  predicate IsCeiling(m: map<nat, Range<int>>, key: nat, c: nat) {
    c in m && key <= c && forall a :: a in m && key <= a ==> c <= a
  }

  lemma {:induction false} HasCeiling(m: map<nat, Range<int>>, key: nat, a: nat)
    requires a in m && key <= a
    ensures exists c :: IsCeiling(m, key, c)
    decreases a
  {
    if b :| b in m && key <= b < a { HasCeiling(m, key, b); } else { assert IsCeiling(m, key, a); }
  }

  predicate IsMax(m: map<nat, Range<int>>, x: nat) {
    x in m && forall a :: a in m ==> a <= x
  }

  lemma {:induction false} HasMax(m: map<nat, Range<int>>, todo: set<nat>, x: nat)
    requires todo <= m.Keys && x in m && forall a :: a in m && a !in todo ==> a <= x
    ensures exists y :: IsMax(m, y)
    decreases todo
  {
    if a :| a in todo && a > x {
      HasMax(m, todo - {a}, a);
    } else {
      assert IsMax(m, x);
    }
  }

  /** What is looked for around `key` can be found. */
  lemma Neighboured(m: map<nat, Range<int>>, key: nat, a: nat)
    requires a in m
    ensures a <= key ==> exists f :: f in m && IsFloor(m, key, f)
    ensures key <= a ==> exists c :: c in m && IsCeiling(m, key, c)
    ensures exists x :: x in m && IsMax(m, x)
    ensures forall f: nat :: IsFloor(m, key, f) ==> f <= key
    ensures forall c: nat :: IsCeiling(m, key, c) ==> key <= c
  {
    if a <= key { HasFloor(m, key, a); }
    if key <= a { HasCeiling(m, key, a); }
    HasMax(m, m.Keys, a);
  }

  lemma FirstIsLeast(m: map<nat, Range<int>>, min: nat)
    requires IsCeiling(m, 0, min)
    ensures forall a :: a in m ==> min <= a
  {
  }

  lemma OverlapsAt(m: map<nat, Range<int>>, start: nat, end: nat, a: nat)
    requires Apart(m) && a in m && a <= end && (start <= a || start <= m[a].end)
    ensures Overlaps(m, start, end)
  {
    assert m[a].start == a;
  }

  lemma BeforeFirst(m: map<nat, Range<int>>, start: nat, end: nat)
    requires Apart(m) && forall a :: a in m ==> end < a
    ensures !Overlaps(m, start, end)
  {
  }

  lemma BeyondLast(m: map<nat, Range<int>>, start: nat, end: nat, max: nat)
    requires Apart(m) && IsMax(m, max) && m[max].end < start
    ensures !Overlaps(m, start, end)
  {
    forall a | a in m ensures m[a].end < start { assert a < max ==> m[a].end < max; }
  }

  /** Between its neighbours a range overlaps the right one or none. */
  lemma Neighbours(m: map<nat, Range<int>>, start: nat, end: nat, left: nat, right: nat)
    requires Apart(m) && start <= end && IsFloor(m, start, left) && m[left].end < start && IsCeiling(m, start, right)
    ensures Overlaps(m, start, end) <==> right <= end
  {
    if right <= end { OverlapsAt(m, start, end, right); }
    forall a | a in m ensures m[a].end < start || right <= m[a].start {
      assert a < left ==> m[a].end < left;
    }
  }

  class LineTree {
    var tree: map<nat, Range<int>>

    constructor ()
      ensures tree == map[]
    {
      tree := map[];
    }

    /** The check looks at the first and the last range and at the neighbours of `start` only. */
    method IsOverlap(start: nat, end: nat) returns (r: bool)
      requires Apart(tree) && start <= end
      ensures r == Overlaps(tree, start, end)
    {
      hide Apart, Overlaps, IsFloor, IsCeiling, IsMax;
      if tree == map[] { BeforeFirst(tree, start, end); return false; }
      var some :| some in tree;
      Neighboured(tree, 0, some);
      var min :| min in tree && IsCeiling(tree, 0, min);
      FirstIsLeast(tree, min);
      if end < min { BeforeFirst(tree, start, end); return false; }
      if start <= min { OverlapsAt(tree, start, end, min); return true; }
      Neighboured(tree, start, min);
      var left :| left in tree && IsFloor(tree, start, left);
      if tree[left].end >= start { OverlapsAt(tree, start, end, left); return true; }
      Neighboured(tree, start, some);
      var max :| max in tree && IsMax(tree, max);
      if start > tree[max].end { BeyondLast(tree, start, end, max); return false; }
      if end >= max { OverlapsAt(tree, start, end, max); return true; }
      Neighboured(tree, start, max);
      var right :| right in tree && IsCeiling(tree, start, right);
      Neighbours(tree, start, end, left, right);
      return end >= right;
    }

    /** A range that overlaps an earlier one fails the assertion. */
    method AddRangeToTree(start: nat, end: nat, data: int) returns (accepted: bool)
      requires Apart(tree) && start <= end
      modifies this
      ensures accepted <==> !Overlaps(old(tree), start, end)
      ensures tree == if accepted then old(tree)[start := Range(start, end, data)] else old(tree)
      ensures Apart(tree)
    {
      var overlap := IsOverlap(start, end);
      if overlap { return false; }
      tree := tree[start := Range(start, end, data)];
      return true;
    }

    method QueryTree(key: nat) returns (r: Option<Range<int>>)
      ensures r == Found(tree, key)
    {
      hide IsFloor, IsCeiling, Found;
      if tree == map[] { NoFloor(tree, key); return None; }
      var some :| some in tree;
      Neighboured(tree, 0, some);
      var min :| min in tree && IsCeiling(tree, 0, min);
      FirstIsLeast(tree, min);
      if key < min { NoFloor(tree, key); return None; }
      Neighboured(tree, key, min);
      var left :| left in tree && IsFloor(tree, key, left);
      FloorFinds(tree, key, left);
      if tree[left].end >= key { return Some(tree[left]); } else { return None; }
    }

    /** Every printed range is accepted, in any order, and the tree answers as the profiler's range set does. */
    method LoadRanges(ranges: seq<Range<int>>, ghost m: map<nat, Range<int>>)
      requires tree == map[] && Apart(m) && Prints(ranges, m)
      modifies this
      ensures tree == m
    {
      for i := 0 to |ranges|
        invariant Apart(tree) && LoadedTo(tree, ranges, m, i)
      {
        NextRange(tree, ranges, m, i);
        var accepted := AddRangeToTree(ranges[i].start, ranges[i].end, ranges[i].data);
        assert accepted;
      }
      AllLoaded(tree, ranges, m);
    }
  }

  /** The ranges of `m`, each once. */
  ghost predicate Prints(ranges: seq<Range<int>>, m: map<nat, Range<int>>) {
    && (forall i, j :: 0 <= i < j < |ranges| ==> ranges[i].start != ranges[j].start)
    && (forall r :: r in ranges <==> r.start in m && m[r.start] == r)
  }

  ghost predicate LoadedTo(tree: map<nat, Range<int>>, ranges: seq<Range<int>>, m: map<nat, Range<int>>, i: nat) {
    && i <= |ranges|
    && (forall a {:trigger tree[a]} :: a in tree ==> a in m && tree[a] == m[a])
    && (forall a :: a in tree ==> exists j :: 0 <= j < i && ranges[j].start == a)
    && (forall j :: 0 <= j < i ==> ranges[j].start in tree)
  }

  lemma NextRange(tree: map<nat, Range<int>>, ranges: seq<Range<int>>, m: map<nat, Range<int>>, i: nat)
    requires Apart(m) && Prints(ranges, m) && LoadedTo(tree, ranges, m, i) && i < |ranges|
    ensures ranges[i].start <= ranges[i].end && !Overlaps(tree, ranges[i].start, ranges[i].end)
    ensures LoadedTo(tree[ranges[i].start := ranges[i]], ranges, m, i + 1)
  {
    var r := ranges[i];
    assert r in ranges;
    assert r.start !in tree;
    forall a | a in tree ensures tree[a].end < r.start || r.end < tree[a].start {
      assert a in m && tree[a] == m[a] && a != r.start;
    }
  }

  lemma AllLoaded(tree: map<nat, Range<int>>, ranges: seq<Range<int>>, m: map<nat, Range<int>>)
    requires Apart(m) && Prints(ranges, m) && LoadedTo(tree, ranges, m, |ranges|)
    ensures tree == m
  {
    forall a | a in m ensures a in tree {
      assert m[a] in ranges;
    }
  }
}
