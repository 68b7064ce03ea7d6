/** The index of compiled code by address and by method (src/profiler/code_cache.cpp). */
module CodeCaches {

  import opened Options
  import opened RangeSets

  /** One compiled method: `size` bytes of code at `start`. */
  datatype Compiled = Compiled(id: nat, version: nat, start: nat, size: nat)

  function End(m: Compiled): int {
    m.start + m.size - 1
  }

  datatype Group = Group(recentVersion: nat, byAddress: map<nat, Compiled>)

  const VERSION_LIMIT := 0x1_0000_0000

  /** `pending` are the methods whose load callback has released the lock in the middle of an add. */
  datatype State = State(
    ranges: map<nat, Range<Compiled>>, groups: map<nat, Group>, uncompiled: set<nat>, pending: set<Compiled>)

  // ----- The critical sections. Each holds the lock from start to end.

  function GroupOf(groups: map<nat, Group>, id: nat): Group {
    if id in groups then groups[id] else Group(0, map[])
  }

  /** An add up to the release of the lock: the method gets the next version of its id, which wraps at 32 bits. */
  function Begun(s: State, id: nat, start: nat, size: nat): State {
    var g := GroupOf(s.groups, id);
    var version := (g.recentVersion + 1) % VERSION_LIMIT;
    s.(uncompiled := s.uncompiled - {id}, groups := s.groups[id := g.(recentVersion := version)],
       pending := s.pending + {Compiled(id, version, start, size)})
  }

  /** The rest of the add: an earlier method at the same address is replaced in the group, but not among the ranges. */
  function Ended(s: State, m: Compiled): State
    requires m.size > 0
  {
    var g := GroupOf(s.groups, m.id);
    s.(groups := s.groups[m.id := g.(byAddress := g.byAddress[m.start := m])],
       ranges := if m.start in s.ranges then s.ranges else s.ranges[m.start := Range(m.start, End(m), m)],
       pending := s.pending - {m})
  }

  function Removed(s: State, m: Compiled): State
    requires m.id in s.groups
  {
    var g := s.groups[m.id];
    s.(groups := s.groups[m.id := g.(byAddress := g.byAddress - {m.start})], ranges := s.ranges - {m.start})
  }

  function Moved(s: State, id: nat): State {
    if id in s.groups then s else s.(uncompiled := s.uncompiled + {id})
  }

  // ----- The invariant

  ghost predicate Live(groups: map<nat, Group>, m: Compiled) {
    m.id in groups && m.start in groups[m.id].byAddress && groups[m.id].byAddress[m.start] == m
  }

  /** Live, or about to be. */
  ghost predicate Known(groups: map<nat, Group>, pending: set<Compiled>, m: Compiled) {
    Live(groups, m) || m in pending
  }

  ghost predicate Overlap(m: Compiled, n: Compiled) {
    m.start <= End(n) && n.start <= End(m)
  }

  ghost predicate GroupsOk(groups: map<nat, Group>) {
    forall id :: id in groups ==>
      && groups[id].recentVersion < VERSION_LIMIT
      && forall a :: a in groups[id].byAddress ==>
         groups[id].byAddress[a].id == id && groups[id].byAddress[a].start == a
  }

  ghost predicate Sized(groups: map<nat, Group>, m: Compiled) {
    m.id in groups && 1 <= m.version <= groups[m.id].recentVersion && m.size > 0
  }

  ghost predicate Clash(m: Compiled, n: Compiled) {
    Overlap(m, n) || (m.id == n.id && m.version == n.version)
  }

  /** Versions within a method id are distinct, and code does not overlap. */
  ghost predicate Distinct(groups: map<nat, Group>, pending: set<Compiled>) {
    forall m, n :: Known(groups, pending, m) && Known(groups, pending, n) && Clash(m, n) ==> m == n
  }

  ghost predicate RangeIs(ranges: map<nat, Range<Compiled>>, groups: map<nat, Group>, a: nat) {
    a in ranges && ranges[a].start == a == ranges[a].data.start && ranges[a].end == End(ranges[a].data) &&
      Live(groups, ranges[a].data)
  }

  /** The range index holds the same methods as the groups. */
  ghost predicate Agree(ranges: map<nat, Range<Compiled>>, groups: map<nat, Group>) {
    && (forall a :: a in ranges ==> RangeIs(ranges, groups, a))
    && (forall m :: Live(groups, m) ==> m.start in ranges)
  }

  ghost predicate Inv(s: State) {
    && GroupsOk(s.groups) && (forall m :: Known(s.groups, s.pending, m) ==> Sized(s.groups, m)) &&
       Distinct(s.groups, s.pending) && Agree(s.ranges, s.groups)
    && (forall m :: m in s.pending ==> !Live(s.groups, m))
    && s.uncompiled !! s.groups.Keys
  }

  // ----- Events

  datatype Event = Begin(id: nat, start: nat, size: nat) | Finish(m: Compiled) | Unload(m: Compiled) | Move(id: nat)

  /** New code does not overlap code that is live or about to be, an unload names live code, and a
      method is compiled fewer times than versions can count. */
  ghost predicate Allowed(s: State, e: Event) {
    match e
    case Begin(id, start, size) =>
      && size > 0 && GroupOf(s.groups, id).recentVersion + 1 < VERSION_LIMIT
      && forall m :: Known(s.groups, s.pending, m) ==> !Overlap(m, Compiled(id, 0, start, size))
    case Finish(m) => m in s.pending && m.size > 0
    case Unload(m) => Live(s.groups, m)
    case Move(_) => true
  }

  ghost function After(s: State, e: Event): State
    requires Allowed(s, e)
  {
    match e
    case Begin(id, start, size) => Begun(s, id, start, size)
    case Finish(m) => Ended(s, m)
    case Unload(m) => Removed(s, m)
    case Move(id) => Moved(s, id)
  }

  lemma BeginLive(s: State, id: nat, start: nat, size: nat, m: Compiled)
    ensures Live(Begun(s, id, start, size).groups, m) <==> Live(s.groups, m)
  {
  }

  lemma EndLive(s: State, n: Compiled, m: Compiled)
    requires Inv(s) && n in s.pending && n.size > 0
    ensures Live(Ended(s, n).groups, m) <==> Live(s.groups, m) || m == n
  {
    assert Known(s.groups, s.pending, n) && Sized(s.groups, n);
    if Live(s.groups, m) && m.start == n.start && m != n {
      assert Known(s.groups, s.pending, m) && Sized(s.groups, m) && Clash(m, n);
    }
  }

  lemma UnloadLive(s: State, n: Compiled, m: Compiled)
    requires Live(s.groups, n)
    ensures Live(Removed(s, n).groups, m) <==> Live(s.groups, m) && m != n
  {
  }

  /** Changes that keep the live methods up to one and drop nothing else. */
  lemma DistinctKept(s: State, s': State)
    requires Distinct(s.groups, s.pending)
    requires forall m :: Known(s'.groups, s'.pending, m) ==> Known(s.groups, s.pending, m)
    ensures Distinct(s'.groups, s'.pending)
  {
    hide Known, Clash;
  }

  lemma KnownSized(s: State, m: Compiled)
    requires Inv(s) && Known(s.groups, s.pending, m)
    ensures Sized(s.groups, m)
  {
    hide Known, GroupsOk, Distinct, Agree;
  }

  lemma BeginApart(s: State, id: nat, start: nat, size: nat, m: Compiled)
    requires Inv(s) && Allowed(s, Begin(id, start, size)) && Known(s.groups, s.pending, m)
    ensures Sized(Begun(s, id, start, size).groups, m)
    ensures !Clash(m, Compiled(id, GroupOf(s.groups, id).recentVersion + 1, start, size))
  {
    hide Inv, Known;
    KnownSized(s, m);
    assert !Overlap(m, Compiled(id, 0, start, size));
  }

  lemma BeginKeeps(s: State, id: nat, start: nat, size: nat)
    requires Inv(s) && Allowed(s, Begin(id, start, size))
    ensures Inv(Begun(s, id, start, size))
  {
    var s' := Begun(s, id, start, size);
    var n := Compiled(id, GroupOf(s.groups, id).recentVersion + 1, start, size);
    BeginParts(s, id, start, size);
    hide Allowed, Begun, Live, GroupsOk, Clash, Sized, Distinct, GroupOf;
    forall m ensures Live(s'.groups, m) <==> Live(s.groups, m) { BeginLive(s, id, start, size, m); }
    forall m | Known(s.groups, s.pending, m) ensures Sized(s'.groups, m) && !Clash(m, n) {
      BeginApart(s, id, start, size, m);
    }
    ClashSelf(n, size);
    assert !Known(s.groups, s.pending, n);
    assert forall m :: Known(s'.groups, s'.pending, m) <==> Known(s.groups, s.pending, m) || m == n;
    DistinctAdd(s, s', n);
    hide Known;
    AgreeSame(s.ranges, s.groups, s'.groups);
  }

  lemma AgreeSame(ranges: map<nat, Range<Compiled>>, groups: map<nat, Group>, groups': map<nat, Group>)
    requires Agree(ranges, groups) && forall m :: Live(groups', m) <==> Live(groups, m)
    ensures Agree(ranges, groups')
  {
    hide Live;
    forall a | a in ranges ensures RangeIs(ranges, groups', a) { assert RangeIs(ranges, groups, a); }
  }

  lemma BeginParts(s: State, id: nat, start: nat, size: nat)
    requires Inv(s) && Allowed(s, Begin(id, start, size))
    ensures var s' := Begun(s, id, start, size);
            var n := Compiled(id, GroupOf(s.groups, id).recentVersion + 1, start, size);
            && GroupsOk(s'.groups) && s'.uncompiled !! s'.groups.Keys && Sized(s'.groups, n)
            && s'.pending == s.pending + {n} && s'.ranges == s.ranges
  {
    hide Distinct, Agree, Known, Live;
  }

  lemma DistinctAdd(s: State, s': State, n: Compiled)
    requires Distinct(s.groups, s.pending)
    requires forall m :: Known(s'.groups, s'.pending, m) <==> Known(s.groups, s.pending, m) || m == n
    requires forall m :: Known(s.groups, s.pending, m) ==> !Clash(m, n)
    ensures Distinct(s'.groups, s'.pending)
  {
    assert forall m :: Clash(m, n) <==> Clash(n, m);
    hide Known, Clash;
  }

  lemma BeginNew(s: State, id: nat, start: nat, size: nat)
    requires Inv(s) && Allowed(s, Begin(id, start, size))
    ensures GroupOf(s.groups, id).recentVersion + 1 < VERSION_LIMIT
    ensures Compiled(id, GroupOf(s.groups, id).recentVersion + 1, start, size) !in s.pending
  {
    var n := Compiled(id, GroupOf(s.groups, id).recentVersion + 1, start, size);
    if Known(s.groups, s.pending, n) {
      BeginApart(s, id, start, size, n);
      ClashSelf(n, size);
    }
  }

  lemma ClashSelf(n: Compiled, size: nat)
    ensures Clash(n, n)
  {
  }

  lemma EndParts(s: State, n: Compiled)
    requires Inv(s) && n in s.pending && n.size > 0
    ensures GroupsOk(Ended(s, n).groups) && n.start !in s.ranges
  {
    assert Known(s.groups, s.pending, n) && Sized(s.groups, n);
    forall a | a in s.ranges ensures a != n.start {
      assert RangeIs(s.ranges, s.groups, a);
      RangeSized(s, s.ranges[a].data, n);
    }
    GroupsAdd(s.groups, n);
  }

  lemma RangeSized(s: State, m: Compiled, n: Compiled)
    requires Inv(s) && Live(s.groups, m) && n in s.pending
    ensures m.start != n.start
  {
    assert Known(s.groups, s.pending, m) && Known(s.groups, s.pending, n);
    assert Sized(s.groups, m) && Sized(s.groups, n);
    hide Sized;
    assert m.start == n.start ==> Clash(m, n) by { SameStart(s.groups, m, n); }
  }

  lemma SameStart(groups: map<nat, Group>, m: Compiled, n: Compiled)
    requires Sized(groups, m) && Sized(groups, n)
    ensures m.start == n.start ==> Clash(m, n)
  {
  }

  lemma GroupsAdd(groups: map<nat, Group>, n: Compiled)
    requires GroupsOk(groups) && n.id in groups
    ensures GroupsOk(groups[n.id := groups[n.id].(byAddress := groups[n.id].byAddress[n.start := n])])
  {
  }

  lemma EndKeeps(s: State, n: Compiled)
    requires Inv(s) && n in s.pending && n.size > 0
    ensures Inv(Ended(s, n)) && n.id in s.groups
  {
    var s' := Ended(s, n);
    forall m ensures Live(s'.groups, m) <==> Live(s.groups, m) || m == n { EndLive(s, n, m); }
    assert Known(s.groups, s.pending, n) && Sized(s.groups, n);
    EndParts(s, n);
    assert s'.groups.Keys == s.groups.Keys && s'.uncompiled == s.uncompiled;
    assert s'.pending == s.pending - {n};
    assert forall m :: Sized(s.groups, m) ==> Sized(s'.groups, m);
    assert s'.ranges == s.ranges[n.start := Range(n.start, End(n), n)];
    hide Live, GroupsOk, Ended, Sized, Clash;
    assert forall m :: Known(s'.groups, s'.pending, m) ==> Known(s.groups, s.pending, m);
    DistinctKept(s, s');
    forall a | a in s'.ranges
      ensures RangeIs(s'.ranges, s'.groups, a) { assert a in s.ranges ==> RangeIs(s.ranges, s.groups, a); }
  }

  lemma SameLive(s: State, m: Compiled, n: Compiled)
    requires Inv(s) && Live(s.groups, m) && Live(s.groups, n) && m.start == n.start
    ensures m == n
  {
    assert Known(s.groups, s.pending, m) && Known(s.groups, s.pending, n);
    SameStart(s.groups, m, n);
  }

  lemma GroupsRemove(groups: map<nat, Group>, n: Compiled)
    requires GroupsOk(groups) && n.id in groups
    ensures var groups' := groups[n.id := groups[n.id].(byAddress := groups[n.id].byAddress - {n.start})];
            GroupsOk(groups') && groups'.Keys == groups.Keys && forall m :: Sized(groups, m) ==> Sized(groups', m)
  {
  }

  lemma UnloadKeeps(s: State, n: Compiled)
    requires Inv(s) && Live(s.groups, n)
    ensures Inv(Removed(s, n))
  {
    var s' := Removed(s, n);
    GroupsRemove(s.groups, n);
    assert s'.uncompiled == s.uncompiled && s'.pending == s.pending && s'.ranges == s.ranges - {n.start};
    hide GroupsOk, Sized, Clash, Overlap;
    forall m ensures Live(s'.groups, m) <==> Live(s.groups, m) && m != n { UnloadLive(s, n, m); }
    hide Live, Removed;
    forall m | Live(s.groups, m) && m.start == n.start ensures m == n { SameLive(s, m, n); }
    assert s'.uncompiled !! s'.groups.Keys;
    assert forall m :: Known(s'.groups, s'.pending, m) ==> Known(s.groups, s.pending, m);
    DistinctKept(s, s');
    RangesWithout(s, s', n);
    hide Agree, Distinct;
  }

  lemma RangesWithout(s: State, s': State, n: Compiled)
    requires Agree(s.ranges, s.groups) && s'.ranges == s.ranges - {n.start}
    requires forall m :: Live(s'.groups, m) <==> Live(s.groups, m) && m != n
    requires forall m :: Live(s.groups, m) && m.start == n.start ==> m == n
    ensures Agree(s'.ranges, s'.groups)
  {
    hide Live;
    forall a | a in s'.ranges ensures RangeIs(s'.ranges, s'.groups, a) { assert RangeIs(s.ranges, s.groups, a); }
  }

  lemma MoveKeeps(s: State, id: nat)
    requires Inv(s)
    ensures Inv(Moved(s, id))
  {
    var s' := Moved(s, id);
    assert s'.uncompiled !! s'.groups.Keys;
    hide Distinct, Agree, GroupsOk, Known;
  }

  const EMPTY := State(map[], map[], {}, {})

  /** The state after a run of interleaved critical sections, if all of them are allowed. */
  ghost function Run(run: seq<Event>): Option<State> {
    if run == [] then Some(EMPTY)
    else
      match Run(run[..|run| - 1])
      case None => None
      case Some(s) => if Allowed(s, run[|run| - 1]) then Some(After(s, run[|run| - 1])) else None
  }

  lemma {:induction false} RunKeeps(run: seq<Event>)
    requires Run(run).Some?
    ensures Inv(Run(run).value)
  {
    if run != [] {
      RunKeeps(run[..|run| - 1]);
      var s := Run(run[..|run| - 1]).value;
      match run[|run| - 1] {
        case Begin(id, start, size) => BeginKeeps(s, id, start, size);
        case Finish(m) => EndKeeps(s, m);
        case Unload(m) => UnloadKeeps(s, m);
        case Move(id) => MoveKeeps(s, id);
      }
    }
  }

  // ----- What queries answer while the lock is free

  ghost predicate Covers(m: Compiled, addr: nat) {
    m.start <= addr <= End(m)
  }

  ghost predicate IsScan(groups: map<nat, Group>, addr: nat, r: Option<Compiled>) {
    forall m :: r == Some(m) <==> Live(groups, m) && Covers(m, addr)
  }

  lemma RangesApart(s: State)
    requires Inv(s)
    ensures Apart(s.ranges)
  {
    forall a | a in s.ranges
      ensures s.ranges[a].start == a <= s.ranges[a].end && Live(s.groups, s.ranges[a].data) && s.ranges[a].data.size > 0
    {
      var m := s.ranges[a].data;
      assert RangeIs(s.ranges, s.groups, a);
      assert Known(s.groups, s.pending, m) && Sized(s.groups, m);
    }
    forall a, b | a in s.ranges && b in s.ranges && a < b ensures s.ranges[a].end < b {
      var m, n := s.ranges[a].data, s.ranges[b].data;
      assert RangeIs(s.ranges, s.groups, a) && RangeIs(s.ranges, s.groups, b);
      assert Known(s.groups, s.pending, m) && Known(s.groups, s.pending, n) && (Overlap(m, n) ==> Clash(m, n));
    }
  }

  /** Looking an address up in the range index gives the live method whose code covers it, and nothing if there is
      none. */
  lemma LookupIsScan(s: State, addr: nat)
    requires Inv(s)
    ensures IsScan(s.groups, addr, DataOf(Found(s.ranges, addr)))
  {
    var r := DataOf(Found(s.ranges, addr));
    RangesApart(s);
    forall m ensures r == Some(m) <==> Live(s.groups, m) && Covers(m, addr) {
      if r == Some(m) {
        var range := Found(s.ranges, addr).value;
        FoundContains(s.ranges, addr, range);
        assert RangeIs(s.ranges, s.groups, range.start);
      }
      if Live(s.groups, m) && Covers(m, addr) {
        assert RangeIs(s.ranges, s.groups, m.start);
        LiveRange(s, m);
        FoundContains(s.ranges, addr, s.ranges[m.start]);
      }
    }
  }

  lemma LiveRange(s: State, m: Compiled)
    requires Inv(s) && Live(s.groups, m)
    ensures m.size > 0
    ensures m.start in s.ranges && s.ranges[m.start] == Range(m.start, m.start + m.size - 1, m)
  {
    var n := s.ranges[m.start].data;
    assert RangeIs(s.ranges, s.groups, m.start);
    assert Known(s.groups, s.pending, m) && Known(s.groups, s.pending, n) && Sized(s.groups, m) && Sized(s.groups, n);
    SameStart(s.groups, m, n);
  }

  /** After every run of interleaved events: index and groups hold the same methods, address lookup is
      a scan of the live methods, versions of one id differ, and no id is compiled and uncompiled. */
  lemma RunAnswers(run: seq<Event>, addr: nat, m: Compiled, n: Compiled)
    requires Run(run).Some?
    ensures var s := Run(run).value;
            && (Live(s.groups, m) <==> m.start in s.ranges && s.ranges[m.start].data == m)
            && IsScan(s.groups, addr, DataOf(Found(s.ranges, addr)))
            && (Live(s.groups, m) && Live(s.groups, n) && m.id == n.id && m.version == n.version ==> m == n)
            && s.uncompiled !! s.groups.Keys
  {
    RunKeeps(run);
    var s := Run(run).value;
    LookupIsScan(s, addr);
    if Live(s.groups, m) { LiveRange(s, m); }
    if m.start in s.ranges { assert RangeIs(s.ranges, s.groups, m.start); }
    assert Live(s.groups, m) ==> Known(s.groups, s.pending, m);
    assert Live(s.groups, n) ==> Known(s.groups, s.pending, n);
    assert m.id == n.id && m.version == n.version ==> Clash(m, n);
  }

  /** Without the unload: code loaded again at the address of live code is filed in its group, but
      the address still looks up the old method. */
  lemma ReloadWithoutUnload(s: State, m: Compiled, n: Compiled)
    requires Inv(s) && Live(s.groups, m) && n.size > 0 && n.start == m.start && n != m
    ensures Live(Ended(s, n).groups, n) && DataOf(Found(Ended(s, n).ranges, n.start)) == Some(m)
  {
    LiveRange(s, m);
    RangesApart(s);
    assert Known(s.groups, s.pending, m) && Sized(s.groups, m);
    FoundContains(s.ranges, n.start, s.ranges[m.start]);
  }

  /** An add from its first critical section to the end of its second, with nothing in between. */
  function Loaded(s: State, id: nat, start: nat, size: nat): State
    requires size > 0
  {
    Ended(Begun(s, id, start, size), NewMethod(s, id, start, size))
  }

  function NewMethod(s: State, id: nat, start: nat, size: nat): Compiled {
    Compiled(id, (GroupOf(s.groups, id).recentVersion + 1) % VERSION_LIMIT, start, size)
  }

  /** Lookup answers as the scan of the live methods at every address. */
  ghost predicate AnswersRight(s: State) {
    forall addr: nat :: IsScan(s.groups, addr, DataOf(Found(s.ranges, addr)))
  }

  ghost predicate FreeOfLive(s: State, n: Compiled) {
    forall m :: Live(s.groups, m) ==> !Overlap(m, n)
  }

  lemma NewIsNew(s: State, id: nat, start: nat, size: nat, m: Compiled)
    requires Inv(s) && Live(s.groups, m) && GroupOf(s.groups, id).recentVersion + 1 < VERSION_LIMIT
    ensures m.size > 0 && m != NewMethod(s, id, start, size)
  {
    hide GroupsOk, Distinct, Agree;
    assert Known(s.groups, s.pending, m) && Sized(s.groups, m);
  }

  lemma LoadedLive(s: State, id: nat, start: nat, size: nat, m: Compiled)
    requires Inv(s) && size > 0 && Live(s.groups, m)
    ensures var n := NewMethod(s, id, start, size);
            Live(Loaded(s, id, start, size).groups, n) &&
              (m.start != start || m.id != id ==> Live(Loaded(s, id, start, size).groups, m))
  {
    hide Inv;
  }

  /** Code that overlaps live code makes lookup wrong at the greater of the two starts. */
  lemma OverlapMisleads(s: State, id: nat, start: nat, size: nat, m: Compiled)
    requires Inv(s) && size > 0 && GroupOf(s.groups, id).recentVersion + 1 < VERSION_LIMIT
    requires Live(s.groups, m) && Overlap(m, NewMethod(s, id, start, size))
    ensures var e, addr := Loaded(s, id, start, size), if m.start < start then start else m.start;
            !IsScan(e.groups, addr, DataOf(Found(e.ranges, addr)))
  {
    var n, e := NewMethod(s, id, start, size), Loaded(s, id, start, size);
    var addr := if m.start < start then start else m.start;
    NewIsNew(s, id, start, size, m);
    LoadedLive(s, id, start, size, m);
    assert Covers(m, addr) && Covers(n, addr);
    if m.start == start && m.id == id {
      assert !Live(e.groups, m);
      LiveRange(s, m);
      RangesApart(s);
      FoundContains(s.ranges, addr, s.ranges[m.start]);
      assert e.ranges == s.ranges;
    }
  }

  /** Methods that are about to be added do not count for the answers. */
  lemma WithoutPending(s: State)
    requires Inv(s)
    ensures Inv(s.(pending := {}))
  {
    assert forall m :: Known(s.groups, {}, m) ==> Known(s.groups, s.pending, m);
  }

  lemma LoadedWithoutPending(s: State, id: nat, start: nat, size: nat)
    requires size > 0
    ensures var t, n, e := s.(pending := {}), NewMethod(s, id, start, size), Loaded(s, id, start, size);
            && n in Begun(t, id, start, size).pending &&
               Ended(Begun(t, id, start, size), n) == Loaded(t, id, start, size)
            && e.groups == Loaded(t, id, start, size).groups && e.ranges == Loaded(t, id, start, size).ranges
  {
  }

  lemma FreeAnswersRight(s: State, id: nat, start: nat, size: nat)
    requires Inv(s) && size > 0 && GroupOf(s.groups, id).recentVersion + 1 < VERSION_LIMIT &&
             FreeOfLive(s, NewMethod(s, id, start, size))
    ensures AnswersRight(Loaded(s, id, start, size))
  {
    var t, n, e := s.(pending := {}), NewMethod(s, id, start, size), Loaded(s, id, start, size);
    assert GroupOf(t.groups, id).recentVersion + 1 < VERSION_LIMIT && n.size > 0;
    hide Inv, Allowed, Loaded, Begun, Ended, NewMethod, IsScan, FreeOfLive, GroupOf;
    WithoutPending(s);
    FreeIsAllowed(s, id, start, size);
    BeginKeeps(t, id, start, size);
    LoadedWithoutPending(s, id, start, size);
    var e' := Loaded(t, id, start, size);
    EndKeeps(Begun(t, id, start, size), n);
    forall addr: nat ensures IsScan(e.groups, addr, DataOf(Found(e.ranges, addr))) { LookupIsScan(e', addr); }
  }

  /** After an add, lookup answers right at every address if and only if the new code overlaps no live code. */
  lemma AnswersRightIff(s: State, id: nat, start: nat, size: nat)
    requires Inv(s) && size > 0 && GroupOf(s.groups, id).recentVersion + 1 < VERSION_LIMIT
    ensures AnswersRight(Loaded(s, id, start, size)) <==> FreeOfLive(s, NewMethod(s, id, start, size))
  {
    var n, e := NewMethod(s, id, start, size), Loaded(s, id, start, size);
    if FreeOfLive(s, n) {
      FreeAnswersRight(s, id, start, size);
    } else {
      var m :| Live(s.groups, m) && Overlap(m, n);
      hide Inv, Loaded, NewMethod, IsScan;
      OverlapMisleads(s, id, start, size, m);
    }
  }

  lemma FreeIsAllowed(s: State, id: nat, start: nat, size: nat)
    requires size > 0 && GroupOf(s.groups, id).recentVersion + 1 < VERSION_LIMIT &&
             FreeOfLive(s, NewMethod(s, id, start, size))
    ensures Allowed(s.(pending := {}), Begin(id, start, size))
  {
    var n := NewMethod(s, id, start, size);
    forall m | Known(s.groups, {}, m) ensures !Overlap(m, Compiled(id, 0, start, size)) {
      assert Overlap(m, Compiled(id, 0, start, size)) == Overlap(m, n);
    }
  }

  ghost predicate BeginsRange(ranges: map<nat, Range<Compiled>>, a: nat) {
    Found(ranges, a).Some? && Found(ranges, a).value.start == a
  }

  /** An unload of whatever begins at `a`. */
  ghost function Dropped(s: State, id: nat, a: nat): State {
    if id !in s.groups then s
    else
      var g := s.groups[id];
      s.(groups := s.groups[id := g.(byAddress := g.byAddress - {a})],
         ranges := if BeginsRange(s.ranges, a) then s.ranges - {a} else s.ranges)
  }

  /** Unloading live code removes it from its group and from the ranges. */
  lemma DroppedLive(s: State, id: nat, a: nat)
    requires Inv(s) && id in s.groups && a in s.groups[id].byAddress
    ensures BeginsRange(s.ranges, a) && Dropped(s, id, a) == Removed(s, s.groups[id].byAddress[a]) &&
            Inv(Dropped(s, id, a))
  {
    var m := s.groups[id].byAddress[a];
    assert m.id == id && m.start == a && Live(s.groups, m);
    UnloadKeeps(s, m);
    LiveRange(s, m);
    RangesApart(s);
    FoundContains(s.ranges, a, s.ranges[a]);
  }

  ghost predicate OthersKept(groups: map<nat, Group>, groups': map<nat, Group>, id: nat) {
    forall k :: k in groups && k != id ==> k in groups' && groups'[k] == groups[k]
  }

  // ----- The manager

  class CodeCacheManager {
    const methodRangeSet: RangeSet<Compiled>
    var methodIdMap: map<nat, Group>
    var uncompiled: set<nat>
    ghost var pending: set<Compiled>

    ghost function View(): State
      reads this, methodRangeSet
    {
      State(methodRangeSet.startMap, methodIdMap, uncompiled, pending)
    }

    constructor ()
      ensures View() == EMPTY && fresh(methodRangeSet)
    {
      methodRangeSet := new RangeSet();
      methodIdMap, uncompiled, pending := map[], {}, {};
    }

    /** The first critical section of an add. */
    method BeginAdd(id: nat, start: nat, size: nat) returns (m: Compiled)
      modifies this
      ensures View() == Begun(old(View()), id, start, size) && m == NewMethod(old(View()), id, start, size) &&
              m in pending
      ensures m.id == id && m.start == start && m.size == size
      ensures m.version == (if id in old(methodIdMap) then old(methodIdMap)[id].recentVersion + 1
              else 1) % 0x1_0000_0000
      ensures methodIdMap.Keys == old(methodIdMap).Keys + {id} && methodIdMap[id].recentVersion == m.version
      ensures methodIdMap[id].byAddress == if id in old(methodIdMap) then old(methodIdMap)[id].byAddress else map[]
      ensures OthersKept(old(methodIdMap), methodIdMap, id) && uncompiled == old(uncompiled) - {id}
      ensures pending == old(pending) + {m} && methodRangeSet.startMap == old(methodRangeSet.startMap)
      ensures Inv(old(View())) && Allowed(old(View()), Begin(id, start, size)) ==> Inv(View()) && m !in old(pending)
    {
      ghost var v := View();
      hide Inv, Allowed;
      if Inv(v) && Allowed(v, Begin(id, start, size)) {
        BeginKeeps(v, id, start, size);
        BeginNew(v, id, start, size);
      }
      ghost var w := Begun(v, id, start, size);
      uncompiled := uncompiled - {id};
      if id !in methodIdMap {
        methodIdMap := methodIdMap[id := Group(0, map[])];
      }
      var group := methodIdMap[id];
      assert group == GroupOf(v.groups, id);
      var version := (group.recentVersion + 1) % VERSION_LIMIT;
      methodIdMap := methodIdMap[id := group.(recentVersion := version)];
      assert methodIdMap == w.groups;
      m := Compiled(id, version, start, size);
      pending := pending + {m};
      assert View() == w;
    }

    /** The second critical section of an add, after the lock was taken again. */
    method FinishAdd(m: Compiled)
      requires m.id in methodIdMap && m.size > 0
      modifies this, methodRangeSet
      ensures View() == Ended(old(View()), m)
      ensures methodIdMap.Keys == old(methodIdMap).Keys && OthersKept(old(methodIdMap), methodIdMap, m.id)
      ensures methodIdMap[m.id].recentVersion == old(methodIdMap)[m.id].recentVersion
      ensures methodIdMap[m.id].byAddress == old(methodIdMap)[m.id].byAddress[m.start := m]
      ensures var was := old(methodRangeSet.startMap);
              methodRangeSet.startMap ==
                if m.start in was then was else was[m.start := Range(m.start, m.start + m.size - 1, m)]
      ensures uncompiled == old(uncompiled) && pending == old(pending) - {m}
      ensures Inv(old(View())) && m in old(pending) ==> Inv(View())
    {
      ghost var v := View();
      if Inv(v) && m in pending { EndKeeps(v, m); }
      ghost var w := Ended(v, m);
      hide Inv;
      var group := methodIdMap[m.id];
      methodIdMap := methodIdMap[m.id := group.(byAddress := group.byAddress[m.start := m])];
      var ok := methodRangeSet.Insert(m.start, m.start + m.size - 1, m);
      assert ok;
      pending := pending - {m};
      assert View() == w;
    }

    /** An unload. The assertion holds if the id was never compiled or a range begins at the address; of a method
        that is not live nothing is removed from its group. */
    method RemoveMethod(id: nat, codeAddr: nat) returns (holds: bool)
      modifies this, methodRangeSet
      ensures View() == Dropped(old(View()), id, codeAddr)
      ensures holds <==> (id in old(methodIdMap) ==> BeginsRange(old(View()).ranges, codeAddr))
      ensures uncompiled == old(uncompiled) && pending == old(pending)
      ensures methodIdMap.Keys == old(methodIdMap).Keys && OthersKept(old(methodIdMap), methodIdMap, id)
      ensures id in methodIdMap ==>
                && methodIdMap[id].recentVersion == old(methodIdMap)[id].recentVersion
                && methodIdMap[id].byAddress == old(methodIdMap)[id].byAddress - {codeAddr}
                && methodRangeSet.startMap ==
                     old(methodRangeSet.startMap) - (if holds then {codeAddr} else {})
      ensures id !in methodIdMap ==> methodRangeSet.startMap == old(methodRangeSet.startMap)
      ensures Inv(old(View())) && (id in old(methodIdMap) ==> codeAddr in old(methodIdMap)[id].byAddress) ==>
              holds && Inv(View())
    {
      ghost var v := View();
      if Inv(v) && id in methodIdMap && codeAddr in methodIdMap[id].byAddress { DroppedLive(v, id, codeAddr); }
      hide Inv, Found;
      holds := true;
      if id in methodIdMap {
        var group := methodIdMap[id];
        methodIdMap := methodIdMap[id := group.(byAddress := group.byAddress - {codeAddr})];
        holds := methodRangeSet.Remove(codeAddr);
      }
    }

    method GetMethod(addr: nat) returns (r: Option<Compiled>)
      requires Inv(View())
      ensures IsScan(methodIdMap, addr, r)
      ensures forall m :: r == Some(m) <==> Live(methodIdMap, m) && m.start <= addr < m.start + m.size
    {
      LookupIsScan(View(), addr);
      r := methodRangeSet.GetData(addr);
    }

    method FindMethodByAddr(addr: nat) returns (found: bool, id: nat, version: nat)
      requires Inv(View())
      ensures found <==> exists m :: Live(methodIdMap, m) && m.start <= addr < m.start + m.size
      ensures forall m :: Live(methodIdMap, m) && m.start <= addr < m.start + m.size ==>
                id == m.id && version == m.version
    {
      LookupIsScan(View(), addr);
      var m := methodRangeSet.GetData(addr);
      match m {
        case None => return false, 0, 0;
        case Some(c) =>
          assert Live(methodIdMap, c) && Covers(c, addr);
          return true, c.id, c.version;
      }
    }

    method CheckAndMoveMethodToUncompiledSet(id: nat)
      requires Inv(View())
      modifies this
      ensures View() == Moved(old(View()), id) && Inv(View())
      ensures uncompiled == if id in methodIdMap then old(uncompiled) else old(uncompiled) + {id}
      ensures methodIdMap == old(methodIdMap) && pending == old(pending)
      ensures methodRangeSet.startMap == old(methodRangeSet.startMap)
    {
      MoveKeeps(View(), id);
      if id !in methodIdMap { uncompiled := uncompiled + {id}; }
    }

    /** The most recent version of a method that is still live. */
    method GetMethodById(id: nat) returns (r: Option<Compiled>)
      requires Inv(View())
      ensures r.None? <==> forall m :: Live(methodIdMap, m) ==> m.id != id
      ensures forall m, n :: r == Some(m) && Live(methodIdMap, n) && n.id == id ==>
              Live(methodIdMap, m) && m.id == id && (n == m || n.version < m.version)
    {
      if id !in methodIdMap { return None; }
      r := GetMethodByVersion(methodIdMap[id].byAddress, 0);
      MostRecent(View(), id, r);
    }
  }

  /** Version 0 stands for the most recent one. */
  method GetMethodByVersion(byAddress: map<nat, Compiled>, version: nat) returns (r: Option<Compiled>)
    ensures version == 0 ==> (r.None? <==> byAddress == map[])
    ensures version == 0 && r.Some? ==>
            && (exists a :: a in byAddress && byAddress[a] == r.value)
            && forall a :: a in byAddress ==> byAddress[a].version <= r.value.version
    ensures version > 0 ==> (r.None? <==> forall a :: a in byAddress ==> byAddress[a].version != version)
    ensures version > 0 && r.Some? ==>
            (exists a :: a in byAddress && byAddress[a] == r.value) && r.value.version == version
  {
    var todo := byAddress.Keys;
    r := None;
    while todo != {}
      invariant todo <= byAddress.Keys
      invariant version == 0 ==> (r.None? <==> todo == byAddress.Keys)
      invariant version > 0 ==> r.None? && forall a :: a in byAddress && a !in todo ==> byAddress[a].version != version
      invariant r.Some? ==> exists a :: a in byAddress && byAddress[a] == r.value
      invariant r.Some? ==> forall a :: a in byAddress && a !in todo ==> byAddress[a].version <= r.value.version
    {
      var a :| a in todo;
      var m := byAddress[a];
      if version == 0 {
        if r.None? || r.value.version < m.version { r := Some(m); }
      } else if m.version == version {
        return Some(m);
      }
      todo := todo - {a};
    }
  }

  lemma MostRecent(s: State, id: nat, r: Option<Compiled>)
    requires Inv(s) && id in s.groups
    requires r.None? <==> s.groups[id].byAddress == map[]
    requires r.Some? ==> (exists a :: a in s.groups[id].byAddress && s.groups[id].byAddress[a] == r.value)
    requires r.Some? ==> forall a :: a in s.groups[id].byAddress ==>
             s.groups[id].byAddress[a].version <= r.value.version
    ensures r.None? <==> forall m :: Live(s.groups, m) ==> m.id != id
    ensures forall m, n :: r == Some(m) && Live(s.groups, n) && n.id == id ==>
            Live(s.groups, m) && m.id == id && (n == m || n.version < m.version)
  {
    if r.Some? {
      var a :| a in s.groups[id].byAddress && s.groups[id].byAddress[a] == r.value;
      assert Live(s.groups, r.value) && r.value.id == id;
      forall n | Live(s.groups, n) && n.id == id ensures n == r.value || n.version < r.value.version {
        assert Known(s.groups, s.pending, n) && Known(s.groups, s.pending, r.value);
        assert n.version == r.value.version ==> Clash(n, r.value);
      }
    }
  }
}
