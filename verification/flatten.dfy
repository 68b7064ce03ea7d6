/** Nested call intervals flattened into one track of slices (offlineprocess/process_raw_data.py). */
module Flatten {

  /** One call: its interval and a handle for the call path that names it. */
  datatype Row = Row(start: int, end: int, path: int)

  /** Track events in emission order. `row` is the row the slice is named after, `metrics` the row
      whose metrics are attached. */
  datatype Event = Open(ts: int, row: nat, metrics: nat) | Close(ts: int)

  ghost predicate Sorted(rows: seq<Row>) {
    forall i, j :: 0 <= i < j < |rows| ==> rows[i].start <= rows[j].start
  }

  /** Every row ends no earlier than it starts, and a later row that starts strictly inside an earlier one ends inside
      it. */
  ghost predicate Nested(rows: seq<Row>) {
    && (forall i :: 0 <= i < |rows| ==> rows[i].start <= rows[i].end)
    && (forall i, j :: 0 <= i < j < |rows| && rows[j].start < rows[i].end ==> rows[j].end <= rows[i].end)
  }

  /** Two nested rows end at the same instant, and a longer row starts there. */
  ghost predicate Twins(rows: seq<Row>, j: nat, k: nat, at: int) {
    j < k < |rows| && rows[k].start < rows[j].end && rows[j].end == rows[k].end == at
  }

  ghost predicate ClashAt(rows: seq<Row>, i: nat) {
    i < |rows| && rows[i].start < rows[i].end
    && exists j, k :: 0 <= j < k < i && Twins(rows, j, k, rows[i].start)
  }

  ghost predicate Clash(rows: seq<Row>, n: nat) {
    exists i :: 0 <= i < n && ClashAt(rows, i)
  }

  ghost predicate Contains(r: Row, t: int) {
    r.start <= t < r.end
  }

  /** Row `k` is running at `t`, and every row running at `t` encloses it. */
  ghost predicate IsInnermost(rows: seq<Row>, k: nat, t: int) {
    && k < |rows| && Contains(rows[k], t)
    && forall j :: 0 <= j < |rows| && Contains(rows[j], t) ==>
       rows[j].start <= rows[k].start && rows[k].end <= rows[j].end && j <= k
  }

  ghost predicate Alternating(ev: seq<Event>) {
    forall k :: 0 <= k < |ev| ==> (ev[k].Open? <==> k % 2 == 0)
  }

  ghost predicate Monotone(ev: seq<Event>) {
    forall a, b :: 0 <= a < b < |ev| ==> ev[a].ts <= ev[b].ts
  }

  /** Instant `t` falls into the slice opened by event `2 * k`. */
  ghost predicate InSlice(ev: seq<Event>, k: nat, t: int) {
    2 * k + 1 < |ev| && ev[2 * k].Open? && ev[2 * k].ts <= t < ev[2 * k + 1].ts
  }

  /** At `t` the track shows the innermost running row, and nothing when no row runs. */
  ghost predicate Right(rows: seq<Row>, ev: seq<Event>, t: int) {
    && (forall k :: InSlice(ev, k, t) ==> IsInnermost(rows, ev[2 * k].row, t))
    && ((exists j :: 0 <= j < |rows| && Contains(rows[j], t)) ==> exists k :: InSlice(ev, k, t))
  }

  /** The track is right up to `cur`, where the slice of `top` has been opened. */
  ghost predicate TrackOk(rows: seq<Row>, ev: seq<Event>, top: nat, cur: int) {
    && Alternating(ev) && |ev| % 2 == 1 && Monotone(ev)
    && ev[|ev| - 1].ts == cur && ev[|ev| - 1].row == top
    && (forall t :: t < cur ==> Right(rows, ev, t))
  }

  ghost predicate NothingRuns(rows: seq<Row>, from: int, to: int) {
    forall t, j :: from <= t < to && 0 <= j < |rows| ==> !Contains(rows[j], t)
  }

  ghost predicate InnermostDuring(rows: seq<Row>, k: nat, from: int, to: int) {
    forall t :: from <= t < to ==> IsInnermost(rows, k, t)
  }

  /** Closing the open slice at `c` and opening the next one at `o`. */
  lemma Advance(rows: seq<Row>, ev: seq<Event>, cur: int, top: nat, c: int, o: int, e: Event) returns (ev': seq<Event>)
    requires TrackOk(rows, ev, top, cur) && e.Open? && e.ts == o && cur <= c <= o
    requires InnermostDuring(rows, top, cur, c) && NothingRuns(rows, c, o)
    ensures ev' == ev + [Close(c), e] && TrackOk(rows, ev', e.row, o)
  {
    ev' := ev + [Close(c), e];
    var last := (|ev| - 1) / 2;
    assert forall a :: 0 <= a < |ev| ==> ev'[a] == ev[a];
    assert ev'[2 * last + 1] == Close(c);
    forall t | t < o ensures Right(rows, ev', t) {
      forall k: nat | InSlice(ev', k, t) ensures IsInnermost(rows, ev'[2 * k].row, t) {
        assert k <= last;
        if k < last {
          assert ev[2 * k + 1].ts <= ev[|ev| - 1].ts;
          assert InSlice(ev, k, t) && Right(rows, ev, t);
        }
      }
      if exists j :: 0 <= j < |rows| && Contains(rows[j], t) {
        if t < cur {
          assert Right(rows, ev, t);
          var k: nat :| InSlice(ev, k, t);
          assert InSlice(ev', k, t);
        } else {
          assert InSlice(ev', last, t);
        }
      }
    }
  }

  // ----- The stack while timestamps are in order

  ghost function Top(st: seq<nat>): nat
    requires st != []
  {
    st[|st| - 1]
  }

  /** Rows before `n` are processed and `cur` is the last timestamp. The stack holds every row still
      running after `cur`, outer rows below inner ones. */
  ghost predicate StackOk(rows: seq<Row>, st: seq<nat>, n: nat, cur: int) {
    && 0 < |st| && n <= |rows|
    && (forall a, b :: 0 <= a < b < |st| ==> st[a] < st[b])
    && (forall a :: 0 <= a < |st| ==> st[a] < n && cur <= rows[st[a]].end)
    && (forall a, b :: 0 <= a < b < |st| ==> rows[st[b]].end <= rows[st[a]].end)
    && (forall m :: 0 <= m < n && cur < rows[m].end ==> m in st)
    && rows[Top(st)].start <= cur
  }

  ghost predicate LaterStart(rows: seq<Row>, n: nat, s: int) {
    forall m :: n <= m < |rows| ==> s <= rows[m].start
  }

  /** Up to the next start and its own end, the top of the stack is the innermost running row. */
  lemma TopIsInnermost(rows: seq<Row>, st: seq<nat>, n: nat, cur: int, c: int)
    requires Sorted(rows) && Nested(rows) && StackOk(rows, st, n, cur)
    requires LaterStart(rows, n, c) && c <= rows[Top(st)].end
    ensures InnermostDuring(rows, Top(st), cur, c)
  {
    var top := Top(st);
    forall t, j | cur <= t < c && 0 <= j < |rows| && Contains(rows[j], t)
      ensures rows[j].start <= rows[top].start && rows[top].end <= rows[j].end && j <= top
    {
      assert j < n;
      assert j in st;
      var a :| 0 <= a < |st| && st[a] == j;
    }
  }

  /** A new top that lies within the old one. */
  lemma StackAppend(rows: seq<Row>, st: seq<nat>, i: nat, cur: int)
    requires i < |rows| && StackOk(rows, st, i, cur)
    requires cur <= rows[i].start <= rows[i].end <= rows[Top(st)].end
    ensures StackOk(rows, st + [i], i + 1, rows[i].start)
  {
    var st' := st + [i];
    forall a, b | 0 <= a < b < |st'| ensures st'[a] < st'[b] && rows[st'[b]].end <= rows[st'[a]].end {
      if b == |st| {
        assert a < |st| - 1 ==> rows[Top(st)].end <= rows[st[a]].end;
      }
    }
    forall m | 0 <= m < i + 1 && rows[i].start < rows[m].end ensures m in st' {
      if m == i { assert st'[|st|] == m; } else { assert m in st; }
    }
  }

  lemma InPrefix(st: seq<nat>, m: nat)
    requires m in st && m != Top(st)
    ensures m in st[..|st| - 1]
  {
  }

  lemma StackPop(rows: seq<Row>, st: seq<nat>, n: nat, cur: int)
    requires Sorted(rows) && StackOk(rows, st, n, cur) && |st| > 1
    ensures StackOk(rows, st[..|st| - 1], n, rows[Top(st)].end)
  {
    var e := rows[Top(st)].end;
    var st' := st[..|st| - 1];
    forall m | 0 <= m < n && e < rows[m].end ensures m in st' {
      InPrefix(st, m);
    }
    assert rows[Top(st')].start <= rows[Top(st)].start;
  }

  lemma StackRestart(rows: seq<Row>, st: seq<nat>, i: nat, cur: int)
    requires i < |rows| && StackOk(rows, st, i, cur) && |st| == 1 && rows[i].start <= rows[i].end
    requires rows[Top(st)].end <= rows[i].start
    ensures StackOk(rows, [i], i + 1, rows[i].start)
    ensures Sorted(rows) ==> NothingRuns(rows, rows[Top(st)].end, rows[i].start)
  {
    forall m | 0 <= m < i ensures rows[m].end <= rows[Top(st)].end {
      if cur < rows[m].end { assert m == st[0]; }
    }
  }

  // ----- Which stacks lead to a clash

  ghost predicate HasTwin(rows: seq<Row>, j: nat, below: nat) {
    j < |rows| && exists k: nat :: k < below && Twins(rows, j, k, rows[j].end)
  }

  /** Each stack entry starts inside the one below, or both ended together with another call of that one. */
  ghost predicate Chain(rows: seq<Row>, st: seq<nat>) {
    && (forall a :: 0 <= a < |st| ==> st[a] < |rows|)
    && (forall a, b :: 0 <= a < |st| && b == a + 1 && b < |st| ==>
       rows[st[b]].start < rows[st[a]].end || HasTwin(rows, st[a], st[b]))
  }

  ghost predicate TwinsBefore(rows: seq<Row>, n: nat, at: int) {
    exists j, k :: 0 <= j < k < n && Twins(rows, j, k, at)
  }

  /** The entry below the top ended at `at`. */
  ghost predicate StaleBelow(rows: seq<Row>, st: seq<nat>, at: int) {
    |st| > 1 && st[|st| - 2] < |rows| && rows[st[|st| - 2]].end == at
  }

  lemma NoTwinsInside(rows: seq<Row>, st: seq<nat>, i: nat, cur: int)
    requires i < |rows| && StackOk(rows, st, i, cur) && rows[i].start < rows[Top(st)].end
    requires cur < rows[i].start || (cur == rows[i].start && (TwinsBefore(rows, i, cur) ==> StaleBelow(rows, st, cur)))
    ensures !TwinsBefore(rows, i + 1, rows[i].start)
  {
    forall j, k | 0 <= j < k < i + 1 ensures !Twins(rows, j, k, rows[i].start) {
      if k < i && cur < rows[k].end {
        var a :| 0 <= a < |st| && st[a] == k;
        assert rows[Top(st)].end <= rows[k].end;
      } else if k < i && Twins(rows, j, k, cur) {
        assert TwinsBefore(rows, i, cur);
      }
    }
  }

  lemma TwinsAreStale(rows: seq<Row>, st: seq<nat>, i: nat, cur: int)
    requires i < |rows| && StackOk(rows, st, i, cur) && Chain(rows, st)
    requires rows[Top(st)].end <= rows[i].start && (|st| == 1 || rows[Top(st)].end == rows[i].start)
    requires cur < rows[i].start || (cur == rows[i].start && (TwinsBefore(rows, i, cur) ==> StaleBelow(rows, st, cur)))
    ensures TwinsBefore(rows, i, rows[i].start) <==> StaleBelow(rows, st, rows[i].start)
  {
    var s := rows[i].start;
    if j, k :| 0 <= j < k < i && Twins(rows, j, k, s) && cur < s {
      assert j in st && k in st;
      var a :| 0 <= a < |st| && st[a] == j;
      var b :| 0 <= b < |st| && st[b] == k;
      assert a < b;
      assert rows[Top(st)].end <= rows[st[|st| - 2]].end <= rows[st[a]].end;
    }
    if StaleBelow(rows, st, s) {
      var j, p := st[|st| - 2], Top(st);
      if rows[p].start < rows[j].end {
        assert Twins(rows, j, p, s);
      } else {
        var k: nat :| k < p && Twins(rows, j, k, rows[j].end);
      }
    }
  }

  lemma ChainAppend(rows: seq<Row>, st: seq<nat>, i: nat)
    requires Chain(rows, st) && st != [] && i < |rows|
    requires rows[i].start < rows[Top(st)].end || HasTwin(rows, Top(st), i)
    ensures Chain(rows, st + [i])
  {
  }

  // ----- After a clash: some entry is closed too late

  ghost predicate Doomed(rows: seq<Row>, ev: seq<Event>, st: seq<nat>, a: nat) {
    && a < |st| && st[a] < |rows|
    && ((exists x :: 0 <= x < |ev| && ev[x].ts > rows[st[a]].end)
        || (exists b :: a < b < |st| && st[b] < |rows| && rows[st[b]].end > rows[st[a]].end))
  }

  ghost predicate Stale(rows: seq<Row>, ev: seq<Event>, st: seq<nat>) {
    !Monotone(ev) || exists a: nat :: Doomed(rows, ev, st, a)
  }

  lemma StaleGrows(rows: seq<Row>, ev: seq<Event>, st: seq<nat>, x: seq<Event>, y: seq<nat>)
    requires Stale(rows, ev, st)
    ensures Stale(rows, ev + x, st + y)
  {
    if !Monotone(ev) {
      NotMonotoneGrows(ev, x);
    } else {
      var a: nat :| Doomed(rows, ev, st, a);
      if z :| 0 <= z < |ev| && ev[z].ts > rows[st[a]].end {
        assert (ev + x)[z] == ev[z];
      } else {
        var b: nat :| a < b < |st| && st[b] < |rows| && rows[st[b]].end > rows[st[a]].end;
        assert (st + y)[b] == st[b];
      }
      assert Doomed(rows, ev + x, st + y, a);
    }
  }

  lemma NotMonotoneGrows(ev: seq<Event>, x: seq<Event>)
    requires !Monotone(ev)
    ensures !Monotone(ev + x)
  {
    var a, b :| 0 <= a < b < |ev| && ev[a].ts > ev[b].ts;
    assert (ev + x)[a] == ev[a] && (ev + x)[b] == ev[b];
  }

  lemma StalePops(rows: seq<Row>, ev: seq<Event>, st: seq<nat>)
    requires Stale(rows, ev, st) && st != [] && Top(st) < |rows|
    ensures Stale(rows, ev + [Close(rows[Top(st)].end)], st[..|st| - 1])
  {
    var e, st' := Close(rows[Top(st)].end), st[..|st| - 1];
    var ev' := ev + [e];
    assert ev'[|ev|] == e;
    if !Monotone(ev) {
      NotMonotoneGrows(ev, [e]);
    } else {
      var a: nat :| Doomed(rows, ev, st, a);
      if z :| 0 <= z < |ev| && ev[z].ts > rows[st[a]].end {
        assert ev'[z] == ev[z];
        if a < |st| - 1 { assert Doomed(rows, ev', st', a); }
      } else {
        var b: nat :| a < b < |st| && st[b] < |rows| && rows[st[b]].end > rows[st[a]].end;
        assert b < |st| - 1 ==> st'[b] == st[b];
        assert Doomed(rows, ev', st', a);
      }
    }
  }

  // ----- The loop

  /** Shape of stack and track on any input. */
  ghost predicate Plain(rows: seq<Row>, ev: seq<Event>, st: seq<nat>, n: nat) {
    && st != [] && n <= |rows| && (forall a :: 0 <= a < |st| ==> st[a] < n)
    && Alternating(ev) && |ev| % 2 == 1 && |ev| + 1 + 2 * |st| <= 4 * n
  }

  /** Stack and track while no clash has happened. */
  ghost predicate Good(rows: seq<Row>, ev: seq<Event>, st: seq<nat>, n: nat, cur: int) {
    && Plain(rows, ev, st, n) && StackOk(rows, st, n, cur) && Chain(rows, st) && TrackOk(rows, ev, Top(st), cur)
  }

  /** Between two rows. */
  ghost predicate Ready(rows: seq<Row>, ev: seq<Event>, st: seq<nat>, n: nat) {
    && 0 < n && Plain(rows, ev, st, n) && Top(st) == n - 1
    && (Nested(rows) ==>
          if Clash(rows, n) then Stale(rows, ev, st)
          else
            var cur := rows[n - 1].start;
            Good(rows, ev, st, n, cur) && (TwinsBefore(rows, n, cur) ==> StaleBelow(rows, st, cur)))
  }

  ghost predicate Due(rows: seq<Row>, ev: seq<Event>, st: seq<nat>, n: nat, cur: int) {
    && n < |rows| && Good(rows, ev, st, n, cur)
    && (cur < rows[n].start || (cur == rows[n].start && (TwinsBefore(rows, n, cur) ==> StaleBelow(rows, st, cur))))
  }

  /** Inside the processing of row `n`: nothing popped yet, or only calls that ended before it starts. */
  ghost predicate Popping(rows: seq<Row>, ev: seq<Event>, st: seq<nat>, n: nat) {
    && n < |rows| && Plain(rows, ev, st, n)
    && (Nested(rows) ==>
          if Clash(rows, n) then Stale(rows, ev, st)
          else exists cur :: Due(rows, ev, st, n, cur))
  }

  lemma StartPopping(rows: seq<Row>, ev: seq<Event>, st: seq<nat>, n: nat)
    requires Sorted(rows) && Ready(rows, ev, st, n) && n < |rows|
    ensures Popping(rows, ev, st, n)
  {
    assert Nested(rows) && !Clash(rows, n) ==> Due(rows, ev, st, n, rows[n - 1].start);
  }

  lemma PopOne(rows: seq<Row>, ev: seq<Event>, st: seq<nat>, n: nat, cur: int)
    requires Sorted(rows) && Nested(rows) && Good(rows, ev, st, n, cur) && |st| > 1 &&
             LaterStart(rows, n, rows[Top(st)].end)
    ensures var e := rows[Top(st)].end; var st' := st[..|st| - 1];
            Good(rows, ev + [Close(e), Open(e, Top(st'), Top(st))], st', n, e)
  {
    var e := rows[Top(st)].end;
    var st' := st[..|st| - 1];
    TopIsInnermost(rows, st, n, cur, e);
    StackPop(rows, st, n, cur);
    hide StackOk, Right, IsInnermost;
    var ev' := Advance(rows, ev, cur, Top(st), e, e, Open(e, Top(st'), Top(st)));
  }

  lemma PopAfterClash(rows: seq<Row>, ev: seq<Event>, st: seq<nat>)
    requires Stale(rows, ev, st) && |st| > 1 && Top(st) < |rows|
    ensures var e := rows[Top(st)].end; var st' := st[..|st| - 1];
            Stale(rows, ev + [Close(e), Open(e, Top(st'), Top(st))], st')
  {
    var e := rows[Top(st)].end;
    var st' := st[..|st| - 1];
    var o := Open(e, Top(st'), Top(st));
    StalePops(rows, ev, st);
    hide Stale;
    StaleGrows(rows, ev + [Close(e)], st', [o], []);
    assert ev + [Close(e)] + [o] == ev + [Close(e), o] && st' + [] == st';
  }

  lemma PopDue(rows: seq<Row>, ev: seq<Event>, st: seq<nat>, n: nat, cur: int)
    requires Sorted(rows) && Nested(rows) && Due(rows, ev, st, n, cur) && |st| > 1 && rows[Top(st)].end < rows[n].start
    ensures var e := rows[Top(st)].end; var st' := st[..|st| - 1];
            Due(rows, ev + [Close(e), Open(e, Top(st'), Top(st))], st', n, e)
  {
    hide Good, TwinsBefore;
    PopOne(rows, ev, st, n, cur);
  }

  lemma PopStep(rows: seq<Row>, ev: seq<Event>, st: seq<nat>, n: nat)
    requires Sorted(rows) && Popping(rows, ev, st, n) && |st| > 1 && rows[Top(st)].end < rows[n].start
    ensures var e := rows[Top(st)].end; var st' := st[..|st| - 1];
            Popping(rows, ev + [Close(e), Open(e, Top(st'), Top(st))], st', n)
  {
    hide Sorted, Due, Stale, Nested, Clash;
    if Nested(rows) {
      if Clash(rows, n) {
        PopAfterClash(rows, ev, st);
      } else {
        var cur :| Due(rows, ev, st, n, cur);
        PopDue(rows, ev, st, n, cur);
      }
    }
  }

  lemma PushPlain(rows: seq<Row>, ev: seq<Event>, st: seq<nat>, n: nat, c: int, o: int)
    requires n < |rows| && Plain(rows, ev, st, n)
    ensures Plain(rows, ev + [Close(c), Open(o, n, n)], st + [n], n + 1)
  {
  }

  lemma SwapPlain(rows: seq<Row>, ev: seq<Event>, st: seq<nat>, n: nat, c: int, o: int)
    requires n < |rows| && Plain(rows, ev, st, n)
    ensures Plain(rows, ev + [Close(c), Open(o, n, n)], st[..|st| - 1] + [n], n + 1)
  {
  }

  lemma PushDue(rows: seq<Row>, ev: seq<Event>, st: seq<nat>, n: nat, cur: int)
    requires Sorted(rows) && Nested(rows) && Due(rows, ev, st, n, cur) && rows[Top(st)].end > rows[n].start
    ensures var s := rows[n].start; var ev' := ev + [Close(s), Open(s, n, n)];
            Good(rows, ev', st + [n], n + 1, s) && !TwinsBefore(rows, n + 1, s)
  {
    var s := rows[n].start;
    NoTwinsInside(rows, st, n, cur);
    TopIsInnermost(rows, st, n, cur, s);
    assert rows[n].end <= rows[Top(st)].end;
    StackAppend(rows, st, n, cur);
    ChainAppend(rows, st, n);
    PushPlain(rows, ev, st, n, s, s);
    hide StackOk, Right, IsInnermost, Chain, InnermostDuring, Nested, Sorted, Plain, Alternating, Monotone, TwinsBefore;
    var ev' := Advance(rows, ev, cur, Top(st), s, s, Open(s, n, n));
  }

  lemma PushStep(rows: seq<Row>, ev: seq<Event>, st: seq<nat>, n: nat)
    requires Sorted(rows) && Popping(rows, ev, st, n) && rows[Top(st)].end > rows[n].start
    ensures var s := rows[n].start; Ready(rows, ev + [Close(s), Open(s, n, n)], st + [n], n + 1)
  {
    var s := rows[n].start;
    PushPlain(rows, ev, st, n, s, s);
    hide Sorted, Due, Stale, Nested, Good, TwinsBefore, StaleBelow, Plain;
    if Nested(rows) {
      if Clash(rows, n) {
        StaleGrows(rows, ev, st, [Close(s), Open(s, n, n)], [n]);
      } else {
        var cur :| Due(rows, ev, st, n, cur);
        PushDue(rows, ev, st, n, cur);
        NoClashHere(rows, n);
      }
    }
  }

  lemma NoClashHere(rows: seq<Row>, n: nat)
    requires n < |rows| && !TwinsBefore(rows, n + 1, rows[n].start)
    ensures !ClashAt(rows, n)
  {
  }

  /** The stack after the running call made way for row `n`, when that causes no clash. */
  lemma SwapStack(rows: seq<Row>, st: seq<nat>, n: nat, cur: int)
    requires Sorted(rows) && Nested(rows) && n < |rows| && StackOk(rows, st, n, cur)
    requires rows[Top(st)].end <= rows[n].start && (|st| == 1 || rows[Top(st)].end == rows[n].start)
    requires StaleBelow(rows, st, rows[n].start) ==> rows[n].end == rows[n].start
    ensures StackOk(rows, st[..|st| - 1] + [n], n + 1, rows[n].start)
    ensures NothingRuns(rows, rows[Top(st)].end, rows[n].start)
  {
    var st1 := st[..|st| - 1];
    if |st| == 1 {
      StackRestart(rows, st, n, cur);
      assert st1 + [n] == [n];
    } else {
      StackPop(rows, st, n, cur);
      var j := Top(st1);
      assert j == st[|st| - 2];
      assert rows[n].start <= rows[n].end <= rows[j].end;
      hide Sorted, Nested;
      StackAppend(rows, st1, n, rows[n].start);
    }
  }

  lemma SwapChain(rows: seq<Row>, st: seq<nat>, n: nat)
    requires n < |rows| && st != [] && Chain(rows, st)
    requires |st| > 1 ==> st[|st| - 2] < Top(st) < n && rows[Top(st)].end == rows[n].start <= rows[st[|st| - 2]].end
    ensures Chain(rows, st[..|st| - 1] + [n])
    ensures StaleBelow(rows, st, rows[n].start) ==> StaleBelow(rows, st[..|st| - 1] + [n], rows[n].start)
  {
    if |st| > 1 {
      var st1 := st[..|st| - 1];
      assert st[|st| - 2] == Top(st1);
      if StaleBelow(rows, st, rows[n].start) { TwinBelow(rows, st, n); }
      ChainAppend(rows, st1, n);
    }
  }

  lemma TwinBelow(rows: seq<Row>, st: seq<nat>, n: nat)
    requires n < |rows| && Chain(rows, st) && |st| > 1 && st[|st| - 2] < Top(st) < n
    requires rows[st[|st| - 2]].end == rows[Top(st)].end
    ensures HasTwin(rows, st[|st| - 2], n)
  {
    var j, p := st[|st| - 2], Top(st);
    if rows[p].start < rows[j].end {
      assert Twins(rows, j, p, rows[j].end);
    } else {
      var k: nat :| k < p && Twins(rows, j, k, rows[j].end);
    }
  }

  lemma SwapStep(rows: seq<Row>, ev: seq<Event>, st: seq<nat>, n: nat)
    requires Sorted(rows) && Popping(rows, ev, st, n)
    requires rows[Top(st)].end <= rows[n].start && (|st| == 1 || rows[Top(st)].end == rows[n].start)
    ensures var s, e := rows[n].start, rows[Top(st)].end;
            Ready(rows, ev + [Close(e), Open(s, n, n)], st[..|st| - 1] + [n], n + 1)
  {
    var s, e := rows[n].start, rows[Top(st)].end;
    var ev', st' := ev + [Close(e), Open(s, n, n)], st[..|st| - 1] + [n];
    assert Plain(rows, ev', st', n + 1) && Top(st') == n;
    if Nested(rows) {
      if Clash(rows, n) {
        SwapAfterClash(rows, ev, st, n);
      } else {
        var cur :| Due(rows, ev, st, n, cur);
        SwapDue(rows, ev, st, n, cur);
      }
    }
  }

  lemma SwapDue(rows: seq<Row>, ev: seq<Event>, st: seq<nat>, n: nat, cur: int)
    requires Sorted(rows) && Nested(rows) && Due(rows, ev, st, n, cur) && !Clash(rows, n)
    requires rows[Top(st)].end <= rows[n].start && (|st| == 1 || rows[Top(st)].end == rows[n].start)
    ensures var s, e := rows[n].start, rows[Top(st)].end;
            var ev', st' := ev + [Close(e), Open(s, n, n)], st[..|st| - 1] + [n];
            if Clash(rows, n + 1) then Stale(rows, ev', st')
            else Good(rows, ev', st', n + 1, s) && (TwinsBefore(rows, n + 1, s) ==> StaleBelow(rows, st', s))
  {
    var s := rows[n].start;
    assert s <= rows[n].end;
    TwinsAreStale(rows, st, n, cur);
    assert Good(rows, ev, st, n, cur) && cur <= s && st != [] && Top(st) == st[|st| - 1] < |rows|;
    hide *;
    if StaleBelow(rows, st, s) && s < rows[n].end {
      SwapClash(rows, ev + [Close(rows[Top(st)].end), Open(s, n, n)], st, n);
    } else {
      SwapClean(rows, ev, st, n, cur);
      NoClashYet(rows, n);
    }
  }

  lemma NoClashYet(rows: seq<Row>, n: nat)
    requires !Clash(rows, n) && !ClashAt(rows, n)
    ensures !Clash(rows, n + 1)
  {
    hide ClashAt;
  }

  lemma SwapAfterClash(rows: seq<Row>, ev: seq<Event>, st: seq<nat>, n: nat)
    requires st != [] && Top(st) < |rows| && Stale(rows, ev, st) && n < |rows|
    ensures Stale(rows, ev + [Close(rows[Top(st)].end), Open(rows[n].start, n, n)], st[..|st| - 1] + [n])
  {
    var c, o := Close(rows[Top(st)].end), Open(rows[n].start, n, n);
    StalePops(rows, ev, st);
    StaleGrows(rows, ev + [c], st[..|st| - 1], [o], [n]);
    assert ev + [c] + [o] == ev + [c, o];
  }

  lemma SwapClash(rows: seq<Row>, ev: seq<Event>, st: seq<nat>, n: nat)
    requires n < |rows| && StaleBelow(rows, st, rows[n].start) && TwinsBefore(rows, n, rows[n].start) &&
             rows[n].start < rows[n].end
    ensures Clash(rows, n + 1) && Stale(rows, ev, st[..|st| - 1] + [n])
  {
    var st' := st[..|st| - 1] + [n];
    assert ClashAt(rows, n);
    assert st'[|st| - 1] == n && st'[|st| - 2] == st[|st| - 2];
    assert Doomed(rows, ev, st', |st| - 2);
  }

  lemma SwapClean(rows: seq<Row>, ev: seq<Event>, st: seq<nat>, n: nat, cur: int)
    requires Sorted(rows) && Nested(rows) && n < |rows| && Good(rows, ev, st, n, cur) && cur <= rows[n].start
    requires rows[Top(st)].end <= rows[n].start && (|st| == 1 || rows[Top(st)].end == rows[n].start)
    requires TwinsBefore(rows, n, rows[n].start) <==> StaleBelow(rows, st, rows[n].start)
    requires StaleBelow(rows, st, rows[n].start) ==> rows[n].end == rows[n].start
    ensures var s, e := rows[n].start, rows[Top(st)].end; var st' := st[..|st| - 1] + [n];
            && Good(rows, ev + [Close(e), Open(s, n, n)], st', n + 1, s)
            && (TwinsBefore(rows, n + 1, s) ==> StaleBelow(rows, st', s)) && !ClashAt(rows, n)
  {
    var s, e := rows[n].start, rows[Top(st)].end;
    TopIsInnermost(rows, st, n, cur, e);
    SwapStack(rows, st, n, cur);
    SwapChain(rows, st, n);
    SwapPlain(rows, ev, st, n, e, s);
    hide StackOk, Right, IsInnermost, Chain, NothingRuns, InnermostDuring, Nested, Sorted, Plain, Alternating, Monotone;
    var ev' := Advance(rows, ev, cur, Top(st), e, s, Open(s, n, n));
  }

  // ----- After the last row

  ghost predicate Draining(rows: seq<Row>, ev: seq<Event>, st: seq<nat>) {
    && Plain(rows, ev, st, |rows|)
    && (Nested(rows) ==>
          if Clash(rows, |rows|) then Stale(rows, ev, st) else exists cur :: Good(rows, ev, st, |rows|, cur))
  }

  lemma StartDraining(rows: seq<Row>, ev: seq<Event>, st: seq<nat>)
    requires Ready(rows, ev, st, |rows|)
    ensures Draining(rows, ev, st)
  {
  }

  lemma DrainStep(rows: seq<Row>, ev: seq<Event>, st: seq<nat>)
    requires Sorted(rows) && Draining(rows, ev, st) && |st| > 1
    ensures var e := rows[Top(st)].end; var st' := st[..|st| - 1];
            Draining(rows, ev + [Close(e), Open(e, Top(st'), Top(st))], st')
  {
    var e := rows[Top(st)].end;
    var st' := st[..|st| - 1];
    var o := Open(e, Top(st'), Top(st));
    hide Right, IsInnermost, Chain, StackOk, TrackOk, Stale, Twins, TwinsBefore;
    if Nested(rows) {
      if Clash(rows, |rows|) {
        PopAfterClash(rows, ev, st);
      } else {
        var cur :| Good(rows, ev, st, |rows|, cur);
        PopOne(rows, ev, st, |rows|, cur);
      }
    }
  }

  // ----- Rows that are not nested

  /** Row `n` ends before it starts, or outlasts an earlier row that it starts inside of. */
  ghost predicate Breaks(rows: seq<Row>, n: nat) {
    n < |rows| && (rows[n].end < rows[n].start || exists j :: 0 <= j < n && rows[n].start < rows[j].end < rows[n].end)
  }

  ghost predicate Broken(rows: seq<Row>, n: nat) {
    exists m :: 0 <= m < n && Breaks(rows, m)
  }

  lemma NestedIffUnbroken(rows: seq<Row>)
    ensures Nested(rows) <==> !Broken(rows, |rows|)
  {
    if !Broken(rows, |rows|) {
      forall i | 0 <= i < |rows| ensures rows[i].start <= rows[i].end { assert !Breaks(rows, i); }
      forall i, j | 0 <= i < j < |rows| && rows[j].start < rows[i].end ensures rows[j].end <= rows[i].end {
        assert !Breaks(rows, j);
      }
    }
  }

  ghost predicate EndSeen(rows: seq<Row>, ev: seq<Event>, j: nat) {
    j < |rows| && exists x :: 0 <= x < |ev| && ev[x].ts == rows[j].end
  }

  /** Every row is on the stack or was closed at its end, and after a row that is not nested some entry is closed too
      late. */
  ghost predicate Tallied(rows: seq<Row>, ev: seq<Event>, st: seq<nat>, n: nat) {
    && (forall a :: 0 <= a < |st| ==> st[a] < n) && n <= |rows|
    && (forall j: nat {:trigger EndSeen(rows, ev, j)} :: j < n ==> j in st || EndSeen(rows, ev, j))
    && (Broken(rows, n) ==> Stale(rows, ev, st))
  }

  lemma EndStaysSeen(rows: seq<Row>, ev: seq<Event>, x: seq<Event>, j: nat)
    requires EndSeen(rows, ev, j)
    ensures EndSeen(rows, ev + x, j)
  {
    var y :| 0 <= y < |ev| && ev[y].ts == rows[j].end;
    assert (ev + x)[y] == ev[y];
  }

  /** Opening a row that is not nested dooms the track. */
  lemma BreakDooms(rows: seq<Row>, ev: seq<Event>, st: seq<nat>, n: nat, c: int)
    requires Breaks(rows, n) && forall j: nat :: j < n ==> j in st || EndSeen(rows, ev + [Close(c)], j)
    ensures Stale(rows, ev + [Close(c), Open(rows[n].start, n, n)], st + [n])
  {
    var o := Open(rows[n].start, n, n);
    var ev', st' := ev + [Close(c), o], st + [n];
    assert ev'[|ev| + 1] == o && st'[|st|] == n && ev + [Close(c)] + [o] == ev';
    if rows[n].end < rows[n].start {
      assert Doomed(rows, ev', st', |st|);
    } else {
      var j :| 0 <= j < n && rows[n].start < rows[j].end < rows[n].end;
      if j in st {
        var a :| 0 <= a < |st| && st[a] == j;
        assert st'[a] == j && Doomed(rows, ev', st', a);
      } else {
        var x :| 0 <= x < |ev + [Close(c)]| && (ev + [Close(c)])[x].ts == rows[j].end;
        assert ev'[x].ts > ev'[|ev| + 1].ts;
      }
    }
  }

  lemma TallyPush(rows: seq<Row>, ev: seq<Event>, st: seq<nat>, n: nat, c: int)
    requires n < |rows| && Tallied(rows, ev, st, n)
    ensures Tallied(rows, ev + [Close(c), Open(rows[n].start, n, n)], st + [n], n + 1)
  {
    var o := Open(rows[n].start, n, n);
    forall j: nat | j < n && j !in st
      ensures EndSeen(rows, ev + [Close(c)], j) && EndSeen(rows, ev + [Close(c), o], j) {
      EndStaysSeen(rows, ev, [Close(c)], j);
      EndStaysSeen(rows, ev, [Close(c), o], j);
    }
    assert (st + [n])[|st|] == n && forall j :: j in st ==> j in st + [n];
    hide Stale, EndSeen, Breaks;
    if Broken(rows, n + 1) {
      if Broken(rows, n) { StaleGrows(rows, ev, st, [Close(c), o], [n]); } else { BreakDooms(rows, ev, st, n, c); }
    }
  }

  lemma TallyPop(rows: seq<Row>, ev: seq<Event>, st: seq<nat>, n: nat, more: seq<Event>)
    requires st != [] && Tallied(rows, ev, st, n)
    ensures Tallied(rows, ev + [Close(rows[Top(st)].end)] + more, st[..|st| - 1], n)
  {
    var e, st' := Close(rows[Top(st)].end), st[..|st| - 1];
    forall j: nat | j < n && j !in st' ensures EndSeen(rows, ev + [e] + more, j) {
      if j == Top(st) {
        assert (ev + [e])[|ev|] == e && EndSeen(rows, ev + [e], j);
        EndStaysSeen(rows, ev + [e], more, j);
      } else {
        assert j !in st by { if j in st { InPrefix(st, j); } }
        EndStaysSeen(rows, ev, [e], j);
        EndStaysSeen(rows, ev + [e], more, j);
      }
    }
    hide EndSeen, Stale, Breaks;
    if Broken(rows, n) {
      StalePops(rows, ev, st);
      StaleGrows(rows, ev + [e], st', more, []);
      assert st' + [] == st';
    }
  }

  /** Replacing the top is popping it and pushing the next row, but for the slice in between. */
  lemma TallySwap(rows: seq<Row>, ev: seq<Event>, st: seq<nat>, n: nat)
    requires st != [] && n < |rows| && Tallied(rows, ev, st, n)
    ensures Tallied(rows, ev + [Close(rows[Top(st)].end), Open(rows[n].start, n, n)], st[..|st| - 1] + [n], n + 1)
  {
    var c, o, st1 := rows[Top(st)].end, Open(rows[n].start, n, n), st[..|st| - 1];
    TallyPop(rows, ev, st, n, []);
    assert ev + [Close(c)] + [] == ev + [Close(c)] && ev + [Close(c)] + [o] == ev + [Close(c), o];
    forall j: nat | j < n && j !in st1 ensures EndSeen(rows, ev + [Close(c), o], j) {
      assert EndSeen(rows, ev + [Close(c)], j);
      EndStaysSeen(rows, ev + [Close(c)], [o], j);
    }
    assert (st1 + [n])[|st1|] == n && forall j :: j in st1 ==> j in st1 + [n];
    hide Stale, EndSeen, Breaks;
    if Broken(rows, n + 1) {
      if Broken(rows, n) {
        StaleGrows(rows, ev + [Close(c)], st1, [o], [n]);
      } else {
        BreakDooms(rows, ev, st1, n, c);
      }
    }
  }

  lemma TallyFirst(rows: seq<Row>)
    requires rows != []
    ensures Tallied(rows, [Open(rows[0].start, 0, 0)], [0], 1)
  {
    var ev := [Open(rows[0].start, 0, 0)];
    assert ev[0].ts == rows[0].start;
    if Broken(rows, 1) {
      assert Breaks(rows, 0) && Doomed(rows, ev, [0], 0);
    }
  }

  /** What a finished track is worth: its timestamps are in order exactly when the rows are nested and no
      clash occurs, and then it shows the innermost running row at every instant. */
  ghost predicate Faithful(rows: seq<Row>, ev: seq<Event>) {
    && Alternating(ev) && |ev| % 2 == 0 && |ev| <= 2 * (2 * |rows| - 1)
    && (Monotone(ev) <==> Nested(rows) && !Clash(rows, |rows|))
    && (Nested(rows) && !Clash(rows, |rows|) ==> forall t :: Right(rows, ev, t))
  }

  lemma RightWithoutOpen(rows: seq<Row>, ev: seq<Event>, e: Event, t: int)
    requires |ev| % 2 == 0 && Right(rows, ev + [e], t)
    ensures Right(rows, ev, t)
  {
    forall k: nat | InSlice(ev, k, t) ensures IsInnermost(rows, ev[2 * k].row, t) {
      assert InSlice(ev + [e], k, t);
    }
    if exists j :: 0 <= j < |rows| && Contains(rows[j], t) {
      var k: nat :| InSlice(ev + [e], k, t);
      assert InSlice(ev, k, t);
    }
  }

  lemma LastClose(rows: seq<Row>, ev: seq<Event>, top: nat, cur: int, st: seq<nat>)
    requires Sorted(rows) && Nested(rows) && Good(rows, ev, st, |rows|, cur) && st == [top]
    ensures var ev' := ev + [Close(rows[top].end)]; Monotone(ev') && forall t :: Right(rows, ev', t)
  {
    var e := rows[top].end;
    var ev' := ev + [Close(e)];
    TopIsInnermost(rows, st, |rows|, cur, e);
    forall t ensures Right(rows, ev', t) {
      var o := if t < e then e else t + 1;
      forall u, j | e <= u < o && 0 <= j < |rows| ensures !Contains(rows[j], u) {
        if cur < rows[j].end { assert j in st; }
      }
      var ev2 := Advance(rows, ev, cur, top, e, o, Open(o, 0, 0));
      assert ev2 == ev' + [Open(o, 0, 0)];
      RightWithoutOpen(rows, ev', Open(o, 0, 0), t);
    }
  }

  lemma Finish(rows: seq<Row>, ev: seq<Event>, st: seq<nat>)
    requires Sorted(rows) && Draining(rows, ev, st) && |st| == 1 && Tallied(rows, ev, st, |rows|)
    ensures Faithful(rows, ev + [Close(rows[Top(st)].end)])
  {
    var ev' := ev + [Close(rows[Top(st)].end)];
    NestedIffUnbroken(rows);
    hide StackOk, Chain, TrackOk, Right, Nested, Sorted, Broken;
    if !Nested(rows) {
      StalePops(rows, ev, st);
    } else {
      if Clash(rows, |rows|) {
        StalePops(rows, ev, st);
      } else {
        var cur :| Good(rows, ev, st, |rows|, cur);
        LastClose(rows, ev, Top(st), cur, st);
      }
    }
  }

  /** A row behind sorted rows stays there. */
  lemma SortedAlready(rows: seq<Row>, r: Row)
    requires SortByStart(rows) == rows && (rows != [] ==> rows[|rows| - 1].start <= r.start)
    ensures SortByStart(rows + [r]) == rows + [r]
  {
    assert (rows + [r])[..|rows|] == rows;
  }

  /** A clash on three rows: two calls end at 5 and a third starts there. The track then closes the
      outermost call at 5 after having reached 8. */
  lemma ClashExample(ev: seq<Event>)
    ensures var rows := [Row(0, 5, 0), Row(3, 5, 1), Row(5, 8, 2)];
            SortByStart(rows) == rows && Nested(rows) && (Faithful(rows, ev) ==> !Monotone(ev))
  {
    var a, b, c := Row(0, 5, 0), Row(3, 5, 1), Row(5, 8, 2);
    var rows := [a, b, c];
    SortedAlready([], a);
    SortedAlready([a], b);
    SortedAlready([a, b], c);
    assert [] + [a] == [a] && [a] + [b] == [a, b] && [a, b] + [c] == rows;
    assert Twins(rows, 0, 1, rows[2].start);
    assert ClashAt(rows, 2);
  }

  /** Without touching calls there is no clash: rows that start strictly after every earlier row they are not inside. */
  lemma ApartMeansNoClash(rows: seq<Row>)
    requires forall i, j :: 0 <= i < j < |rows| ==> rows[j].start != rows[i].end
    ensures !Clash(rows, |rows|)
  {
    forall i: nat | i < |rows| ensures !ClashAt(rows, i) {
      forall j, k | 0 <= j < k < i ensures !Twins(rows, j, k, rows[i].start) {
        assert rows[i].start != rows[k].end;
      }
    }
  }

  /** No instant falls into two slices. */
  lemma OneSlice(ev: seq<Event>, k: nat, l: nat, t: int)
    requires Monotone(ev) && InSlice(ev, k, t) && InSlice(ev, l, t)
    ensures k == l
  {
  }

  // ----- The stable sort by start

  function InsertByStart(rows: seq<Row>, r: Row): (s: seq<Row>) {
    if rows == [] || rows[|rows| - 1].start <= r.start then rows + [r]
    else InsertByStart(rows[..|rows| - 1], r) + [rows[|rows| - 1]]
  }

  function SortByStart(rows: seq<Row>): (s: seq<Row>) {
    if rows == [] then [] else InsertByStart(SortByStart(rows[..|rows| - 1]), rows[|rows| - 1])
  }

  /** The rows starting at `at`, in order. */
  ghost function StartingAt(rows: seq<Row>, at: int): seq<Row> {
    if rows == [] then []
    else StartingAt(rows[..|rows| - 1], at) + (if rows[|rows| - 1].start == at then [rows[|rows| - 1]] else [])
  }

  lemma StartingAtSnoc(rows: seq<Row>, r: Row, at: int)
    ensures StartingAt(rows + [r], at) == StartingAt(rows, at) + (if r.start == at then [r] else [])
  {
    assert (rows + [r])[..|rows|] == rows;
  }

  lemma {:induction false} InsertAddsOne(rows: seq<Row>, r: Row)
    ensures var s := InsertByStart(rows, r); |s| == |rows| + 1 && multiset(s) == multiset(rows) + multiset{r}
  {
    if rows != [] && rows[|rows| - 1].start > r.start {
      InsertAddsOne(rows[..|rows| - 1], r);
      assert rows == rows[..|rows| - 1] + [rows[|rows| - 1]];
    }
  }

  lemma {:induction false} InsertKeepsOrder(rows: seq<Row>, r: Row)
    requires Sorted(rows)
    ensures var s := InsertByStart(rows, r);
            && Sorted(s) && s != []
            && s[|s| - 1].start ==
               (if rows != [] && r.start < rows[|rows| - 1].start then rows[|rows| - 1].start else r.start)
  {
    if rows != [] && rows[|rows| - 1].start > r.start {
      InsertKeepsOrder(rows[..|rows| - 1], r);
    }
  }

  lemma Swapped<T>(a: seq<T>, b: seq<T>, c: seq<T>)
    requires b == [] || c == []
    ensures a + b + c == a + c + b
  {
  }

  lemma {:induction false} InsertIsStable(rows: seq<Row>, r: Row, at: int)
    requires Sorted(rows)
    ensures StartingAt(InsertByStart(rows, r), at) == StartingAt(rows + [r], at)
  {
    if rows != [] && rows[|rows| - 1].start > r.start {
      var n := |rows| - 1;
      assert rows[..n] + [rows[n]] == rows && InsertByStart(rows, r) == InsertByStart(rows[..n], r) + [rows[n]];
      assert Sorted(rows[..n]);
      hide *;
      InsertIsStable(rows[..n], r, at);
      StartingAtSnoc(InsertByStart(rows[..n], r), rows[n], at);
      StartingAtSnoc(rows[..n], r, at);
      StartingAtSnoc(rows[..n], rows[n], at);
      StartingAtSnoc(rows, r, at);
      Swapped(StartingAt(rows[..n], at), if r.start == at then [r] else [],
              if rows[n].start == at then [rows[n]] else []);
    }
  }

  /** The order in which rows are processed: sorted by start, rows with equal starts in their original order. */
  lemma {:induction false} SortedAndStable(rows: seq<Row>, at: int)
    ensures var s := SortByStart(rows);
            Sorted(s) && |s| == |rows| && multiset(s) == multiset(rows) && StartingAt(s, at) == StartingAt(rows, at)
  {
    if rows != [] {
      var n := |rows| - 1;
      var before, r, s := rows[..n], rows[n], SortByStart(rows[..n]);
      assert rows == before + [r] && SortByStart(rows) == InsertByStart(s, r);
      hide *;
      SortedAndStable(before, at);
      InsertKeepsOrder(s, r);
      InsertAddsOne(s, r);
      InsertIsStable(s, r, at);
      StartingAtSnoc(s, r, at);
      StartingAtSnoc(before, r, at);
    }
  }

  // ----- Which row and which metrics each slice carries

  function Fresh(ev: seq<Event>): (r: seq<nat>) {
    if ev == [] then []
    else
      var e := ev[|ev| - 1];
      Fresh(ev[..|ev| - 1]) + (if e.Open? && e.row == e.metrics then [e.row] else [])
  }

  function FirstRows(n: nat): (r: seq<nat>)
    ensures |r| == n
  {
    if n == 0 then [] else FirstRows(n - 1) + [n - 1]
  }

  /** A slice either starts its row, with that row's metrics, or resumes an outer row when a later
      one ends, and then carries the metrics of the row that ended. */
  ghost predicate Labelled(rows: seq<Row>, e: Event) {
    e.Open? ==>
      && e.row <= e.metrics < |rows|
      && e.ts == (if e.row == e.metrics then rows[e.row].start else rows[e.metrics].end)
  }

  /** Every row is started by exactly one slice, in row order. */
  ghost predicate Accounted(rows: seq<Row>, ev: seq<Event>, n: nat) {
    Fresh(ev) == FirstRows(n) && forall k :: 0 <= k < |ev| ==> Labelled(rows, ev[k])
  }

  ghost predicate Rising(st: seq<nat>, n: nat) {
    (forall a :: 0 <= a < |st| ==> st[a] < n) && forall a, b :: 0 <= a < b < |st| ==> st[a] < st[b]
  }

  lemma FreshPair(ev: seq<Event>, c: Event, o: Event)
    requires c.Close? && o.Open?
    ensures Fresh(ev + [c, o]) == Fresh(ev) + (if o.row == o.metrics then [o.row] else [])
  {
    assert (ev + [c, o])[..|ev| + 1] == ev + [c];
    assert (ev + [c])[..|ev|] == ev;
  }

  lemma AccountPush(rows: seq<Row>, ev: seq<Event>, st: seq<nat>, n: nat, at: int)
    requires n < |rows| && Accounted(rows, ev, n) && Rising(st, n)
    ensures Accounted(rows, ev + [Close(at), Open(rows[n].start, n, n)], n + 1) && Rising(st + [n], n + 1)
  {
    FreshPair(ev, Close(at), Open(rows[n].start, n, n));
  }

  lemma AccountPop(rows: seq<Row>, ev: seq<Event>, st: seq<nat>, n: nat)
    requires n <= |rows| && Accounted(rows, ev, n) && Rising(st, n) && |st| > 1
    ensures var e := rows[st[|st| - 1]].end;
            Accounted(rows, ev + [Close(e), Open(e, st[|st| - 2], st[|st| - 1])], n)
    ensures Rising(st[..|st| - 1], n)
  {
    var e := rows[st[|st| - 1]].end;
    FreshPair(ev, Close(e), Open(e, st[|st| - 2], st[|st| - 1]));
  }

  lemma AccountClose(rows: seq<Row>, ev: seq<Event>, n: nat, at: int)
    requires Accounted(rows, ev, n)
    ensures Accounted(rows, ev + [Close(at)], n)
  {
    assert (ev + [Close(at)])[..|ev|] == ev;
  }

  lemma RisingPop(st: seq<nat>, n: nat)
    requires Rising(st, n) && st != []
    ensures Rising(st[..|st| - 1], n)
  {
  }

  lemma AccountFirst(rows: seq<Row>)
    requires rows != []
    ensures Accounted(rows, [Open(rows[0].start, 0, 0)], 1) && Rising([0], 1)
  {
    assert FirstRows(1) == [0];
  }

  // ----- Which call path each slice carries

  /** The call path of a row, with or without its first character. */
  datatype Category = Category(row: nat, shortened: bool)

  /** A slice that starts its row carries that row's call path. One that resumes an outer row carries the call path of
      the next row to start, and after the last row that of the row that ended. */
  function CategoryOf(rows: nat, e: Event, started: nat): Category
    requires e.Open?
  {
    if e.row == e.metrics then Category(e.row, true)
    else if started < rows then Category(started, true)
    else Category(e.metrics, false)
  }

  /** The categories of the slices of `ev`, one for each open. */
  ghost predicate Categorised(rows: nat, ev: seq<Event>, cats: seq<Category>) {
    && 2 * |cats| - 1 <= |ev| <= 2 * |cats|
    && forall k :: 0 <= k < |cats| ==> ev[2 * k].Open? && cats[k] == CategoryOf(rows, ev[2 * k], |Fresh(ev[..2 * k])|)
  }

  lemma CategoryAdded(rows: nat, ev: seq<Event>, cats: seq<Category>, c: Event, o: Event, n: nat)
    requires Categorised(rows, ev, cats) && |ev| == 2 * |cats| - 1 && c.Close? && o.Open? && Fresh(ev) == FirstRows(n)
    ensures Categorised(rows, ev + [c, o], cats + [CategoryOf(rows, o, n)])
  {
    var ev', cats' := ev + [c, o], cats + [CategoryOf(rows, o, n)];
    forall k | 0 <= k < |cats'|
      ensures ev'[2 * k].Open? && cats'[k] == CategoryOf(rows, ev'[2 * k], |Fresh(ev'[..2 * k])|)
    {
      if k < |cats| {
        assert ev'[..2 * k] == ev[..2 * k];
      } else {
        assert ev'[..2 * k] == ev + [c] && (ev + [c])[..|ev|] == ev;
      }
    }
  }

  lemma CategoriesClosed(rows: nat, ev: seq<Event>, cats: seq<Category>, c: Event)
    requires Categorised(rows, ev, cats) && |ev| == 2 * |cats| - 1
    ensures Categorised(rows, ev + [c], cats)
  {
    assert forall k :: 0 <= k < |cats| ==> (ev + [c])[..2 * k] == ev[..2 * k];
  }

  ghost predicate Starts(e: Event) {
    e.Open? && e.row == e.metrics
  }

  /** Slice `m` is the first one after slice `k` that starts its row. */
  ghost predicate NextStart(ev: seq<Event>, k: nat, m: nat) {
    k < m && 2 * m < |ev| && Starts(ev[2 * m]) && forall l :: k < l < m ==> !Starts(ev[2 * l])
  }

  /** No slice after slice `k` starts its row. */
  ghost predicate NoStartAfter(ev: seq<Event>, k: nat) {
    forall l :: k < l && 2 * l < |ev| ==> !Starts(ev[2 * l])
  }

  lemma {:induction false} FirstRowsAt(n: nat, k: nat)
    requires k < n
    ensures FirstRows(n)[k] == k
  {
    if k < n - 1 { FirstRowsAt(n - 1, k); }
  }

  /** What starts between two points of an alternating track. */
  lemma {:induction false} FreshBetween(ev: seq<Event>, a: nat, b: nat)
    requires a <= b <= |ev| && forall x :: a <= x < b ==> !Starts(ev[x])
    ensures Fresh(ev[..b]) == Fresh(ev[..a])
  {
    if a < b {
      assert ev[..b][..b - 1] == ev[..b - 1];
      FreshBetween(ev, a, b - 1);
    }
  }

  lemma {:induction false} FreshPrefix(ev: seq<Event>, a: nat)
    requires a <= |ev|
    ensures |Fresh(ev[..a])| <= |Fresh(ev)| && Fresh(ev)[..|Fresh(ev[..a])|] == Fresh(ev[..a])
  {
    if a == |ev| {
      assert ev[..a] == ev;
    } else {
      var n := |ev| - 1;
      assert ev[..n][..a] == ev[..a];
      FreshPrefix(ev[..n], a);
    }
  }

  lemma NoStartBetween(ev: seq<Event>, k: nat, b: nat)
    requires Alternating(ev) && 2 * k < b <= |ev| && !Starts(ev[2 * k])
    requires forall l :: k < l && 2 * l < b ==> !Starts(ev[2 * l])
    ensures Fresh(ev[..b]) == Fresh(ev[..2 * k])
  {
    forall x | 2 * k <= x < b ensures !Starts(ev[x]) {
      if x % 2 == 0 { assert x == 2 * (x / 2); }
    }
    FreshBetween(ev, 2 * k, b);
  }

  /** The rows start in order, one per slice that starts a row. */
  lemma StartIsNext(n: nat, ev: seq<Event>, k: nat, m: nat)
    requires Alternating(ev) && Fresh(ev) == FirstRows(n) && NextStart(ev, k, m) && !Starts(ev[2 * k])
    ensures var started := |Fresh(ev[..2 * k])|; started < n && ev[2 * m].row == started
  {
    var started := |Fresh(ev[..2 * k])|;
    NoStartBetween(ev, k, 2 * m);
    FreshAt(ev, 2 * m);
    hide *;
    FreshPrefix(ev, 2 * m + 1);
    assert Fresh(ev)[..started + 1][started] == ev[2 * m].row;
    FirstRowsAt(n, started);
  }

  lemma FreshAt(ev: seq<Event>, x: nat)
    requires x < |ev| && Starts(ev[x])
    ensures Fresh(ev[..x + 1]) == Fresh(ev[..x]) + [ev[x].row]
  {
    assert ev[..x + 1][..x] == ev[..x] && ev[..x + 1][x] == ev[x];
  }

  lemma AllStarted(n: nat, ev: seq<Event>, k: nat)
    requires Alternating(ev) && Fresh(ev) == FirstRows(n) && 2 * k < |ev| && NoStartAfter(ev, k) && !Starts(ev[2 * k])
    ensures |Fresh(ev[..2 * k])| == n
  {
    NoStartBetween(ev, k, |ev|);
    assert ev[..|ev|] == ev;
  }

  /** A slice that resumes a row has the shortened call path of the row that starts next, or, if none does, the full
      call path of the row that ended. */
  lemma ResumedPath(n: nat, ev: seq<Event>, cats: seq<Category>, k: nat)
    requires Categorised(n, ev, cats) && Alternating(ev) && Fresh(ev) == FirstRows(n)
    requires k < |cats| && ev[2 * k].row != ev[2 * k].metrics
    ensures forall m: nat :: NextStart(ev, k, m) ==> cats[k] == Category(ev[2 * m].row, true)
    ensures NoStartAfter(ev, k) ==> cats[k] == Category(ev[2 * k].metrics, false)
  {
    var started := |Fresh(ev[..2 * k])|;
    assert cats[k] == CategoryOf(n, ev[2 * k], started);
    hide Categorised, Alternating, Fresh, FirstRows, NextStart, NoStartAfter;
    forall m: nat | NextStart(ev, k, m) ensures cats[k] == Category(ev[2 * m].row, true) { StartIsNext(n, ev, k, m); }
    if NoStartAfter(ev, k) { AllStarted(n, ev, k); }
  }

  /** The call path that slice `k` must have, told by the rest of the track. */
  ghost predicate PathCarried(ev: seq<Event>, cats: seq<Category>, k: nat) {
    && k < |cats| && 2 * k < |ev| && ev[2 * k].Open?
    && var e := ev[2 * k];
       if e.row == e.metrics then cats[k] == Category(e.row, true)
       else
         && (forall m: nat :: NextStart(ev, k, m) ==> cats[k] == Category(ev[2 * m].row, true))
         && (NoStartAfter(ev, k) ==> cats[k] == Category(e.metrics, false))
  }

  lemma PathsCarried(n: nat, ev: seq<Event>, cats: seq<Category>)
    requires Categorised(n, ev, cats) && Alternating(ev) && Fresh(ev) == FirstRows(n)
    ensures forall k :: 0 <= k < |cats| ==> PathCarried(ev, cats, k)
  {
    hide NextStart, NoStartAfter, Fresh, FirstRows;
    forall k | 0 <= k < |cats| ensures PathCarried(ev, cats, k) {
      if ev[2 * k].row != ev[2 * k].metrics { ResumedPath(n, ev, cats, k); }
    }
  }

  // ----- The whole function

  /** An empty list ends in the failing pop of an empty stack. */
  datatype Output = Track(events: seq<Event>, categories: seq<Category>) | EmptyInput

  lemma DrainingTop(rows: seq<Row>, ev: seq<Event>, st: seq<nat>)
    requires Draining(rows, ev, st)
    ensures st != [] && forall a :: 0 <= a < |st| ==> st[a] < |rows|
  {
  }

  lemma PoppingTop(rows: seq<Row>, ev: seq<Event>, st: seq<nat>, i: nat)
    requires Popping(rows, ev, st, i)
    ensures st != [] && i < |rows| && forall a :: 0 <= a < |st| ==> st[a] < |rows|
  {
  }

  lemma FirstRow(rows: seq<Row>)
    requires Sorted(rows) && rows != []
    ensures Ready(rows, [Open(rows[0].start, 0, 0)], [0], 1)
  {
    forall t, j | t < rows[0].start && 0 <= j < |rows| ensures !Contains(rows[j], t) {
    }
  }

  lemma FirstCategory(rows: seq<Row>, ev: seq<Event>, cats: seq<Category>)
    requires rows != [] && ev == [Open(rows[0].start, 0, 0)] && cats == [Category(0, true)]
    ensures Categorised(|rows|, ev, cats)
  {
  }

  lemma NextCategory(rows: seq<Row>, ev: seq<Event>, cats: seq<Category>, c: Event, o: Event, n: nat)
    requires Categorised(|rows|, ev, cats) && |ev| == 2 * |cats| - 1 && c.Close? && o.Open? && Accounted(rows, ev, n)
    ensures Categorised(|rows|, ev + [c, o], cats + [CategoryOf(|rows|, o, n)])
  {
    CategoryAdded(|rows|, ev, cats, c, o, n);
  }

  lemma RisingTop(st: seq<nat>, n: nat)
    requires Rising(st, n) && |st| > 1
    ensures st[|st| - 2] < st[|st| - 1]
  {
  }

  lemma FinalPaths(rows: seq<Row>, ev: seq<Event>, cats: seq<Category>)
    requires Categorised(|rows|, ev, cats) && Faithful(rows, ev) && Accounted(rows, ev, |rows|)
    ensures forall k :: 0 <= k < |cats| ==> PathCarried(ev, cats, k)
  {
    assert Alternating(ev);
    hide Faithful, Categorised, PathCarried, Alternating;
    PathsCarried(|rows|, ev, cats);
  }

  /** One iteration of the loop over the rows. */
  method ProcessRow(rows: seq<Row>, ev0: seq<Event>, cats0: seq<Category>, st0: seq<nat>, i: nat)
    returns (ev: seq<Event>, cats: seq<Category>, st: seq<nat>)
    requires Sorted(rows) && i < |rows|
    requires i > 0 ==> Categorised(|rows|, ev0, cats0) && |ev0| == 2 * |cats0| - 1
    requires if i == 0 then ev0 == [] && cats0 == [] && st0 == []
             else Ready(rows, ev0, st0, i) && Accounted(rows, ev0, i) && Rising(st0, i) && Tallied(rows, ev0, st0, i)
    ensures Categorised(|rows|, ev, cats) && |ev| == 2 * |cats| - 1
    ensures st != [] && Ready(rows, ev, st, i + 1) && Accounted(rows, ev, i + 1) && Rising(st, i + 1)
    ensures Tallied(rows, ev, st, i + 1)
  {
    ev, cats, st := ev0, cats0, st0;
    hide Sorted, Ready, Popping, Accounted, Rising, Categorised, Tallied;
    if i == 0 {
      st := st + [i];
      ev := ev + [Open(rows[i].start, i, i)];
      cats := cats + [Category(i, true)];
      FirstCategory(rows, ev, cats);
      assert st == [0] && ev == [Open(rows[0].start, 0, 0)];
      FirstRow(rows);
      AccountFirst(rows);
      TallyFirst(rows);
      return;
    }
    StartPopping(rows, ev, st, i);
    PoppingTop(rows, ev, st, i);
    var top := st[|st| - 1];
    if rows[top].end > rows[i].start {
      PushStep(rows, ev, st, i);
      TallyPush(rows, ev, st, i, rows[i].start);
      AccountPush(rows, ev, st, i, rows[i].start);
      NextCategory(rows, ev, cats, Close(rows[i].start), Open(rows[i].start, i, i), i);
      ev := ev + [Close(rows[i].start), Open(rows[i].start, i, i)];
      cats := cats + [Category(i, true)];
      st := st + [i];
    } else {
      while |st| > 1 && rows[st[|st| - 1]].end < rows[i].start
        invariant st != [] && (forall a :: 0 <= a < |st| ==> st[a] < |rows|) && Popping(rows, ev, st, i)
        invariant Accounted(rows, ev, i) && Rising(st, i) && Tallied(rows, ev, st, i)
        invariant Categorised(|rows|, ev, cats) && |ev| == 2 * |cats| - 1
        decreases |st|
      {
        PopStep(rows, ev, st, i);
        TallyPop(rows, ev, st, i, [Open(rows[Top(st)].end, st[|st| - 2], Top(st))]);
        AccountPop(rows, ev, st, i);
        ghost var below := st[|st| - 2];
        RisingTop(st, i);
        var temp := st[|st| - 1];
        st := st[..|st| - 1];
        NextCategory(rows, ev, cats, Close(rows[temp].end), Open(rows[temp].end, below, temp), i);
        assert ev + [Close(rows[temp].end)] + [Open(rows[temp].end, below, temp)]
            == ev + [Close(rows[temp].end), Open(rows[temp].end, below, temp)];
        ev := ev + [Close(rows[temp].end), Open(rows[temp].end, st[|st| - 1], temp)];
        cats := cats + [Category(i, true)];
      }
      if rows[st[|st| - 1]].end > rows[i].start {
        PushStep(rows, ev, st, i);
        TallyPush(rows, ev, st, i, rows[i].start);
        AccountPush(rows, ev, st, i, rows[i].start);
        NextCategory(rows, ev, cats, Close(rows[i].start), Open(rows[i].start, i, i), i);
        ev := ev + [Close(rows[i].start), Open(rows[i].start, i, i)];
        cats := cats + [Category(i, true)];
        st := st + [i];
      } else {
        SwapStep(rows, ev, st, i);
        TallySwap(rows, ev, st, i);
        RisingPop(st, i);
        AccountPush(rows, ev, st[..|st| - 1], i, rows[st[|st| - 1]].end);
        NextCategory(rows, ev, cats, Close(rows[st[|st| - 1]].end), Open(rows[i].start, i, i), i);
        ev := ev + [Close(rows[st[|st| - 1]].end), Open(rows[i].start, i, i)];
        cats := cats + [Category(i, true)];
        st := st[..|st| - 1] + [i];
      }
    }
  }

  method OutputToPftrace(traceList: seq<Row>) returns (out: Output)
    ensures out.EmptyInput? <==> traceList == []
    ensures out.Track? ==> Faithful(SortByStart(traceList), out.events)
    ensures out.Track? ==> Accounted(SortByStart(traceList), out.events, |traceList|)
    ensures out.Track? ==> Categorised(|traceList|, out.events, out.categories) && |out.events| == 2 * |out.categories|
    ensures out.Track? ==> forall k :: 0 <= k < |out.categories| ==> PathCarried(out.events, out.categories, k)
  {
    hide Sorted, Ready, Draining, Faithful, Accounted, Rising, Categorised, Tallied, SortByStart, StartingAt;
    var rows := SortByStart(traceList);
    SortedAndStable(traceList, 0);
    var ev: seq<Event>, cats: seq<Category>, st: seq<nat> := [], [], [];
    var i := 0;
    while i < |rows|
      invariant 0 <= i <= |rows|
      invariant i == 0 ==> ev == [] && cats == [] && st == []
      invariant i > 0 ==> Categorised(|rows|, ev, cats) && |ev| == 2 * |cats| - 1
      invariant i > 0 ==> st != [] && Ready(rows, ev, st, i) && Accounted(rows, ev, i) && Rising(st, i)
      invariant i > 0 ==> Tallied(rows, ev, st, i)
    {
      ev, cats, st := ProcessRow(rows, ev, cats, st, i);
      i := i + 1;
    }
    if st == [] { return EmptyInput; }
    StartDraining(rows, ev, st);
    while |st| > 1
      invariant st != [] && Draining(rows, ev, st) && Accounted(rows, ev, |rows|) && Rising(st, |rows|)
      invariant Tallied(rows, ev, st, |rows|)
      invariant Categorised(|rows|, ev, cats) && |ev| == 2 * |cats| - 1
      decreases |st|
    {
      DrainingTop(rows, ev, st);
      DrainStep(rows, ev, st);
      TallyPop(rows, ev, st, |rows|, [Open(rows[Top(st)].end, st[|st| - 2], Top(st))]);
      AccountPop(rows, ev, st, |rows|);
      ghost var below := st[|st| - 2];
      RisingTop(st, |rows|);
      var temp := st[|st| - 1];
      st := st[..|st| - 1];
      NextCategory(rows, ev, cats, Close(rows[temp].end), Open(rows[temp].end, below, temp), |rows|);
      assert ev + [Close(rows[temp].end)] + [Open(rows[temp].end, below, temp)]
          == ev + [Close(rows[temp].end), Open(rows[temp].end, below, temp)];
      ev := ev + [Close(rows[temp].end), Open(rows[temp].end, st[|st| - 1], temp)];
      cats := cats + [Category(temp, false)];
    }
    DrainingTop(rows, ev, st);
    Finish(rows, ev, st);
    AccountClose(rows, ev, |rows|, rows[st[|st| - 1]].end);
    CategoriesClosed(|rows|, ev, cats, Close(rows[st[|st| - 1]].end));
    ev := ev + [Close(rows[st[|st| - 1]].end)];
    FinalPaths(rows, ev, cats);
    return Track(ev, cats);
  }
}
