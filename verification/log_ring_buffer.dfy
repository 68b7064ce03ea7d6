/** The ring of the most recent log messages (perfetto/src/base/log_ring_buffer.h). */
module LogRingBuffers {
  import opened Sequences

  const ENTRIES: nat := 8
  const MSG_LEN: nat := 256
  const COUNTER_LIMIT := 0x1_0000_0000

  function Sanitized(c: char): char {
    if ' ' <= c <= '~' then c else '?'
  }

  /** What `%.*s` prints of a text. */
  function UpToNul(s: string): (r: string)
    ensures r <= s && '\0' !in r && (r == s || s[|r|] == '\0')
  {
    if s == "" || s[0] == '\0' then "" else [s[0]] + UpToNul(s[1..])
  }

  /** What is kept of a message. */
  function Kept(s: string): string {
    s[..Min(|s|, MSG_LEN - 1)]
  }

  function Line(m: string): string {
    seq(|m|, i requires 0 <= i < |m| => Sanitized(m[i])) + "\n"
  }

  function Lines(ms: seq<string>): string {
    if ms == [] then "" else Lines(ms[..|ms| - 1]) + Line(ms[|ms| - 1])
  }

  /** The number of the message in slot `(|h| + pos) % ENTRIES`, negative if there is none. */
  function Number(n: nat, pos: nat): int {
    n + pos - ENTRIES
  }

  /** The last eight messages. */
  function Recent(h: seq<string>): seq<string> {
    if |h| <= ENTRIES then h else h[|h| - ENTRIES..]
  }

  /** The recent messages in the first `pos` slots from the counter on. */
  ghost function Visited(h: seq<string>, pos: nat): seq<string>
    requires pos <= ENTRIES
  {
    if Number(|h|, pos) <= 0 then [] else Recent(h)[..Min(pos, Number(|h|, pos))]
  }

  lemma VisitedStep(h: seq<string>, pos: nat)
    requires pos < ENTRIES
    ensures Visited(h, pos + 1) == Visited(h, pos) + (if Number(|h|, pos) < 0 then [] else [h[Number(|h|, pos)]])
  {
  }

  lemma VisitedAll(h: seq<string>)
    ensures Visited(h, 0) == [] && Visited(h, ENTRIES) == Recent(h)
  {
  }

  lemma LinesSnoc(ms: seq<string>, m: string)
    ensures Lines(ms + [m]) == Lines(ms) + Line(m) && |Line(m)| == |m| + 1
  {
    assert (ms + [m])[..|ms|] == ms;
  }

  /** The slot of message `n + pos - ENTRIES`, after `n` messages. */
  function SlotAt(n: nat, pos: nat): nat {
    (n + pos) % ENTRIES
  }

  /** The counter wraps at a multiple of the number of slots. */
  lemma CounterWraps(n: nat, pos: nat)
    requires pos <= ENTRIES
    ensures (n % COUNTER_LIMIT + pos) % COUNTER_LIMIT % ENTRIES == SlotAt(n, pos) < ENTRIES
    ensures n % COUNTER_LIMIT % ENTRIES == SlotAt(n, 0)
  {
    var q, r := n / COUNTER_LIMIT, n % COUNTER_LIMIT;
    var e := COUNTER_LIMIT / ENTRIES;
    assert n == r + ENTRIES * (q * e);
    Multiple(r + pos, q * e);
    Multiple(r, q * e);
    if r + pos >= COUNTER_LIMIT {
      Multiple(r + pos - COUNTER_LIMIT, e);
    }
  }

  lemma NextCount(n: nat)
    ensures n % COUNTER_LIMIT % ENTRIES == SlotAt(n, 0) < ENTRIES
    ensures (n % COUNTER_LIMIT + 1) % COUNTER_LIMIT == (n + 1) % COUNTER_LIMIT
  {
    CounterWraps(n, 0);
  }

  lemma Multiple(x: nat, k: nat)
    ensures (x + ENTRIES * k) % ENTRIES == x % ENTRIES
  {
  }

  lemma SlotsApart(n: nat, pos: nat)
    requires pos < ENTRIES
    ensures SlotAt(n + 1, pos) == SlotAt(n, pos + 1) < ENTRIES
    ensures SlotAt(n + 1, pos) == SlotAt(n, 0) <==> pos == ENTRIES - 1
  {
  }

  /** What a line, a kept message and the recent messages are. */
  lemma LineIs(m: string)
    ensures |Line(m)| == |m| + 1 && Line(m)[|m|] == '\n'
    ensures forall i :: 0 <= i < |m| ==> Line(m)[i] == if 32 <= m[i] as int <= 126 then m[i] else '?'
  {
  }

  lemma KeptIs(s: string)
    ensures Kept(s) <= s && |Kept(s)| == if |s| <= 255 then |s| else 255
  {
  }

  lemma RecentIs(h: seq<string>)
    ensures |Recent(h)| == (if |h| <= 8 then |h| else 8) && Recent(h) == h[|h| - |Recent(h)|..]
  {
  }

  // ----- The contents of the slots

  ghost predicate Holds(row: seq<char>, m: string) {
    && |row| == MSG_LEN && 0 < |m| < MSG_LEN && row[|m|] == '\0'
    && forall i :: 0 <= i < |m| ==> row[i] == m[i] != '\0'
  }

  ghost predicate SlotOk(rows: seq<seq<char>>, h: seq<string>, pos: nat) {
    && SlotAt(|h|, pos) < |rows| && |rows[SlotAt(|h|, pos)]| == MSG_LEN
    && var row := rows[SlotAt(|h|, pos)];
       if Number(|h|, pos) < 0 then row[0] == '\0' else Number(|h|, pos) < |h| && Holds(row, h[Number(|h|, pos)])
  }

  /** The slots hold the last messages, oldest first from the counter on. */
  ghost predicate RingOk(rows: seq<seq<char>>, h: seq<string>) {
    |rows| == ENTRIES && forall pos: nat :: pos < ENTRIES ==> SlotOk(rows, h, pos)
  }

  lemma Appended(rows: seq<seq<char>>, h: seq<string>, row: seq<char>, m: string)
    requires RingOk(rows, h) && Holds(row, m) && SlotAt(|h|, 0) < ENTRIES
    ensures RingOk(rows[SlotAt(|h|, 0) := row], h + [m])
  {
    var rows', h' := rows[SlotAt(|h|, 0) := row], h + [m];
    hide SlotAt, Holds;
    forall pos: nat | pos < ENTRIES ensures SlotOk(rows', h', pos) {
      SlotsApart(|h|, pos);
      if pos < ENTRIES - 1 {
        assert SlotOk(rows, h, pos + 1);
        assert Number(|h'|, pos) == Number(|h|, pos + 1);
      } else {
        assert h'[Number(|h'|, pos)] == m;
      }
    }
  }

  class LogRingBuffer {
    const events: array2<char>
    var eventSlot: nat
    ghost var history: seq<string>

    ghost function Row(slot: nat): (r: seq<char>)
      requires slot < events.Length0
      reads events
      ensures |r| == events.Length1 && forall k :: 0 <= k < |r| ==> r[k] == events[slot, k]
    {
      seq(events.Length1, k requires 0 <= k < events.Length1 reads events => events[slot, k])
    }

    ghost function Rows(): (r: seq<seq<char>>)
      reads events
      ensures |r| == events.Length0 && forall s :: 0 <= s < |r| ==> r[s] == Row(s)
    {
      seq(events.Length0, s requires 0 <= s < events.Length0 reads events => Row(s))
    }

    /** The counter wraps at 32 bits. */
    ghost predicate Valid()
      reads this, events
    {
      && events.Length0 == ENTRIES && events.Length1 == MSG_LEN
      && eventSlot == |history| % COUNTER_LIMIT && RingOk(Rows(), history)
    }

    constructor ()
      ensures Valid() && history == [] && fresh(events)
    {
      events := new char[ENTRIES, MSG_LEN]((_, _) => '\0');
      eventSlot := 0;
      history := [];
      new;
      forall pos: nat | pos < ENTRIES ensures SlotOk(Rows(), history, pos) {
        SlotsApart(0, pos);
      }
    }

    /** Prints a text into a slot, cut to its size. */
    method Store(slot: nat, text: string)
      requires events.Length0 == ENTRIES && events.Length1 == MSG_LEN && slot < ENTRIES && '\0' !in text && text != ""
      modifies events
      ensures Holds(Row(slot), Kept(text)) && Rows() == old(Rows())[slot := Row(slot)]
    {
      var n := Min(|text|, MSG_LEN - 1);
      assert forall k :: 0 <= k < |text| ==> text[k] != '\0';
      for i := 0 to n
        invariant forall s, k :: 0 <= s < ENTRIES && 0 <= k < MSG_LEN && s != slot ==> events[s, k] == old(events[s, k])
        invariant forall k :: 0 <= k < i ==> events[slot, k] == text[k]
      {
        events[slot, i] := text[i];
      }
      events[slot, n] := '\0';
      forall s | 0 <= s < ENTRIES && s != slot ensures Row(s) == old(Row(s)) {
      }
    }

    method Append(tstamp: string, source: string, logMsg: string)
      requires Valid()
      modifies this, events
      ensures Valid() && history == old(history) + [Kept(UpToNul(tstamp) + UpToNul(source) + " " + UpToNul(logMsg))]
    {
      ghost var h := history;
      hide SlotAt, RingOk, Holds, Kept, UpToNul;
      NextCount(|h|);
      var slot := eventSlot;
      eventSlot := (eventSlot + 1) % COUNTER_LIMIT;
      slot := slot % ENTRIES;
      var text := UpToNul(tstamp) + UpToNul(source) + " " + UpToNul(logMsg);
      ghost var rows := Rows();
      Store(slot, text);
      Appended(rows, h, Row(slot), Kept(text));
      history := history + [Kept(text)];
    }

    /** Copies one line, as far as there is room; the last character of the buffer may be wrong. */
    method CopyLine(slot: nat, ghost m: string, dst: array<char>, written: nat, len: nat) returns (w: nat)
      requires events.Length0 == ENTRIES && events.Length1 == MSG_LEN && slot < ENTRIES && Holds(Row(slot), m)
      requires written <= len <= dst.Length
      modifies dst
      ensures written <= w == Min(len, written + |Line(m)|)
      ensures forall k :: 0 <= k < dst.Length && !(written <= k < w) ==> dst[k] == old(dst[k])
      ensures forall k :: written <= k < w && k < len - 1 ==> dst[k] == Line(m)[k - written]
    {
      w := written;
      var limit := Min(len - written, MSG_LEN);
      var i := 0;
      while i < limit
        invariant i <= limit && i <= |m| && w == written + i
        invariant forall k :: 0 <= k < dst.Length && !(written <= k < w) ==> dst[k] == old(dst[k])
        invariant forall k :: written <= k < w ==> dst[k] == Line(m)[k - written]
        decreases limit - i
      {
        var c := events[slot, i];
        assert c == Row(slot)[i];
        w := w + 1;
        if c == '\0' || i == limit - 1 {
          dst[written + i] := '\n';
          return;
        }
        dst[written + i] := if ' ' <= c <= '~' then c else '?';
        i := i + 1;
      }
    }

    /** What `dst` holds after some lines were copied. */
    ghost predicate Copied(dst: array<char>, len: nat, written: nat, t: string)
      reads dst
    {
      written == Min(len, |t|) && len <= dst.Length && forall k :: 0 <= k < written && k < len - 1 ==> dst[k] == t[k]
    }

    /** Copies one line behind the text already copied. */
    method CopyNext(slot: nat, ghost m: string, ghost t: string, dst: array<char>, written: nat, len: nat)
      returns (w: nat)
      requires events.Length0 == ENTRIES && events.Length1 == MSG_LEN && slot < ENTRIES && Holds(Row(slot), m)
      requires Copied(dst, len, written, t)
      modifies dst
      ensures written <= w && Copied(dst, len, w, t + Line(m))
      ensures forall k :: w <= k < dst.Length ==> dst[k] == old(dst[k])
    {
      w := CopyLine(slot, m, dst, written, len);
      hide Line, Holds;
    }

    /** The lines of the slot at `pos`, if it is in use. */
    method CopySlot(pos: nat, dst: array<char>, written: nat, len: nat) returns (w: nat)
      requires Valid() && pos < ENTRIES && Copied(dst, len, written, Lines(Visited(history, pos)))
      modifies dst
      ensures Valid() && Copied(dst, len, w, Lines(Visited(history, pos + 1)))
      ensures written <= w && forall k :: w <= k < dst.Length ==> dst[k] == old(dst[k])
    {
      var slot := (eventSlot + pos) % COUNTER_LIMIT % ENTRIES;
      ghost var h := history;
      CounterWraps(|h|, pos);
      assert SlotOk(Rows(), h, pos);
      VisitedStep(h, pos);
      w := written;
      assert events[slot, 0] == Row(slot)[0];
      hide Visited, Lines, Line, SlotAt, RingOk;
      if events[slot, 0] != '\0' {
        ghost var m := h[Number(|h|, pos)];
        LinesSnoc(Visited(h, pos), m);
        hide Copied, Min;
        w := CopyNext(slot, m, Lines(Visited(h, pos)), dst, written, len);
      }
    }

    /** The first `len - 1` characters of the recent lines, and a NUL. */
    method Read(dst: array<char>, len: nat) returns (n: nat)
      requires Valid() && len <= dst.Length
      modifies dst
      ensures len == 0 ==> n == 0 && dst[..] == old(dst[..])
      ensures len > 0 ==> var t := Lines(Recent(history));
              n == Min(len - 1, |t|) && dst[..n] == t[..n] && dst[n] == '\0'
      ensures len > 0 ==> forall k :: n < k < dst.Length ==> dst[k] == old(dst[k])
    {
      if len == 0 { return 0; }
      var written: nat := 0;
      VisitedAll(history);
      ghost var h := history;
      hide Valid;
      for pos := 0 to ENTRIES
        invariant Valid() && history == h && Copied(dst, len, written, Lines(Visited(h, pos)))
        invariant forall k :: written <= k < dst.Length ==> dst[k] == old(dst[k])
      {
        written := CopySlot(pos, dst, written, len);
      }
      if written == len {
        written := written - 1;
        dst[written] := '\0';
      } else {
        dst[written] := '\0';
      }
      return written;
    }
  }
}
