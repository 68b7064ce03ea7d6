/** Following one sampled call from watchpoint to watchpoint (src/profiler/profiler.cpp). */
module Samplers {

  import opened Options

  // ----- Code

  /** `Exit` stands for the conditional jumps, the LOOP instructions and the jumps through a register
      or memory: where they lead is known only when they execute. */
  datatype Kind = Return | Exit | Call | Jump(target: nat) | Plain

  datatype Instr = Instr(kind: Kind, length: nat)

  type Code = nat -> Instr

  predicate Ends(k: Kind) {
    k == Return || k == Exit || k == Call
  }

  function Next(code: Code, ip: nat): nat {
    match code(ip).kind
    case Jump(target) => target
    case _ => ip + code(ip).length
  }

  /** The block that starts at `ip` ends at `t`: the first instruction that ends a block, `n` steps of
      falling through and direct jumps away. */
  ghost predicate EndsAt(code: Code, ip: nat, t: nat, n: nat)
    decreases n
  {
    if Ends(code(ip).kind) then n == 0 && t == ip
    else n > 0 && EndsAt(code, Next(code, ip), t, n - 1)
  }

  lemma {:induction false} OneEnd(code: Code, ip: nat, t: nat, n: nat, t': nat, n': nat)
    requires EndsAt(code, ip, t, n) && EndsAt(code, ip, t', n')
    ensures t == t' && n == n'
    decreases n
  {
    if !Ends(code(ip).kind) { OneEnd(code, Next(code, ip), t, n - 1, t', n' - 1); }
  }

  lemma {:induction false} EndIsEnd(code: Code, ip: nat, t: nat, n: nat)
    requires EndsAt(code, ip, t, n)
    ensures Ends(code(t).kind)
    decreases n
  {
    if n > 0 { EndIsEnd(code, Next(code, ip), t, n - 1); }
  }

  // ----- The state of one sample

  const RUNTIME := -3

  /** `callee` is the address in the callee's frame; `RUNTIME` marks a call that leaves compiled code.
      A watchpoint is on the execution of `va` or on accesses to it. */
  datatype Watch = Watch(va: nat, exec: bool, callee: int)

  datatype Core = Core(wp: seq<Watch>, ret: seq<nat>, top: int, cntTop: int, decoded: nat, pending: Option<Watch>)

  function Last<T>(s: seq<T>): T
    requires s != []
  {
    s[|s| - 1]
  }

  function Pop<T>(s: seq<T>): seq<T>
    requires s != []
  {
    s[..|s| - 1]
  }

  /** Decoding pops what it needs. */
  predicate Decodable(c: Core) {
    c.wp != [] && (|c.wp| == 1 ==> c.ret != [])
  }

  /** What decoding from `ip` does when it arrives at `t`, where the block ends. */
  function AtEnd(code: Code, c: Core, ip: nat, t: nat): Core
    requires Decodable(c)
  {
    match code(t).kind
    case Return =>
      if |c.wp| == 1 then c.(wp := [], ret := Pop(c.ret), pending := Some(Last(c.wp)))
      else c.(wp := Pop(c.wp), pending := Some(Watch(t, true, Last(c.wp).callee)))
    case Call => c.(decoded := c.decoded + 1, pending := Some(Watch(t, true, ip)))
    case _ => c.(pending := Some(Watch(t, true, ip)))
  }

  function Decode(code: Code, threshold: nat, c: Core, ip: nat, t: nat): Core
    requires Decodable(c)
  {
    if c.decoded >= threshold then c.(wp := Pop(c.wp), pending := Some(Last(c.wp))) else AtEnd(code, c, ip, t)
  }

  /** What the machine supplies when a watchpoint triggers: the address execution goes on at, the end
      of the block there, whether a callee is compiled, the calling context that is built, and the events
      counted since the last reading. */
  datatype Input = Input(next: nat, end: nat, compiled: bool, ctxt: nat, read: nat, place: Place)

  /** Where a sample or a trigger was seen: at no address, outside the selected compiled methods, at an
      address that cannot be made precise, or at an address inside a method. */
  datatype Place = Nowhere | Outside | Imprecise | Inside

  /** The stacks at the start of a sample: both tops are raised, and set to the bottom unless the first one is there. */
  function Entered(c: Core, ip: nat, sp: nat, i: Input): Core {
    Core([Watch(sp, false, ip)], [i.ctxt], 0, if c.top + 1 == 0 then c.cntTop + 1 else 0, 0, None)
  }

  /** A sample at `ip`, whose frame returns through `sp`. */
  function Sampled(code: Code, threshold: nat, c: Core, ip: nat, sp: nat, i: Input): Core {
    if i.place != Inside then c else Decode(code, threshold, Entered(c, ip, sp, i), ip, i.end)
  }

  /** The state in which decoding starts again. */
  function CallPushed(c: Core, sp: nat, i: Input): Core {
    c.(top := c.top + 1, cntTop := c.cntTop + 1, wp := c.wp + [Watch(sp, false, i.next)], ret := c.ret + [i.ctxt],
      pending := None)
  }

  /** A call that was followed has returned. */
  function Returned(c: Core): Core
    requires c.ret != []
  {
    c.(top := c.top - 1, cntTop := c.cntTop - 1, ret := Pop(c.ret), pending := None)
  }

  /** The states in which the source's stack accesses are defined and its assertions hold. */
  ghost predicate Safe(code: Code, threshold: nat, c: Core) {
    && c.pending.Some?
    && var w := c.pending.value;
       if w.callee == RUNTIME then Decodable(c)
       else if c.decoded >= threshold then c.ret != []
       else if w.exec then
         (match code(w.va).kind
          case Return => c.ret != [] && (c.wp == [] || Decodable(Returned(c)))
          case Plain => true
          case _ => Decodable(c))
       else c.top == 0
  }

  /** The pending watchpoint triggers. */
  function Triggered(code: Code, threshold: nat, c: Core, sp: nat, i: Input): Core
    requires Safe(code, threshold, c)
  {
    var w := c.pending.value;
    if i.place == Nowhere then c.(top := -1, cntTop := -1, pending := None)
    else if i.place == Outside then c.(top := c.top - 1, cntTop := c.cntTop - 1, pending := None)
    else if w.callee == RUNTIME then Decode(code, threshold, c.(pending := None), w.va, i.end)
    else if c.decoded >= threshold then
      var d := c.(top := c.top - 1, cntTop := c.cntTop - 1, ret := if i.place == Imprecise then c.ret else Pop(c.ret));
      if c.wp == [] then d.(pending := None) else d.(wp := Pop(c.wp), pending := Some(Last(c.wp)))
    else if w.exec then
      match code(w.va).kind
      case Return => if c.wp == [] then Returned(c) else Decode(code, threshold, Returned(c), i.next, i.end)
      case Exit => Decode(code, threshold, c.(pending := None), i.next, i.end)
      case Call =>
        if i.compiled then Decode(code, threshold, CallPushed(c, sp, i), i.next, i.end)
        else c.(pending := Some(Watch(w.va + code(w.va).length, true, RUNTIME)))
      case Jump(_) => Decode(code, threshold, c.(pending := None), i.next, i.end)
      case Plain => c.(pending := None)
    else c.(top := c.top - 1, cntTop := c.cntTop - 1, pending := None)
  }

  // ----- What the branches of the source do

  /** What is left of the stacks `wp` and `ret` when a block that starts at `ip` was followed to its end `t`: a return
      takes the top of the first stack, and its watchpoint names the callee found there, or, if that was the last one,
      gives it back and takes the calling context too; anything else is watched in the name of its block. */
  ghost predicate Armed(code: Code, ip: nat, t: nat, wp: seq<Watch>, ret: seq<nat>, decoded: nat, c: Core) {
    match code(t).kind
    case Return =>
      && |wp| > 0 && c.decoded == decoded && c.wp == wp[..|wp| - 1]
      && if |wp| == 1 then |ret| > 0 && c.ret == ret[..|ret| - 1] && c.pending == Some(wp[0])
         else c.ret == ret && c.pending == Some(Watch(t, true, wp[|wp| - 1].callee))
    case Call => c.wp == wp && c.ret == ret && c.decoded == decoded + 1 && c.pending == Some(Watch(t, true, ip))
    case _ => c.wp == wp && c.ret == ret && c.decoded == decoded && c.pending == Some(Watch(t, true, ip))
  }

  ghost predicate SameStacks(c: Core, d: Core) {
    d.wp == c.wp && d.ret == c.ret && d.decoded == c.decoded
  }

  ghost predicate TopsMoved(c: Core, d: Core, step: int) {
    d.top == c.top + step && d.cntTop == c.cntTop + step
  }

  lemma DecodeCases(code: Code, threshold: nat, c: Core, ip: nat, t: nat)
    requires Decodable(c)
    ensures var d := Decode(code, threshold, c, ip, t);
            && TopsMoved(c, d, 0)
            && if c.decoded < threshold then Armed(code, ip, t, c.wp, c.ret, c.decoded, d)
               else d.wp == c.wp[..|c.wp| - 1] && d.ret == c.ret && d.decoded == c.decoded
                    && d.pending == Some(c.wp[|c.wp| - 1])
  {
  }

  /** A watchpoint on the end of a block, below the threshold, instruction by instruction. */
  ghost predicate BranchDone(code: Code, c: Core, sp: nat, i: Input, d: Core)
    requires c.pending.Some?
  {
    var va := c.pending.value.va;
    match code(va).kind
    case Return =>
      && TopsMoved(c, d, -1) && |c.ret| > 0
      && if c.wp == [] then d.wp == [] && d.ret == c.ret[..|c.ret| - 1] && d.decoded == c.decoded && d.pending == None
         else Armed(code, i.next, i.end, c.wp, c.ret[..|c.ret| - 1], c.decoded, d)
    case Call =>
      if i.compiled then
        && TopsMoved(c, d, 1)
        && Armed(code, i.next, i.end, c.wp + [Watch(sp, false, i.next)], c.ret + [i.ctxt], c.decoded, d)
      else TopsMoved(c, d, 0) && SameStacks(c, d) && d.pending == Some(Watch(va + code(va).length, true, -3))
    case Plain => TopsMoved(c, d, 0) && SameStacks(c, d) && d.pending == None
    case _ => TopsMoved(c, d, 0) && Armed(code, i.next, i.end, c.wp, c.ret, c.decoded, d)
  }

  /** The watchpoint that was kept for the caller is set, if there is one. */
  ghost predicate FellBack(c: Core, d: Core) {
    if c.wp == [] then d.wp == [] && d.pending == None
    else d.wp == c.wp[..|c.wp| - 1] && d.pending == Some(c.wp[|c.wp| - 1])
  }

  /** Any watchpoint, in the order in which the source tells the cases apart. */
  ghost predicate TriggerDone(code: Code, threshold: nat, c: Core, sp: nat, i: Input, d: Core)
    requires c.pending.Some?
  {
    var w := c.pending.value;
    if i.place == Nowhere then d.top == d.cntTop == -1 && SameStacks(c, d) && d.pending == None
    else if i.place == Outside then TopsMoved(c, d, -1) && SameStacks(c, d) && d.pending == None
    else if w.callee == -3 then
      && TopsMoved(c, d, 0)
      && if c.decoded < threshold then Armed(code, w.va, i.end, c.wp, c.ret, c.decoded, d)
         else FellBack(c, d) && d.ret == c.ret && d.decoded == c.decoded
    else if c.decoded >= threshold then
      && TopsMoved(c, d, -1) && |c.ret| > 0 && d.decoded == c.decoded && FellBack(c, d)
      && d.ret == if i.place == Imprecise then c.ret else c.ret[..|c.ret| - 1]
    else if w.exec then BranchDone(code, c, sp, i, d)
    else TopsMoved(c, d, -1) && SameStacks(c, d) && d.pending == None
  }

  lemma TriggerCases(code: Code, threshold: nat, c: Core, sp: nat, i: Input)
    requires Safe(code, threshold, c)
    ensures TriggerDone(code, threshold, c, sp, i, Triggered(code, threshold, c, sp, i))
  {
    hide Decode, Armed;
    var w := c.pending.value;
    if w.callee == RUNTIME {
      DecodeCases(code, threshold, c.(pending := None), w.va, i.end);
    } else if c.decoded < threshold && w.exec {
      match code(w.va).kind {
        case Return => if c.wp != [] { DecodeCases(code, threshold, Returned(c), i.next, i.end); }
        case Call => if i.compiled { DecodeCases(code, threshold, CallPushed(c, sp, i), i.next, i.end); }
        case Plain =>
        case _ => DecodeCases(code, threshold, c.(pending := None), i.next, i.end);
      }
    }
  }

  /** A sample in a selected method: whatever was there before, the call sampled is the only one. */
  ghost predicate SampleDone(code: Code, threshold: nat, c: Core, ip: nat, sp: nat, i: Input, d: Core) {
    if i.place != Inside then d == c
    else
      && d.top == 0 && (c.top == c.cntTop ==> d.cntTop == 0)
      && if threshold > 0 then Armed(code, ip, i.end, [Watch(sp, false, ip)], [i.ctxt], 0, d)
         else d.wp == [] && d.ret == [i.ctxt] && d.decoded == 0 && d.pending == Some(Watch(sp, false, ip))
  }

  lemma SampleCases(code: Code, threshold: nat, c: Core, ip: nat, sp: nat, i: Input)
    ensures SampleDone(code, threshold, c, ip, sp, i, Sampled(code, threshold, c, ip, sp, i))
  {
    DecodeCases(code, threshold, Entered(c, ip, sp, i), ip, i.end);
  }

  // ----- What every step below the threshold keeps

  /** Watchpoints kept for later are on return addresses. */
  ghost predicate Kept(wp: seq<Watch>) {
    forall k :: 0 <= k < |wp| ==> !wp[k].exec && wp[k].callee != RUNTIME
  }

  /** The four stacks are in step. */
  ghost predicate InStep(c: Core) {
    |c.wp| == |c.ret| == c.top + 1 && c.cntTop == c.top && c.top >= 0 && Kept(c.wp) && c.top <= c.decoded
  }

  /** A call was decoded for every level and for the pending one. */
  ghost predicate InStepPending(code: Code, c: Core) {
    && c.cntTop == c.top <= c.decoded && c.top >= 0 && Kept(c.wp) && c.pending.Some?
    && var w := c.pending.value;
       if !w.exec then w.callee != RUNTIME && c.wp == [] && c.ret == [] && c.top == 0
       else if w.callee == RUNTIME then |c.wp| == |c.ret| == c.top + 1
       else match code(w.va).kind
            case Return => |c.wp| == c.top && |c.ret| == c.top + 1 && c.top > 0
            case Exit => |c.wp| == |c.ret| == c.top + 1
            case Call => |c.wp| == |c.ret| == c.top + 1 && c.top < c.decoded
            case _ => false
  }

  lemma DecodeKeeps(code: Code, threshold: nat, c: Core, ip: nat, t: nat, n: nat)
    requires InStep(c) && c.decoded < threshold && EndsAt(code, ip, t, n)
    ensures InStepPending(code, Decode(code, threshold, c, ip, t))
  {
    EndIsEnd(code, ip, t, n);
  }

  /** Where decoding goes on. */
  function From(c: Core, i: Input): nat
    requires c.pending.Some?
  {
    if c.pending.value.callee == RUNTIME then c.pending.value.va else i.next
  }

  /** The triggering watchpoint leads to code that is decoded. */
  predicate Decodes(code: Code, threshold: nat, c: Core, i: Input)
    requires c.pending.Some?
  {
    var w := c.pending.value;
    && c.decoded < threshold && i.place in {Imprecise, Inside}
    && (w.callee == RUNTIME
        || (w.exec && match code(w.va).kind
                      case Return => c.wp != []
                      case Call => i.compiled
                      case Plain => false
                      case _ => true))
  }

  /** The machine's answer fits the pending watchpoint. */
  ghost predicate Fits(code: Code, threshold: nat, c: Core, i: Input) {
    && c.pending.Some? && i.place == Inside
    && (Decodes(code, threshold, c, i) ==> exists n :: EndsAt(code, From(c, i), i.end, n))
  }

  lemma TriggerKeeps(code: Code, threshold: nat, c: Core, sp: nat, i: Input)
    requires InStepPending(code, c) && c.decoded < threshold && Fits(code, threshold, c, i)
    ensures Safe(code, threshold, c)
    ensures var d := Triggered(code, threshold, c, sp, i);
            if c.pending.value.exec then InStepPending(code, d)
            else d.pending.None? && d.wp == [] && d.ret == [] && d.top == d.cntTop == -1
  {
    var w := c.pending.value;
    if w.exec {
      if Decodes(code, threshold, c, i) {
        var ip := From(c, i);
        var n :| EndsAt(code, ip, i.end, n);
        if w.callee == RUNTIME || code(w.va).kind == Exit {
          DecodeKeeps(code, threshold, c.(pending := None), ip, i.end, n);
        } else if code(w.va).kind == Return {
          DecodeKeeps(code, threshold, Returned(c), ip, i.end, n);
        } else {
          DecodeKeeps(code, threshold, CallPushed(c, sp, i), ip, i.end, n);
        }
      }
    }
  }

  // ----- Runs

  datatype Event = Sample(ip: nat, sp: nat, i: Input) | Trigger(sp: nat, i: Input)

  /** A run of one sample; `None` if an answer does not fit. */
  ghost function Run(code: Code, threshold: nat, start: Core, run: seq<Event>): Option<Core> {
    if run == [] then None
    else
      var e := run[|run| - 1];
      if |run| == 1 then
        if e.Sample? && e.i.place == Inside && exists n :: EndsAt(code, e.ip, e.i.end, n) then
          Some(Sampled(code, threshold, start, e.ip, e.sp, e.i))
        else None
      else
        match Run(code, threshold, start, run[..|run| - 1])
        case None => None
        case Some(c) => if e.Trigger? && Fits(code, threshold, c, e.i) && Safe(code, threshold, c) then
          Some(Triggered(code, threshold, c, e.sp, e.i))
        else None
  }

  /** Below the threshold until the last step. */
  ghost predicate Below(code: Code, threshold: nat, start: Core, run: seq<Event>) {
    threshold > 0 && forall k :: 0 < k < |run| && Run(code, threshold, start, run[..k]).Some? ==>
      Run(code, threshold, start, run[..k]).value.decoded < threshold
  }

  /** In every run below the threshold, whatever an earlier sample left behind, the stacks stay in step until
      the last return has emptied them. */
  lemma {:induction false} RunKeeps(code: Code, threshold: nat, start: Core, run: seq<Event>)
    requires start.top == start.cntTop && Below(code, threshold, start, run) && Run(code, threshold, start, run).Some?
    ensures var c := Run(code, threshold, start, run).value;
            InStepPending(code, c) || (c.pending.None? && c.wp == [] && c.ret == [] && c.top == c.cntTop == -1)
  {
    var e := run[|run| - 1];
    if |run| == 1 {
      var n :| EndsAt(code, e.ip, e.i.end, n);
      DecodeKeeps(code, threshold, Entered(start, e.ip, e.sp, e.i), e.ip, e.i.end, n);
    } else {
      var before := run[..|run| - 1];
      assert forall k :: 0 < k < |before| ==> before[..k] == run[..k];
      RunKeeps(code, threshold, start, before);
      TriggerKeeps(code, threshold, Run(code, threshold, start, before).value, e.sp, e.i);
    }
  }

  const MAX_STACK: nat := 64

  /** No step below the threshold fails, and with a threshold of at most 64 no level lies outside the arrays. */
  lemma RunIsSafe(code: Code, threshold: nat, start: Core, run: seq<Event>, sp: nat, i: Input)
    requires start.top == start.cntTop && Below(code, threshold, start, run) && Run(code, threshold, start, run).Some?
    requires var c := Run(code, threshold, start, run).value;
             c.decoded < threshold && c.pending.Some? && Fits(code, threshold, c, i)
    ensures var c := Run(code, threshold, start, run).value;
            && Safe(code, threshold, c)
            && (!c.pending.value.exec ==> c.top == 0)
            && (threshold <= MAX_STACK ==> InArrays(code, threshold, c, i))
  {
    RunKeeps(code, threshold, start, run);
    TriggerKeeps(code, threshold, Run(code, threshold, start, run).value, sp, i);
  }

  // ----- The stacks are the open calls

  /** A call that was sampled or followed: where its return address lies, where its code starts, and its context. */
  datatype Frame = Frame(sp: nat, entry: nat, ctxt: nat)

  /** The calls that are open after a run, outer ones first. */
  ghost function Frames(code: Code, threshold: nat, start: Core, run: seq<Event>): seq<Frame>
    requires Run(code, threshold, start, run).Some?
  {
    var e := run[|run| - 1];
    if |run| == 1 then [Frame(e.sp, e.ip, e.i.ctxt)]
    else
      var before := run[..|run| - 1];
      var c, fs := Run(code, threshold, start, before).value, Frames(code, threshold, start, before);
      if Follows(code, threshold, c, e.i) then fs + [Frame(e.sp, e.i.next, e.i.ctxt)]
      else if Concludes(code, threshold, c) && fs != [] then fs[..|fs| - 1]
      else fs
  }

  /** The watchpoints kept are on the return addresses of open calls and the contexts kept are theirs. The pending
      watchpoint is on the return address of the outermost call, or behind a call into the runtime, or on the return
      of the innermost call, or on the end of the block in whose name it was set. */
  ghost predicate OnFrames(code: Code, c: Core, fs: seq<Frame>) {
    && |c.wp| <= |fs| && |c.ret| <= |fs|
    && (forall k :: 0 <= k < |c.wp| ==> c.wp[k] == Watch(fs[k].sp, false, fs[k].entry))
    && (forall k :: 0 <= k < |c.ret| ==> c.ret[k] == fs[k].ctxt)
    && c.top + 1 == |fs|
    && (c.pending.Some? ==> PendingOn(code, c.pending.value, fs))
  }

  ghost predicate PendingOn(code: Code, w: Watch, fs: seq<Frame>) {
    if !w.exec then |fs| == 1 && w == Watch(fs[0].sp, false, fs[0].entry)
    else if w.callee == -3 then exists q: nat :: code(q).kind == Call && w.va == q + code(q).length
    else if code(w.va).kind == Return then |fs| > 1 && w.callee == fs[|fs| - 1].entry
    else w.callee >= 0 && exists n :: EndsAt(code, w.callee, w.va, n)
  }

  lemma DecodeOnFrames(code: Code, threshold: nat, c: Core, ip: nat, t: nat, n: nat, fs: seq<Frame>)
    requires InStep(c) && c.decoded < threshold && EndsAt(code, ip, t, n) && OnFrames(code, c.(pending := None), fs)
    ensures OnFrames(code, Decode(code, threshold, c, ip, t), fs)
  {
    EndIsEnd(code, ip, t, n);
  }

  /** In every run below the threshold the stacks hold exactly the calls that are open. */
  lemma {:induction false} RunFrames(code: Code, threshold: nat, start: Core, run: seq<Event>)
    requires start.top == start.cntTop && Below(code, threshold, start, run) && Run(code, threshold, start, run).Some?
    ensures OnFrames(code, Run(code, threshold, start, run).value, Frames(code, threshold, start, run))
  {
    var e := run[|run| - 1];
    if |run| == 1 {
      var n :| EndsAt(code, e.ip, e.i.end, n);
      DecodeOnFrames(code, threshold, Entered(start, e.ip, e.sp, e.i), e.ip, e.i.end, n,
                     Frames(code, threshold, start, run));
    } else {
      var before := run[..|run| - 1];
      assert forall k :: 0 < k < |before| ==> before[..k] == run[..k];
      RunFrames(code, threshold, start, before);
      RunKeeps(code, threshold, start, before);
      TriggerOnFrames(code, threshold, Run(code, threshold, start, before).value, e.sp, e.i,
                      Frames(code, threshold, start, before));
    }
  }

  lemma TriggerOnFrames(code: Code, threshold: nat, c: Core, sp: nat, i: Input, fs: seq<Frame>)
    requires InStepPending(code, c) && c.decoded < threshold && Fits(code, threshold, c, i) && OnFrames(code, c, fs)
    requires Safe(code, threshold, c)
    ensures OnFrames(code, Triggered(code, threshold, c, sp, i),
                     if Follows(code, threshold, c, i) then fs + [Frame(sp, i.next, i.ctxt)]
                     else if Concludes(code, threshold, c) && fs != [] then fs[..|fs| - 1]
                     else fs)
  {
    var w := c.pending.value;
    if Decodes(code, threshold, c, i) {
      var n :| EndsAt(code, From(c, i), i.end, n);
      if w.callee == RUNTIME || code(w.va).kind == Exit {
        DecodeOnFrames(code, threshold, c.(pending := None), From(c, i), i.end, n, fs);
      } else if code(w.va).kind == Return {
        DecodeOnFrames(code, threshold, Returned(c), i.next, i.end, n, fs[..|fs| - 1]);
      } else {
        DecodeOnFrames(code, threshold, CallPushed(c, sp, i), i.next, i.end, n, fs + [Frame(sp, i.next, i.ctxt)]);
      }
    }
  }

  // ----- What the counters say

  /** Per level, the count at which its call began, and what was counted for it. */
  datatype Meter = Meter(start: seq<int>, count: seq<int>)

  ghost predicate Whole(m: Meter) {
    |m.start| == |m.count| == MAX_STACK
  }

  /** A call began: its caller gets the reading. */
  function Began(m: Meter, top: nat, read: nat): Meter
    requires Whole(m) && top < MAX_STACK - 1
  {
    var count := m.count[top] + read;
    Meter(m.start[top + 1 := m.start[top] + count], m.count[top := count][top + 1 := 0])
  }

  /** The call on top is over: it gets the reading, and so does its caller. The next sample begins
      where the outermost call ended. */
  function Over(m: Meter, top: nat, read: nat): Meter
    requires Whole(m) && top < MAX_STACK
  {
    if top == 0 then Meter(m.start[0 := m.start[0] + (m.count[0] + read)], m.count[0 := m.count[0] + read])
    else Meter(m.start, m.count[top := m.count[top] + read][top - 1 := m.count[top - 1] + read])
  }

  /** What a triggering watchpoint makes of the counters. */
  function Metered(code: Code, threshold: nat, m: Meter, c: Core, i: Input): Meter
    requires Whole(m) && c.pending.Some? && InArrays(code, threshold, c, i)
  {
    var w := c.pending.value;
    if i.place == Nowhere || i.place == Outside || w.callee == RUNTIME then m
    else if w.exec && c.decoded < threshold && code(w.va).kind != Return then
      if code(w.va).kind == Call && i.compiled then Began(m, c.top, i.read) else m
    else if i.place == Imprecise && (c.decoded >= threshold || !w.exec) then m
    else Over(m, c.top, i.read)
  }

  /** The three things that can happen to the counters, and when. */
  lemma MeteredCases(code: Code, threshold: nat, m: Meter, c: Core, i: Input)
    requires Whole(m) && c.pending.Some? && InArrays(code, threshold, c, i)
    ensures var m', w := Metered(code, threshold, m, c, i), c.pending.value;
            if i.place in {Nowhere, Outside} || w.callee == -3 then m' == m
            else if c.decoded >= threshold || !w.exec then
              if i.place == Imprecise then m' == m else LevelEnded(m, c.top, i.read, m')
            else match code(w.va).kind
                 case Return => LevelEnded(m, c.top, i.read, m')
                 case Call => if i.compiled then LevelStarted(m, c.top, i.read, m') else m' == m
                 case _ => m' == m
  {
  }

  /** The level and the one below it grow by the reading, and the outermost start moves to the end. */
  ghost predicate LevelEnded(m: Meter, top: int, read: nat, m': Meter) {
    && Whole(m) && Whole(m') && 0 <= top < MAX_STACK
    && (forall k :: 0 <= k < MAX_STACK ==> m'.count[k] == m.count[k] + if k == top || k == top - 1 then read else 0)
    && (forall k :: 0 < k < MAX_STACK ==> m'.start[k] == m.start[k])
    && m'.start[0] == m.start[0] + if top == 0 then m'.count[0] else 0
  }

  /** The caller grows by the reading, and the callee starts from zero where the caller has got to. */
  ghost predicate LevelStarted(m: Meter, top: int, read: nat, m': Meter) {
    && Whole(m) && Whole(m') && 0 <= top < MAX_STACK - 1
    && m'.count[top] == m.count[top] + read && m'.count[top + 1] == 0 &&
       m'.start[top + 1] == m'.start[top] + m'.count[top]
    && (forall k :: 0 <= k < MAX_STACK && k != top + 1 ==> m'.start[k] == m.start[k])
    && forall k :: 0 <= k < MAX_STACK && k != top && k != top + 1 ==> m'.count[k] == m.count[k]
  }

  /** The counters after a run, if it stayed inside the arrays. */
  ghost function MeterRun(code: Code, threshold: nat, start: Core, m: Meter, run: seq<Event>): Option<Meter>
    requires Whole(m)
    ensures MeterRun(code, threshold, start, m, run).Some? ==> Whole(MeterRun(code, threshold, start, m, run).value)
  {
    if run == [] then None
    else if |run| == 1 then Some(m.(count := m.count[0 := 0]))
    else
      var before, i := run[..|run| - 1], run[|run| - 1].i;
      match (Run(code, threshold, start, before), MeterRun(code, threshold, start, m, before))
      case (Some(c), Some(m1)) =>
        if c.pending.Some? && InArrays(code, threshold, c, i) then Some(Metered(code, threshold, m1, c, i)) else None
      case _ => None
  }

  /** Every call that is followed began where its caller's interval has got to, and stays there until it is over. */
  ghost predicate Abuts(m: Meter, top: int) {
    && Whole(m) && top < MAX_STACK && (forall k :: 0 <= k <= top ==> m.count[k] >= 0)
    && forall k {:trigger m.count[k]} :: 0 <= k < top ==> m.start[k + 1] == m.start[k] + m.count[k]
  }

  lemma {:induction false} RunAbuts(code: Code, threshold: nat, start: Core, m: Meter, run: seq<Event>)
    requires start.top == start.cntTop && Whole(m) && threshold <= MAX_STACK
    requires Below(code, threshold, start, run) && Run(code, threshold, start, run).Some?
    ensures MeterRun(code, threshold, start, m, run).Some?
    ensures Abuts(MeterRun(code, threshold, start, m, run).value, Run(code, threshold, start, run).value.top)
  {
    RunKeeps(code, threshold, start, run);
    if |run| > 1 {
      var before, e := run[..|run| - 1], run[|run| - 1];
      assert forall k :: 0 < k < |before| ==> before[..k] == run[..k];
      RunAbuts(code, threshold, start, m, before);
      RunKeeps(code, threshold, start, before);
      RunIsSafe(code, threshold, start, before, e.sp, e.i);
      TriggerMeters(code, threshold, MeterRun(code, threshold, start, m, before).value,
        Run(code, threshold, start, before).value, e.sp, e.i);
    }
  }

  lemma TriggerMeters(code: Code, threshold: nat, m: Meter, c: Core, sp: nat, i: Input)
    requires InStepPending(code, c) && c.decoded < threshold && Safe(code, threshold, c) &&
             InArrays(code, threshold, c, i)
    requires Abuts(m, c.top)
    ensures Abuts(Metered(code, threshold, m, c, i), Triggered(code, threshold, c, sp, i).top)
  {
    if 0 <= c.top < MAX_STACK - 1 { LevelBegan(m, c.top, i.read); }
    LevelOver(m, c.top, i.read);
    hide Abuts, Began, Over;
  }

  lemma LevelBegan(m: Meter, top: nat, read: nat)
    requires Abuts(m, top) && top < MAX_STACK - 1
    ensures Abuts(Began(m, top, read), top + 1)
  {
  }

  lemma LevelOver(m: Meter, top: nat, read: nat)
    requires Abuts(m, top)
    ensures Abuts(Over(m, top, read), top - 1)
  {
  }

  // ----- When the recorded intervals are nested

  /** The call on top is followed into a compiled callee. */
  predicate Follows(code: Code, threshold: nat, c: Core, i: Input) {
    && c.pending.Some? && c.pending.value.callee != RUNTIME && c.pending.value.exec && c.decoded < threshold
    && code(c.pending.value.va).kind == Call && i.compiled
  }

  /** The call on top ends. */
  predicate Concludes(code: Code, threshold: nat, c: Core) {
    && c.pending.Some? && c.pending.value.callee != RUNTIME
    && (!c.pending.value.exec || c.decoded >= threshold || code(c.pending.value.va).kind == Return)
  }

  /** What of a reading is counted for the call at `level`. */
  function Credit(code: Code, threshold: nat, c: Core, i: Input, level: nat): nat {
    if Follows(code, threshold, c, i) then (if c.top == level then i.read else 0)
    else if Concludes(code, threshold, c) then (if c.top == level || c.top == level + 1 then i.read else 0)
    else 0
  }

  lemma CreditCounted(code: Code, threshold: nat, m: Meter, c: Core, sp: nat, i: Input, level: nat)
    requires Safe(code, threshold, c) && InArrays(code, threshold, c, i) && c.decoded < threshold &&
             InStepPending(code, c)
    requires Whole(m) && level <= c.top < MAX_STACK && i.place == Inside
    ensures var m' := Metered(code, threshold, m, c, i);
            && m'.count[level] == m.count[level] + Credit(code, threshold, c, i, level)
            && (Triggered(code, threshold, c, sp, i).top >= level ==> m'.start[level] == m.start[level])
  {
  }

  /** A run of one sample with its counters. */
  datatype Trace = Trace(code: Code, threshold: nat, start: Core, m0: Meter, run: seq<Event>)

  ghost predicate Recorded(s: Trace) {
    && s.start.top == s.start.cntTop && Whole(s.m0) && s.threshold <= MAX_STACK
    && Below(s.code, s.threshold, s.start, s.run) && Run(s.code, s.threshold, s.start, s.run).Some?
  }

  lemma {:induction false} RecordedBefore(s: Trace, n: nat)
    requires Recorded(s) && 0 < n <= |s.run|
    ensures Recorded(s.(run := s.run[..n]))
    decreases |s.run|
  {
    if n < |s.run| {
      var r := s.run[..|s.run| - 1];
      assert forall k :: 0 < k < |r| ==> r[..k] == s.run[..k];
      assert r[..n] == s.run[..n];
      RecordedBefore(s.(run := r), n);
    } else {
      assert s.run[..n] == s.run;
    }
  }

  /** Before event `n`. */
  ghost function CoreAt(s: Trace, n: nat): (c: Core)
    requires Recorded(s) && 0 < n <= |s.run|
  {
    RecordedBefore(s, n);
    Run(s.code, s.threshold, s.start, s.run[..n]).value
  }

  ghost function MeterAt(s: Trace, n: nat): (m: Meter)
    requires Recorded(s) && 0 < n <= |s.run|
    ensures Abuts(m, CoreAt(s, n).top)
  {
    RecordedBefore(s, n);
    RunAbuts(s.code, s.threshold, s.start, s.m0, s.run[..n]);
    MeterRun(s.code, s.threshold, s.start, s.m0, s.run[..n]).value
  }

  lemma Stepped(s: Trace, n: nat)
    requires Recorded(s) && 0 < n < |s.run|
    ensures var c, e := CoreAt(s, n), s.run[n];
            && e.i.place == Inside && InStepPending(s.code, c) && c.decoded < s.threshold &&
               Safe(s.code, s.threshold, c) && InArrays(s.code, s.threshold, c, e.i)
            && CoreAt(s, n + 1) == Triggered(s.code, s.threshold, c, e.sp, e.i)
            && MeterAt(s, n + 1) == Metered(s.code, s.threshold, MeterAt(s, n), c, e.i)
  {
    var before, after := s.run[..n], s.run[..n + 1];
    RecordedBefore(s, n);
    RecordedBefore(s, n + 1);
    assert after[..|after| - 1] == before && after[n] == s.run[n];
    RunKeeps(s.code, s.threshold, s.start, before);
    RunAbuts(s.code, s.threshold, s.start, s.m0, before);
    RunAbuts(s.code, s.threshold, s.start, s.m0, after);
    RunIsSafe(s.code, s.threshold, s.start, before, s.run[n].sp, s.run[n].i);
  }

  /** What the call at `level` is credited with by the events from `from` up to, but not including, `end`. */
  ghost function Credited(s: Trace, level: nat, from: nat, end: nat): nat
    requires Recorded(s) && 0 < from <= end <= |s.run|
  {
    if from == end then 0
    else Credited(s, level, from, end - 1) + Credit(s.code, s.threshold, CoreAt(s, end - 1), s.run[end - 1].i, level)
  }

  ghost predicate StaysOpen(s: Trace, level: nat, from: nat, end: nat)
    requires Recorded(s) && 0 < from <= end <= |s.run|
  {
    forall j :: from <= j <= end ==> CoreAt(s, j).top >= level
  }

  lemma TopInArrays(s: Trace, n: nat)
    requires Recorded(s) && 0 < n <= |s.run|
    ensures Whole(MeterAt(s, n)) && CoreAt(s, n).top < MAX_STACK
  {
    assert Abuts(MeterAt(s, n), CoreAt(s, n).top);
  }

  /** What is counted for the call at `level`, and where it began, before event `n`. */
  ghost function LevelAt(s: Trace, level: nat, n: nat): (r: (int, int))
    requires Recorded(s) && 0 < n <= |s.run|
  {
    if level < MAX_STACK then (MeterAt(s, n).count[level], MeterAt(s, n).start[level]) else (0, 0)
  }

  lemma CreditStep(s: Trace, level: nat, n: nat)
    requires Recorded(s) && 0 < n < |s.run| && level <= CoreAt(s, n).top && level <= CoreAt(s, n + 1).top
    ensures LevelAt(s, level, n + 1).0 ==
            LevelAt(s, level, n).0 + Credit(s.code, s.threshold, CoreAt(s, n), s.run[n].i, level)
    ensures LevelAt(s, level, n + 1).1 == LevelAt(s, level, n).1
  {
    TopInArrays(s, n);
    TopInArrays(s, n + 1);
    Stepped(s, n);
    var c, e := CoreAt(s, n), s.run[n];
    hide Abuts, CoreAt, MeterAt, Recorded, Metered, Triggered, Credit, Safe, InArrays, InStepPending;
    CreditCounted(s.code, s.threshold, MeterAt(s, n), c, e.sp, e.i, level);
  }

  lemma {:induction false} CreditsAddUp(s: Trace, level: nat, from: nat, end: nat)
    requires Recorded(s) && 0 < from <= end < |s.run| && StaysOpen(s, level, from, end)
    ensures level < MAX_STACK
    ensures LevelAt(s, level, end).0 == LevelAt(s, level, from).0 + Credited(s, level, from, end)
    ensures LevelAt(s, level, end).1 == LevelAt(s, level, from).1
    decreases end
  {
    hide LevelAt, CoreAt, Recorded, Abuts, Credit;
    TopInArrays(s, end);
    if end > from {
      CreditsAddUp(s, level, from, end - 1);
      CreditStep(s, level, end - 1);
    }
  }

  /** How far the call at `level` has got when event `n` is counted for it: the end recorded for it if
      the event ends it, the start of its callee if the event is a call. */
  ghost function ReachedAt(s: Trace, level: nat, n: nat): int
    requires Recorded(s) && 0 < n <= |s.run| && n < |s.run| && level < MAX_STACK
  {
    MeterAt(s, n).start[level] + MeterAt(s, n).count[level] + s.run[n].i.read
  }

  /** Event `j` calls from `level`, event `k` ends the call, and event `n` ends the caller. */
  ghost predicate CallInCaller(s: Trace, level: nat, j: nat, k: nat, n: nat) {
    && Recorded(s) && 0 < j < k < n < |s.run|
    && CoreAt(s, j).top == level && Follows(s.code, s.threshold, CoreAt(s, j), s.run[j].i)
    && StaysOpen(s, level + 1, j + 1, k) && CoreAt(s, k).top == level + 1 &&
       Concludes(s.code, s.threshold, CoreAt(s, k))
    && StaysOpen(s, level, k + 1, n) && CoreAt(s, n).top == level && Concludes(s.code, s.threshold, CoreAt(s, n))
  }

  /** At its return, a call lies inside what its caller has counted so far exactly when nothing was
      counted for it before its last reading. */
  lemma ReturnInsideIff(s: Trace, k: nat)
    requires Recorded(s) && 0 < k < |s.run| && CoreAt(s, k).top > 0 && Concludes(s.code, s.threshold, CoreAt(s, k))
    ensures var top, m := CoreAt(s, k).top, MeterAt(s, k + 1);
            && 0 < top < MAX_STACK && m.start[top] + m.count[top] == ReachedAt(s, top, k)
            && (m.start[top] + m.count[top] <= m.start[top - 1] + m.count[top - 1] <==> MeterAt(s, k).count[top] == 0)
  {
    Stepped(s, k);
  }

  /** Wherever the caller gets to later, its callee has ended by then exactly if what the callee had counted
      before its last reading is at most what the caller was credited with since. */
  lemma EndedByIff(s: Trace, level: nat, k: nat, n: nat)
    requires Recorded(s) && 0 < k < n < |s.run|
    requires CoreAt(s, k).top == level + 1 && Concludes(s.code, s.threshold, CoreAt(s, k)) &&
             StaysOpen(s, level, k + 1, n)
    ensures level + 1 < MAX_STACK && MeterAt(s, n).start[level] <= MeterAt(s, k).start[level + 1]
    ensures ReachedAt(s, level + 1, k) <= ReachedAt(s, level, n)
            <==> MeterAt(s, k).count[level + 1] <= Credited(s, level, k + 1, n) + s.run[n].i.read
  {
    Stepped(s, k);
    var c, e := CoreAt(s, k), s.run[k];
    CreditCounted(s.code, s.threshold, MeterAt(s, k), c, e.sp, e.i, level);
    CreditsAddUp(s, level, k + 1, n);
    assert Credit(s.code, s.threshold, c, e.i, level) == e.i.read;
    assert CoreAt(s, k + 1).top >= level;
  }

  /** What was counted for a call since it was made. */
  lemma CountedSinceCall(s: Trace, level: nat, j: nat, k: nat)
    requires Recorded(s) && 0 < j < k < |s.run| && CoreAt(s, j).top == level &&
             Follows(s.code, s.threshold, CoreAt(s, j), s.run[j].i)
    requires StaysOpen(s, level + 1, j + 1, k)
    ensures level + 1 < MAX_STACK
    ensures MeterAt(s, k).start[level + 1] == ReachedAt(s, level, j)
    ensures MeterAt(s, k).count[level + 1] == Credited(s, level + 1, j + 1, k)
  {
    Stepped(s, j);
    CreditsAddUp(s, level + 1, j + 1, k);
  }

  /** The interval recorded for a call lies inside its caller's. */
  ghost predicate NestedCall(s: Trace, level: nat, k: nat, n: nat)
    requires Recorded(s) && 0 < k < n < |s.run| && level + 1 < MAX_STACK
  {
    MeterAt(s, n).start[level] <= MeterAt(s, k).start[level + 1] && ReachedAt(s, level + 1, k) <= ReachedAt(s, level, n)
  }

  /** Recorded intervals are nested exactly when each call was credited with no more before its last reading than its
      caller was after it. */
  lemma NestedIff(s: Trace, level: nat, j: nat, k: nat, n: nat)
    requires CallInCaller(s, level, j, k, n)
    ensures level + 1 < MAX_STACK
    ensures NestedCall(s, level, k, n) <==> Credited(s, level + 1, j + 1, k) <= Credited(s, level, k + 1, n + 1)
  {
    CountedSinceCall(s, level, j, k);
    EndedByIff(s, level, k, n);
    assert Credited(s, level, k + 1, n + 1) == Credited(s, level, k + 1, n) + s.run[n].i.read;
  }

  /** The run stays below the threshold, and this is where it gets to. */
  ghost predicate Reaches(code: Code, threshold: nat, start: Core, m0: Meter, run: seq<Event>, c: Core, m: Meter) {
    && Whole(m0) && Whole(m) && Below(code, threshold, start, run)
    && Run(code, threshold, start, run) == Some(c) && MeterRun(code, threshold, start, m0, run) == Some(m)
  }

  lemma OneMore(code: Code, threshold: nat, start: Core, m0: Meter, run: seq<Event>, c: Core, m: Meter, e: Event,
                n: nat)
    requires Reaches(code, threshold, start, m0, run, c, m) && e.Trigger? && e.i.place == Inside &&
             c.decoded < threshold
    requires c.pending.Some? && (Decodes(code, threshold, c, e.i) ==> EndsAt(code, From(c, e.i), e.i.end, n)) &&
             Safe(code, threshold, c) && InArrays(code, threshold, c, e.i)
    ensures Reaches(code, threshold, start, m0, run + [e], Triggered(code, threshold, c, e.sp, e.i),
            Metered(code, threshold, m, c, e.i))
  {
    assert (run + [e])[..|run|] == run;
    assert forall k :: 0 < k < |run| ==> (run + [e])[..k] == run[..k];
  }

  /** The call at 0 calls the code at 10, which calls the code at 20. */
  const NESTED: Code := (ip: nat) => Instr(if ip == 0 || ip == 10 then Call else Return, 1)
  const QUIET := Core([], [], -1, -1, 0, None)
  const ZEROS := Meter(seq(MAX_STACK, _ => 0), seq(MAX_STACK, _ => 0))

  /** The start and the count of the two outer levels. */
  ghost predicate Shows(m: Meter, s0: int, c0: int, s1: int, c1: int) {
    Whole(m) && m.start[0] == s0 && m.count[0] == c0 && m.start[1] == s1 && m.count[1] == c1
  }

  lemma OneSample() returns (run: seq<Event>, m: Meter)
    ensures Reaches(NESTED, MAX_STACK, QUIET, ZEROS, run,
            Core([Watch(9, false, 0)], [0], 0, 0, 1, Some(Watch(0, true, 0))), m)
    ensures Shows(m, 0, 0, 0, 0) && m.count[2] == 0
  {
    assert EndsAt(NESTED, 0, 0, 0);
    run, m := [Sample(0, 9, Input(0, 0, true, 0, 0, Inside))], ZEROS;
    assert ZEROS.count[0 := 0] == ZEROS.count;
  }

  /** The call at 0 is followed. */
  lemma OneCall() returns (run: seq<Event>, m: Meter)
    ensures Reaches(NESTED, MAX_STACK, QUIET, ZEROS, run,
            Core([Watch(9, false, 0), Watch(8, false, 10)], [0, 1], 1, 1, 2, Some(Watch(10, true, 10))), m)
    ensures Shows(m, 0, 1, 1, 0) && m.count[2] == 0
  {
    assert EndsAt(NESTED, 10, 10, 0);
    run, m := OneSample();
    hide Run, MeterRun, Below, Reaches;
    var c := Core([Watch(9, false, 0)], [0], 0, 0, 1, Some(Watch(0, true, 0)));
    var e := Trigger(8, Input(10, 10, true, 1, 1, Inside));
    OneMore(NESTED, MAX_STACK, QUIET, ZEROS, run, c, m, e, 0);
    run, c, m := run + [e], Triggered(NESTED, MAX_STACK, c, e.sp, e.i), Metered(NESTED, MAX_STACK, m, c, e.i);
    assert c == Core([Watch(9, false, 0), Watch(8, false, 10)], [0, 1], 1, 1, 2, Some(Watch(10, true, 10)));
  }

  /** The call at 10 is followed. */
  lemma TwoCalls() returns (run: seq<Event>, m: Meter)
    ensures Reaches(NESTED, MAX_STACK, QUIET, ZEROS, run,
            Core([Watch(9, false, 0), Watch(8, false, 10)], [0, 1, 2], 2, 2, 2, Some(Watch(20, true, 20))), m)
    ensures Shows(m, 0, 1, 1, 1) && m.count[2] == 0
  {
    assert EndsAt(NESTED, 20, 20, 0);
    run, m := OneCall();
    hide Run, MeterRun, Below, Reaches;
    var c := Core([Watch(9, false, 0), Watch(8, false, 10)], [0, 1], 1, 1, 2, Some(Watch(10, true, 10)));
    var e := Trigger(7, Input(20, 20, true, 2, 1, Inside));
    OneMore(NESTED, MAX_STACK, QUIET, ZEROS, run, c, m, e, 0);
    CallFollowed();
    assert [0, 1] + [2] == [0, 1, 2];
    hide Triggered, EndsAt;
    run, m := run + [e], Metered(NESTED, MAX_STACK, m, c, e.i);
  }

  lemma CallFollowed()
    ensures var c := Core([Watch(9, false, 0), Watch(8, false, 10)], [0, 1], 1, 1, 2, Some(Watch(10, true, 10)));
            Triggered(NESTED, MAX_STACK, c, 7, Input(20, 20, true, 2, 1, Inside))
            == Core([Watch(9, false, 0), Watch(8, false, 10)], [0, 1, 2], 2, 2, 2, Some(Watch(20, true, 20)))
  {
  }

  /** The code at 20 has returned. */
  lemma OneReturn() returns (run: seq<Event>, m: Meter)
    ensures Reaches(NESTED, MAX_STACK, QUIET, ZEROS, run,
            Core([Watch(9, false, 0)], [0, 1], 1, 1, 2, Some(Watch(11, true, 10))), m)
    ensures Shows(m, 0, 1, 1, 2)
  {
    assert EndsAt(NESTED, 11, 11, 0);
    run, m := TwoCalls();
    hide Run, MeterRun, Below, Reaches;
    var c := Core([Watch(9, false, 0), Watch(8, false, 10)], [0, 1, 2], 2, 2, 2, Some(Watch(20, true, 20)));
    var e := Trigger(7, Input(11, 11, true, 0, 1, Inside));
    OneMore(NESTED, MAX_STACK, QUIET, ZEROS, run, c, m, e, 0);
    run, c, m := run + [e], Triggered(NESTED, MAX_STACK, c, e.sp, e.i), Metered(NESTED, MAX_STACK, m, c, e.i);
    assert c == Core([Watch(9, false, 0)], [0, 1], 1, 1, 2, Some(Watch(11, true, 10)));
  }

  /** The code at 10 has returned; it counted from 1 to 4. */
  lemma TwoReturns() returns (run: seq<Event>, m: Meter)
    ensures Reaches(NESTED, MAX_STACK, QUIET, ZEROS, run, Core([], [], 0, 0, 2, Some(Watch(9, false, 0))), m)
    ensures Shows(m, 0, 2, 1, 3)
  {
    assert EndsAt(NESTED, 1, 1, 0);
    run, m := OneReturn();
    hide Run, MeterRun, Below, Reaches;
    var c := Core([Watch(9, false, 0)], [0, 1], 1, 1, 2, Some(Watch(11, true, 10)));
    var e := Trigger(8, Input(1, 1, true, 0, 1, Inside));
    OneMore(NESTED, MAX_STACK, QUIET, ZEROS, run, c, m, e, 0);
    run, c, m := run + [e], Triggered(NESTED, MAX_STACK, c, e.sp, e.i), Metered(NESTED, MAX_STACK, m, c, e.i);
    assert c == Core([], [], 0, 0, 2, Some(Watch(9, false, 0)));
  }

  /** The callee at 10 counts from 1 to 4; its caller, which began before it and ends after it, from 0 to 2. */
  lemma CalleeOutlastsCaller() returns (run: seq<Event>, last: Event, c: Core, before: Meter, d: Core, after: Meter)
    ensures Reaches(NESTED, MAX_STACK, QUIET, ZEROS, run, c, before) && c.top == 0
    ensures Reaches(NESTED, MAX_STACK, QUIET, ZEROS, run + [last], d, after) && d.top == -1
    ensures before.start[1] + before.count[1] == 4 && after.start[0] == 2
  {
    assert EndsAt(NESTED, 1, 1, 0);
    run, before := TwoReturns();
    hide Run, MeterRun, Below, Reaches;
    c, last := Core([], [], 0, 0, 2, Some(Watch(9, false, 0))), Trigger(9, Input(1, 1, true, 0, 0, Inside));
    OneMore(NESTED, MAX_STACK, QUIET, ZEROS, run, c, before, last, 0);
    d, after := Triggered(NESTED, MAX_STACK, c, last.sp, last.i), Metered(NESTED, MAX_STACK, before, c, last.i);
  }

  // ----- The decoder with its cache of basic blocks

  /** Where the block of an entry ends, once that was found out. */
  type Blocks = map<nat, Option<nat>>

  ghost predicate BlocksOk(code: Code, blocks: Blocks) {
    forall ip, t :: ip in blocks && blocks[ip] == Some(t) ==> exists n :: EndsAt(code, ip, t, n)
  }

  /** A block is entered at its first decoding and filled in at the second. */
  function Learned(blocks: Blocks, ip: nat, t: nat): Blocks {
    if ip !in blocks then blocks[ip := None] else if blocks[ip] == None then blocks[ip := Some(t)] else blocks
  }

  lemma LearnedOk(code: Code, blocks: Blocks, ip: nat, t: nat, n: nat)
    requires BlocksOk(code, blocks) && EndsAt(code, ip, t, n)
    ensures BlocksOk(code, Learned(blocks, ip, t))
  {
  }

  lemma CachedEnd(code: Code, blocks: Blocks, ip: nat, t: nat, n: nat)
    requires BlocksOk(code, blocks) && ip in blocks && blocks[ip].Some? && EndsAt(code, ip, t, n)
    ensures blocks[ip].value == t && EndsAt(code, t, t, 0)
  {
    var n' :| EndsAt(code, ip, blocks[ip].value, n');
    OneEnd(code, ip, t, n, blocks[ip].value, n');
    EndIsEnd(code, ip, t, n);
  }

  /** The levels a triggering watchpoint reads and writes lie inside the arrays. */
  ghost predicate InArrays(code: Code, threshold: nat, c: Core, i: Input)
    requires c.pending.Some?
  {
    var w := c.pending.value;
    w.callee != RUNTIME ==>
      if w.exec && c.decoded < threshold && code(w.va).kind != Return then
        code(w.va).kind == Call && i.compiled ==> 0 <= c.top < MAX_STACK - 1
      else 0 <= c.top < MAX_STACK
  }

  class Sampler {
    const code: Code
    const threshold: nat
    var wpStack: seq<Watch>
    var retCtxtStack: seq<nat>
    var eventTop: int
    var cntTop: int
    var decodeInsCounter: nat
    var subscribed: Option<Watch>
    var basicBlockMap: Blocks
    const eventValue: array<int>
    const cntValue: array<int>

    ghost function View(): Core
      reads this
    {
      Core(wpStack, retCtxtStack, eventTop, cntTop, decodeInsCounter, subscribed)
    }

    ghost function Counters(): Meter
      reads this, eventValue, cntValue
    {
      Meter(eventValue[..], cntValue[..])
    }

    ghost predicate Valid()
      reads this
    {
      eventValue.Length == cntValue.Length == MAX_STACK && eventValue != cntValue && BlocksOk(code, basicBlockMap)
    }

    constructor (code: Code, threshold: nat)
      ensures Valid() && this.code == code && this.threshold == threshold && fresh(eventValue) && fresh(cntValue)
    {
      this.code, this.threshold := code, threshold;
      wpStack, retCtxtStack, eventTop, cntTop, decodeInsCounter, subscribed := [], [], -1, -1, 0, None;
      basicBlockMap := map[];
      eventValue := new int[MAX_STACK](_ => 0);
      cntValue := new int[MAX_STACK](_ => 0);
    }

    method FillIn(found: bool, ip: nat, end: nat)
      requires found ==> ip in basicBlockMap
      modifies this`basicBlockMap
      ensures basicBlockMap == if found && old(basicBlockMap)[ip].None? then old(basicBlockMap)[ip := Some(end)]
              else old(basicBlockMap)
    {
      if found && basicBlockMap[ip].None? { basicBlockMap := basicBlockMap[ip := Some(end)]; }
    }

    /** The next watchpoint, at the end of a block. */
    method Arm(ip: nat, end: nat)
      requires Decodable(View()) && Ends(code(end).kind)
      modifies this`wpStack, this`retCtxtStack, this`decodeInsCounter, this`subscribed
      ensures View() == AtEnd(code, old(View()), ip, end)
    {
      match code(end).kind {
        case Return =>
          if |wpStack| == 1 {
            subscribed := Some(Last(wpStack));
            wpStack := Pop(wpStack);
            retCtxtStack := Pop(retCtxtStack);
          } else {
            subscribed := Some(Watch(end, true, Last(wpStack).callee));
            wpStack := Pop(wpStack);
          }
        case Exit =>
          subscribed := Some(Watch(end, true, ip));
        case Call =>
          decodeInsCounter := decodeInsCounter + 1;
          subscribed := Some(Watch(end, true, ip));
      }
    }

    /** Whatever the cache knows about the block, the stacks and the watchpoint come out as if the
        block had been walked instruction by instruction. */
    method Decoder(ip: nat, ghost t: nat, ghost n: nat)
      requires Valid() && Decodable(View()) && (decodeInsCounter < threshold ==> EndsAt(code, ip, t, n))
      modifies this`wpStack, this`retCtxtStack, this`decodeInsCounter, this`subscribed, this`basicBlockMap
      ensures Valid() && View() == Decode(code, threshold, old(View()), ip, t)
      ensures basicBlockMap == if old(decodeInsCounter) >= threshold then old(basicBlockMap)
              else Learned(old(basicBlockMap), ip, t)
      ensures old(decodeInsCounter) < threshold ==>
                && Armed(code, ip, t, old(wpStack), old(retCtxtStack), old(decodeInsCounter), View())
                && (ip !in old(basicBlockMap) ==> basicBlockMap == old(basicBlockMap)[ip := None])
                && (ip in old(basicBlockMap) && old(basicBlockMap)[ip] == None ==>
                      basicBlockMap == old(basicBlockMap)[ip := Some(t)])
                && (ip in old(basicBlockMap) && old(basicBlockMap)[ip] != None ==> basicBlockMap == old(basicBlockMap))
    {
      DecodeCases(code, threshold, View(), ip, t);
      hide Armed;
      if decodeInsCounter < threshold { LearnedOk(code, basicBlockMap, ip, t, n); }
      hide BlocksOk;
      var tempIp: nat := ip;
      var found := ip in basicBlockMap;
      ghost var left: nat := n;
      while true
        invariant View() == old(View()) && (decodeInsCounter < threshold ==> EndsAt(code, tempIp, t, left)) && left <= n
        invariant left == n ==> tempIp == ip && basicBlockMap == old(basicBlockMap)
        invariant left < n ==>
                    old(decodeInsCounter) < threshold && ip in basicBlockMap && (found ==> basicBlockMap[ip].None?)
        invariant left < n ==> basicBlockMap == if found then old(basicBlockMap) else old(basicBlockMap)[ip := None]
        invariant found == (ip in old(basicBlockMap))
        decreases left
      {
        if decodeInsCounter >= threshold {
          subscribed := Some(Last(wpStack));
          wpStack := Pop(wpStack);
          return;
        }
        if found && basicBlockMap[ip].Some? {
          tempIp := basicBlockMap[ip].value;
          CachedEnd(code, basicBlockMap, ip, t, n);
          left := 0;
        } else if tempIp == ip && ip !in basicBlockMap {
          basicBlockMap := basicBlockMap[ip := None];
        }
        match code(tempIp).kind {
          case Jump(target) => tempIp := target;
          case Plain => tempIp := tempIp + code(tempIp).length;
          case _ =>
            FillIn(found, ip, tempIp);
            Arm(ip, tempIp);
            return;
        }
        left := left - 1;
      }
    }

    /** The events counted since the last reading go to the call on top; a caller gets the last reading only. */
    method EndLevel(top: int, read: nat)
      requires Valid() && 0 <= top < MAX_STACK
      modifies eventValue, cntValue
      ensures Counters() == Over(old(Counters()), top, read) && LevelEnded(old(Counters()), top, read, Counters())
    {
      cntValue[top] := cntValue[top] + read;
      if top != 0 { cntValue[top - 1] := cntValue[top - 1] + read; }
      if top == 0 { eventValue[top] := eventValue[top] + cntValue[top]; }
    }

    method BeginLevel(top: int, read: nat)
      requires Valid() && 0 < top < MAX_STACK
      modifies eventValue, cntValue
      ensures Counters() == Began(old(Counters()), top - 1, read)
      ensures LevelStarted(old(Counters()), top - 1, read, Counters())
    {
      cntValue[top - 1] := cntValue[top - 1] + read;
      eventValue[top] := eventValue[top - 1] + cntValue[top - 1];
      cntValue[top] := 0;
    }

    method OnSample(ip: nat, sp: nat, i: Input, ghost n: nat)
      requires Valid() && (i.place == Inside && threshold > 0 ==> EndsAt(code, ip, i.end, n))
      modifies this, cntValue
      ensures Valid() && View() == Sampled(code, threshold, old(View()), ip, sp, i)
      ensures SampleDone(code, threshold, old(View()), ip, sp, i, View())
      ensures eventValue[..] == old(eventValue[..]) && cntValue[..] == if i.place == Inside then
              old(cntValue[..])[0 := 0] else old(cntValue[..])
    {
      SampleCases(code, threshold, View(), ip, sp, i);
      hide SampleDone, Armed, Decode, EndsAt, Learned, BlocksOk;
      if i.place != Inside { return; }
      decodeInsCounter := 0;
      retCtxtStack, wpStack := [], [];
      eventTop, cntTop := eventTop + 1, cntTop + 1;
      var top := eventTop;
      if top != 0 {
        eventTop, cntTop, top := 0, 0, 0;
      }
      cntValue[top] := 0;
      wpStack := wpStack + [Watch(sp, false, ip)];
      retCtxtStack := retCtxtStack + [i.ctxt];
      subscribed := None;
      ghost var c := View();
      assert c == Entered(old(View()), ip, sp, i) && Decodable(c);
      hide Entered;
      Decoder(ip, i.end, n);
    }

    /** A watchpoint on the end of a block triggers. */
    method OnBranchWatchPoint(w: Watch, sp: nat, i: Input, ghost c: Core, ghost n: nat)
      requires Valid() && c.pending == Some(w) && View() == c.(pending := None) && i.place in {Imprecise, Inside} &&
               w.exec && w.callee != RUNTIME && c.decoded < threshold
      requires Safe(code, threshold, c) && InArrays(code, threshold, c, i)
      requires Decodes(code, threshold, c, i) ==> EndsAt(code, i.next, i.end, n)
      modifies this, eventValue, cntValue
      ensures Valid() && View() == Triggered(code, threshold, c, sp, i) && BranchDone(code, c, sp, i, View())
      ensures Counters() == Metered(code, threshold, old(Counters()), c, i)
    {
      TriggerCases(code, threshold, c, sp, i);
      assert BranchDone(code, c, sp, i, Triggered(code, threshold, c, sp, i));
      hide TriggerDone, BranchDone;
      hide Decode, Over, Began, EndsAt, Learned, BlocksOk;
      match code(w.va).kind {
        case Return =>
          var top := eventTop;
          eventTop, cntTop := eventTop - 1, cntTop - 1;
          EndLevel(top, i.read);
          retCtxtStack := Pop(retCtxtStack);
          if wpStack == [] { return; }
          Decoder(i.next, i.end, n);
        case Exit => Decoder(i.next, i.end, n);
        case Call =>
          if !i.compiled {
            subscribed := Some(Watch(w.va + code(w.va).length, true, RUNTIME));
            return;
          }
          eventTop, cntTop := eventTop + 1, cntTop + 1;
          var top := eventTop;
          BeginLevel(top, i.read);
          wpStack := wpStack + [Watch(sp, false, i.next)];
          retCtxtStack := retCtxtStack + [i.ctxt];
          Decoder(i.next, i.end, n);
        case Jump(_) => Decoder(i.next, i.end, n);
        case Plain =>
      }
    }

    /** The pending watchpoint triggers. */
    method OnRetWatchPoint(sp: nat, i: Input, ghost n: nat)
      requires Valid() && Safe(code, threshold, View()) && InArrays(code, threshold, View(), i)
      requires Decodes(code, threshold, View(), i) ==> EndsAt(code, From(View(), i), i.end, n)
      modifies this, eventValue, cntValue
      ensures Valid() && View() == Triggered(code, threshold, old(View()), sp, i)
      ensures TriggerDone(code, threshold, old(View()), sp, i, View())
      ensures Counters() == Metered(code, threshold, old(Counters()), old(View()), i)
    {
      TriggerCases(code, threshold, View(), sp, i);
      hide TriggerDone, BranchDone;
      hide Decode, Began, EndsAt, Learned, BlocksOk;
      ghost var c := View();
      var w := subscribed.value;
      subscribed := None;
      if i.place == Nowhere {
        eventTop, cntTop := -1, -1;
        return;
      }
      if i.place == Outside {
        eventTop, cntTop := eventTop - 1, cntTop - 1;
        return;
      }
      if w.callee == RUNTIME {
        Decoder(w.va, i.end, n);
        return;
      }
      if decodeInsCounter >= threshold {
        if wpStack != [] {
          subscribed := Some(Last(wpStack));
          wpStack := Pop(wpStack);
        }
        var top := eventTop;
        eventTop, cntTop := eventTop - 1, cntTop - 1;
        if i.place == Imprecise { return; }
        EndLevel(top, i.read);
        retCtxtStack := Pop(retCtxtStack);
        return;
      }
      if w.exec {
        OnBranchWatchPoint(w, sp, i, c, n);
        return;
      }
      var top := eventTop;
      eventTop, cntTop := eventTop - 1, cntTop - 1;
      if i.place == Imprecise { return; }
      cntValue[top] := cntValue[top] + i.read;
      assert top == 0;
      eventValue[top] := eventValue[top] + cntValue[top];
    }
  }
}
