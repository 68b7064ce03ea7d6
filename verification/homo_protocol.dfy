/** The producer, the consumers and the master that waits for them, under every interleaving
    (offlineprocess/pylib/special_xml.py, offlineprocess/pylib/workers.py). */
module HomoProtocol {

  import opened Options
  import opened Sequences

  /** What a task does next. Chunks are numbered in the order of the file. */
  datatype Pc =
    | Idle | Created
    | Producing
    | CheckDone | CheckEmpty | Getting | Parsing(c: nat) | WantLock(c: nat) | Adding(c: nat) | Unlocking
    | Returned | Finished | Crashed

  datatype Master = Assigning(next: nat) | Starting(task: nat) | Inline(task: nat) | Polling | Done | Dead

  /** The file holds `chunks` chunks, of which the producer can cut off the first `cut`; chunk `c`
      parses to a single node if `good(c)`. Task 0 is the producer, the other tasks are consumers.
      At most `limit` workers are active; the master does the work of all others itself. */
  datatype Env = Env(chunks: nat, cut: nat, good: nat -> bool, tasks: nat, limit: nat)

  datatype State = State(
    queue: seq<nat>, put: nat, done: bool, root: seq<nat>, rootLock: Option<nat>,
    active: set<nat>, pc: seq<Pc>, master: Master)

  datatype Action = MasterStep | TaskStep(k: nat) | WorkerFinish(k: nat)

  function Init(e: Env): State {
    State([], 0, false, [], None, {}, seq(e.tasks, _ => Idle), Assigning(0))
  }

  function Begin(k: nat): Pc {
    if k == 0 then Producing else CheckDone
  }

  function MasterDoes(e: Env, s: State): Option<State> {
    match s.master
    case Assigning(k) =>
      if k >= e.tasks || k >= |s.pc| then Some(s.(master := Polling))
      else if |s.active| >= e.limit then Some(s.(master := Inline(k), pc := s.pc[k := Begin(k)]))
      else Some(s.(master := Starting(k), active := s.active + {k}, pc := s.pc[k := Created]))
    case Starting(k) => if k < |s.pc| then Some(s.(master := Assigning(k + 1), pc := s.pc[k := Begin(k)])) else None
    case Inline(k) =>
      if k >= |s.pc| then None
      else if s.pc[k] == Returned then Some(s.(master := Assigning(k + 1), pc := s.pc[k := Finished]))
      else if s.pc[k] == Crashed then Some(s.(master := Dead))
      else None
    case Polling => if s.active == {} then Some(s.(master := Done)) else None
    case Done => None
    case Dead => None
  }

  function Goto(s: State, k: nat, p: Pc): State
    requires k < |s.pc|
  {
    s.(pc := s.pc[k := p])
  }

  /** One step of the routine that task `k` runs. */
  function TaskDoes(e: Env, s: State, k: nat): Option<State>
    requires k < |s.pc|
  {
    match s.pc[k]
    case Producing =>
      if s.put < e.chunks then
        if s.put < e.cut then Some(s.(queue := s.queue + [s.put], put := s.put + 1)) else Some(Goto(s, k, Crashed))
      else Some(Goto(s.(done := true), k, Returned))
    case CheckDone => Some(Goto(s, k, if s.done then CheckEmpty else Getting))
    case CheckEmpty => Some(Goto(s, k, if s.queue == [] then Returned else Getting))
    case Getting =>
      if s.queue == [] then Some(Goto(s, k, CheckDone))
      else Some(Goto(s.(queue := s.queue[1..]), k, Parsing(s.queue[0])))
    case Parsing(c) => Some(Goto(s, k, if e.good(c) then WantLock(c) else Crashed))
    case WantLock(c) => if s.rootLock.None? then Some(Goto(s.(rootLock := Some(k)), k, Adding(c))) else None
    case Adding(c) => Some(Goto(s.(root := s.root + [c]), k, Unlocking))
    case Unlocking => Some(Goto(s.(rootLock := None), k, CheckDone))
    case _ => None
  }

  /** A worker that has returned leaves the active list. */
  function FinishDoes(s: State, k: nat): Option<State>
    requires k < |s.pc|
  {
    if k in s.active && s.pc[k] == Returned then Some(Goto(s, k, Finished).(active := s.active - {k})) else None
  }

  function Do(e: Env, s: State, a: Action): Option<State> {
    match a
    case MasterStep => MasterDoes(e, s)
    case TaskStep(k) => if k < |s.pc| then TaskDoes(e, s, k) else None
    case WorkerFinish(k) => if k < |s.pc| then FinishDoes(s, k) else None
  }

  /** The state after a run; actions that are not enabled do not occur in runs. */
  function Run(e: Env, run: seq<Action>): Option<State> {
    if run == [] then Some(Init(e))
    else
      match Run(e, run[..|run| - 1])
      case None => None
      case Some(s) => Do(e, s, run[|run| - 1])
  }

  // ----- What every step keeps

  predicate Holds(p: Pc, c: nat) {
    (p.Parsing? || p.WantLock? || p.Adding?) && p.c == c
  }

  function Taken(s: State): int {
    s.put - |s.queue|
  }

  /** The queue holds the chunks that were put but not taken, in order. */
  ghost predicate QueueOk(e: Env, s: State) {
    && |s.queue| <= s.put <= e.chunks && s.put <= e.cut
    && forall j :: 0 <= j < |s.queue| ==> s.queue[j] == Taken(s) + j
  }

  ghost predicate Held(s: State, c: nat) {
    exists k :: 0 <= k < |s.pc| && Holds(s.pc[k], c)
  }

  ghost predicate RootOk(e: Env, s: State) {
    && (forall c :: c in s.root ==> c < Taken(s) && e.good(c))
    && (forall i, j :: 0 <= i < j < |s.root| ==> s.root[i] != s.root[j])
  }

  /** What a consumer holds was taken and is not yet among the children of the root. */
  ghost predicate HoldOk(e: Env, s: State, k: nat, c: nat)
    requires k < |s.pc|
  {
    Holds(s.pc[k], c) ==> c < Taken(s) && c !in s.root && (s.pc[k].Parsing? || e.good(c))
  }

  /** No two consumers hold the same chunk. */
  ghost predicate HoldApart(s: State, k: nat, l: nat, c: nat)
    requires k < |s.pc| && l < |s.pc|
  {
    Holds(s.pc[k], c) && Holds(s.pc[l], c) ==> k == l
  }

  /** Each chunk that was taken is in the hands of one consumer or among the children of the root,
      once, unless a consumer crashed with it. */
  ghost predicate Conserved(e: Env, s: State) {
    && (Crashed !in s.pc ==> forall c: nat :: c < Taken(s) ==> c in s.root || Held(s, c))
    && RootOk(e, s)
    && (forall k: nat, c: nat :: k < |s.pc| ==> HoldOk(e, s, k, c))
    && (forall k: nat, l: nat, c: nat :: k < |s.pc| && l < |s.pc| ==> HoldApart(s, k, l, c))
  }

  predicate Over(p: Pc) {
    p == Returned || p == Finished
  }

  /** The producer is over exactly when it has said so; a consumer that is over has seen everything taken. */
  ghost predicate ExitOk(e: Env, s: State) {
    && |s.pc| == e.tasks
    && (forall k :: 0 <= k < |s.pc| && s.pc[k] == Producing ==> k == 0)
    && (s.done <==> |s.pc| > 0 && Over(s.pc[0]))
    && (s.done ==> s.put == e.chunks)
    && (|s.pc| > 0 ==> s.pc[0] in {Idle, Created, Producing, Returned, Finished, Crashed})
    && (forall k :: 0 < k < |s.pc| ==>
          && (s.pc[k] == CheckEmpty ==> s.done)
          && (Over(s.pc[k]) ==> s.done && s.queue == []))
  }

  /** Only one task is between taking and releasing the lock of the root. */
  ghost predicate LockOk(s: State) {
    && (forall k :: 0 <= k < |s.pc| ==> (s.pc[k].Adding? || s.pc[k] == Unlocking <==> s.rootLock == Some(k)))
    && (s.rootLock.Some? ==> s.rootLock.value < |s.pc|)
  }

  function Assigned(e: Env, m: Master): nat {
    match m
    case Assigning(k) => k
    case Starting(k) => k + 1
    case Inline(k) => k + 1
    case _ => e.tasks
  }

  /** Every task that was assigned and is not finished is active or done by the master. */
  ghost predicate TasksOk(e: Env, s: State) {
    && (!s.master.Dead? ==>
          && Assigned(e, s.master) <= e.tasks
          && forall k :: 0 <= k < |s.pc| ==> (s.pc[k] == Idle <==> Assigned(e, s.master) <= k))
    && (forall k :: k in s.active ==> k < |s.pc| && s.pc[k] != Idle && s.pc[k] != Finished)
    && (!s.master.Dead? ==>
          forall k :: 0 <= k < |s.pc| && s.pc[k] != Idle && s.pc[k] != Finished ==>
            k in s.active || s.master == Inline(k))
    && (s.master.Starting? ==> s.master.task < |s.pc| && s.pc[s.master.task] == Created)
    && (s.master.Inline? ==>
          && s.master.task < |s.pc| && s.master.task !in s.active
          && s.pc[s.master.task] !in {Idle, Created, Finished})
    && (forall k :: 0 <= k < |s.pc| && s.pc[k] == Created ==> s.master == Starting(k))
    && (s.master.Done? ==> s.active == {})
  }

  ghost predicate Inv(e: Env, s: State) {
    QueueOk(e, s) && Conserved(e, s) && ExitOk(e, s) && LockOk(s) && TasksOk(e, s)
  }

  lemma InitInv(e: Env)
    ensures Inv(e, Init(e))
  {
  }

  /** A task that holds nothing before and after its step leaves the chunks where they are. */
  lemma Moved(e: Env, s: State, s': State, k: nat, p: Pc)
    requires Conserved(e, s) && k < |s.pc| && s'.pc == s.pc[k := p] && s'.root == s.root && Taken(s') == Taken(s)
    requires s.pc[k] != Crashed && forall c :: !Holds(s.pc[k], c) && !Holds(p, c)
    ensures Conserved(e, s')
  {
    forall l: nat, c: nat | l < |s'.pc| ensures HoldOk(e, s', l, c) {
      assert HoldOk(e, s, l, c) && HoldApart(s, k, l, c);
    }
    forall l: nat, m: nat, c: nat | l < |s'.pc| && m < |s'.pc| ensures HoldApart(s', l, m, c) {
      assert HoldApart(s, l, m, c) && HoldOk(e, s, l, c) && HoldOk(e, s, m, c);
    }
    if Crashed !in s'.pc {
      NoneCrashed(s.pc, k, p);
      forall c: nat | c < Taken(s') ensures c in s'.root || Held(s', c) {
        if c !in s.root {
          var l :| 0 <= l < |s.pc| && Holds(s.pc[l], c);
          assert s'.pc[l] == s.pc[l];
        }
      }
    }
  }

  lemma NoneCrashed(pc: seq<Pc>, k: nat, p: Pc)
    requires k < |pc| && pc[k] != Crashed && Crashed !in pc[k := p]
    ensures Crashed !in pc
  {
    assert forall j :: 0 <= j < |pc| && j != k ==> pc[j] == pc[k := p][j];
  }

  lemma MasterKeeps(e: Env, s: State)
    requires Inv(e, s) && MasterDoes(e, s).Some?
    ensures Inv(e, MasterDoes(e, s).value)
  {
    MasterKeepsConserved(e, s);
    MasterKeepsExit(e, s);
    MasterKeepsTasks(e, s);
    hide Conserved, ExitOk, LockOk, TasksOk;
  }

  lemma MasterKeepsConserved(e: Env, s: State)
    requires Inv(e, s) && MasterDoes(e, s).Some?
    ensures Conserved(e, MasterDoes(e, s).value)
  {
    var s' := MasterDoes(e, s).value;
    hide Conserved, ExitOk, LockOk;
    match s.master {
      case Assigning(k) =>
        if k < e.tasks && k < |s.pc| {
          Moved(e, s, s', k, s'.pc[k]);
        } else {
          assert s'.pc == s.pc;
          SameChunks(e, s, s');
        }
      case Starting(k) => Moved(e, s, s', k, s'.pc[k]);
      case Inline(k) => if s.pc[k] == Returned { Moved(e, s, s', k, s'.pc[k]); } else { SameChunks(e, s, s'); }
      case _ => SameChunks(e, s, s');
    }
  }

  lemma SameChunks(e: Env, s: State, s': State)
    requires Conserved(e, s) && s'.pc == s.pc && s'.root == s.root && Taken(s') == Taken(s)
    ensures Conserved(e, s')
  {
    assert forall c: nat :: Held(s, c) ==> Held(s', c);
    forall l: nat, c: nat | l < |s'.pc| ensures HoldOk(e, s', l, c) {
      assert HoldOk(e, s, l, c);
    }
    forall l: nat, m: nat, c: nat | l < |s'.pc| && m < |s'.pc| ensures HoldApart(s', l, m, c) {
      assert HoldApart(s, l, m, c);
    }
  }

  lemma MovedLock(s: State, s': State, k: nat, p: Pc)
    requires LockOk(s) && k < |s.pc| && s'.pc == s.pc[k := p] && s'.rootLock == s.rootLock
    requires !s.pc[k].Adding? && s.pc[k] != Unlocking && !p.Adding? && p != Unlocking
    ensures LockOk(s')
  {
  }

  lemma MovedExit(e: Env, s: State, s': State, k: nat, p: Pc)
    requires ExitOk(e, s) && k < |s.pc| && s'.pc == s.pc[k := p] && s'.done == s.done && s'.put == s.put &&
             s'.queue == s.queue
    requires (Over(s.pc[k]) && p == Finished) || (s.pc[k] == Idle && p == Created) || (!Over(s.pc[k]) && p == Begin(k))
    ensures ExitOk(e, s')
  {
  }

  lemma MasterKeepsExit(e: Env, s: State)
    requires Inv(e, s) && MasterDoes(e, s).Some?
    ensures ExitOk(e, MasterDoes(e, s).value) && LockOk(MasterDoes(e, s).value) && QueueOk(e, MasterDoes(e, s).value)
  {
    var s' := MasterDoes(e, s).value;
    assert s.master.Assigning? && s.master.next < |s.pc| ==> s.pc[s.master.next] == Idle;
    hide Conserved, ExitOk, LockOk, TasksOk;
    match s.master {
      case Assigning(k) =>
        if k < e.tasks && k < |s.pc| {
          MovedExit(e, s, s', k, s'.pc[k]);
          MovedLock(s, s', k, s'.pc[k]);
        } else {
          SameRest(e, s, s');
        }
      case Starting(k) =>
        assert s.pc[k] == Created by { StartingCreated(e, s); }
        MovedExit(e, s, s', k, s'.pc[k]);
        MovedLock(s, s', k, s'.pc[k]);
      case Inline(k) =>
        if s.pc[k] == Returned {
          MovedExit(e, s, s', k, Finished);
          MovedLock(s, s', k, Finished);
        } else {
          SameRest(e, s, s');
        }
      case _ => SameRest(e, s, s');
    }
  }

  lemma StartingCreated(e: Env, s: State)
    requires TasksOk(e, s) && s.master.Starting?
    ensures s.master.task < |s.pc| && s.pc[s.master.task] == Created
  {
  }

  lemma SameRest(e: Env, s: State, s': State)
    requires ExitOk(e, s) && LockOk(s) && s' == s.(master := s'.master)
    ensures ExitOk(e, s') && LockOk(s')
  {
  }

  lemma MasterKeepsTasks(e: Env, s: State)
    requires Inv(e, s) && MasterDoes(e, s).Some?
    ensures TasksOk(e, MasterDoes(e, s).value)
  {
    var s' := MasterDoes(e, s).value;
    hide Conserved, LockOk, QueueOk;
    assert |s.pc| == e.tasks;
    match s.master {
      case Assigning(k) => if k < e.tasks { AssignTask(e, s, s', k); }
      case Starting(k) => StartTask(e, s, s', k);
      case Inline(k) => if s.pc[k] == Returned { EndInline(e, s, s', k); }
      case _ =>
    }
  }

  lemma AssignTask(e: Env, s: State, s': State, k: nat)
    requires TasksOk(e, s) && |s.pc| == e.tasks && k < e.tasks && s.master == Assigning(k)
    requires (s' == s.(master := Inline(k), pc := s.pc[k := Begin(k)])) ||
             (s' == s.(master := Starting(k), active := s.active + {k}, pc := s.pc[k := Created]))
    ensures TasksOk(e, s')
  {
    assert s.pc[k] == Idle;
    assert forall l :: 0 <= l < |s.pc| && l != k ==> s'.pc[l] == s.pc[l];
  }

  lemma StartTask(e: Env, s: State, s': State, k: nat)
    requires TasksOk(e, s) && |s.pc| == e.tasks && s.master == Starting(k) &&
             s' == s.(master := Assigning(k + 1), pc := s.pc[k := Begin(k)])
    ensures TasksOk(e, s')
  {
    assert forall l :: 0 <= l < |s.pc| && l != k ==> s'.pc[l] == s.pc[l];
  }

  lemma EndInline(e: Env, s: State, s': State, k: nat)
    requires TasksOk(e, s) && |s.pc| == e.tasks && s.master == Inline(k) &&
             s' == s.(master := Assigning(k + 1), pc := s.pc[k := Finished])
    ensures TasksOk(e, s')
  {
    assert forall l :: 0 <= l < |s.pc| && l != k ==> s'.pc[l] == s.pc[l];
  }

  lemma TaskKeepsQueue(e: Env, s: State, k: nat)
    requires Inv(e, s) && k < |s.pc| && TaskDoes(e, s, k).Some?
    ensures QueueOk(e, TaskDoes(e, s, k).value)
  {
    hide Conserved, LockOk, TasksOk;
  }

  lemma TaskKeepsConserved(e: Env, s: State, k: nat)
    requires Inv(e, s) && k < |s.pc| && TaskDoes(e, s, k).Some?
    ensures Conserved(e, TaskDoes(e, s, k).value)
  {
    var s' := TaskDoes(e, s, k).value;
    hide ExitOk, LockOk, TasksOk, Conserved;
    match s.pc[k] {
      case Producing =>
        if s.put < e.chunks && s.put < e.cut { SameChunks(e, s, s'); } else { Moved(e, s, s', k, s'.pc[k]); }
      case Getting =>
        if s.queue == [] { Moved(e, s, s', k, CheckDone); } else { Took(e, s, s', k); }
      case Parsing(c) =>
        if e.good(c) { Kept(e, s, s', k, WantLock(c), c); } else { Lost(e, s, s', k, c); }
      case WantLock(c) => HolderOk(e, s, k, c); Kept(e, s, s', k, Adding(c), c);
      case Adding(c) => Added(e, s, s', k, c);
      case CheckDone => Moved(e, s, s', k, s'.pc[k]);
      case CheckEmpty => Moved(e, s, s', k, s'.pc[k]);
      case Unlocking => Moved(e, s, s', k, CheckDone);
      case _ =>
    }
  }

  lemma HolderOk(e: Env, s: State, k: nat, c: nat)
    requires Conserved(e, s) && k < |s.pc| && Holds(s.pc[k], c)
    ensures c < Taken(s) && c !in s.root && (s.pc[k].Parsing? || e.good(c))
  {
    assert HoldOk(e, s, k, c);
  }

  lemma StillHeld(s: State, s': State, k: nat, p: Pc, c: nat)
    requires k < |s.pc| && s'.pc == s.pc[k := p] && Held(s, c) && (Holds(s.pc[k], c) ==> Holds(p, c))
    ensures Held(s', c)
  {
    var l :| 0 <= l < |s.pc| && Holds(s.pc[l], c);
    assert Holds(s'.pc[l], c);
  }

  lemma Took(e: Env, s: State, s': State, k: nat)
    requires QueueOk(e, s) && Conserved(e, s) && k < |s.pc| && s.pc[k] == Getting && s.queue != []
    requires s' == Goto(s.(queue := s.queue[1..]), k, Parsing(s.queue[0]))
    ensures Conserved(e, s')
  {
    forall l: nat, c: nat | l < |s'.pc| ensures HoldOk(e, s', l, c) {
      assert HoldOk(e, s, l, c) && HoldApart(s, k, l, c);
    }
    forall l: nat, m: nat, c: nat | l < |s'.pc| && m < |s'.pc| ensures HoldApart(s', l, m, c) {
      assert HoldApart(s, l, m, c) && HoldOk(e, s, l, c) && HoldOk(e, s, m, c);
    }
    var c0 := s.queue[0];
    assert c0 == Taken(s) && Taken(s') == Taken(s) + 1;
    assert s'.pc[k] == Parsing(c0);
    if Crashed !in s'.pc {
      NoneCrashed(s.pc, k, Parsing(c0));
      forall c: nat | c < Taken(s') ensures c in s'.root || Held(s', c) {
        if c < Taken(s) {
          if c !in s.root { StillHeld(s, s', k, Parsing(c0), c); }
        } else {
          assert Holds(s'.pc[k], c);
        }
      }
    }
  }

  lemma Kept(e: Env, s: State, s': State, k: nat, p: Pc, c0: nat)
    requires Conserved(e, s) && k < |s.pc| && s'.pc == s.pc[k := p] && s'.root == s.root && Taken(s') == Taken(s)
    requires Holds(s.pc[k], c0) && Holds(p, c0) && e.good(c0)
    ensures Conserved(e, s')
  {
    forall l: nat, c: nat | l < |s'.pc| ensures HoldOk(e, s', l, c) {
      assert HoldOk(e, s, l, c) && HoldApart(s, k, l, c);
    }
    forall l: nat, m: nat, c: nat | l < |s'.pc| && m < |s'.pc| ensures HoldApart(s', l, m, c) {
      assert HoldApart(s, l, m, c) && HoldOk(e, s, l, c) && HoldOk(e, s, m, c);
    }
    if Crashed !in s'.pc {
      NoneCrashed(s.pc, k, p);
      forall c: nat | c < Taken(s') ensures c in s'.root || Held(s', c) {
        if c !in s.root { StillHeld(s, s', k, p, c); }
      }
    }
  }

  lemma Lost(e: Env, s: State, s': State, k: nat, c0: nat)
    requires Conserved(e, s) && k < |s.pc| && s'.pc == s.pc[k := Crashed] && s'.root == s.root && Taken(s') == Taken(s)
    requires Holds(s.pc[k], c0)
    ensures Conserved(e, s')
  {
    forall l: nat, c: nat | l < |s'.pc| ensures HoldOk(e, s', l, c) {
      assert HoldOk(e, s, l, c) && HoldApart(s, k, l, c);
    }
    forall l: nat, m: nat, c: nat | l < |s'.pc| && m < |s'.pc| ensures HoldApart(s', l, m, c) {
      assert HoldApart(s, l, m, c) && HoldOk(e, s, l, c) && HoldOk(e, s, m, c);
    }
    assert s'.pc[k] == Crashed;
  }

  lemma Added(e: Env, s: State, s': State, k: nat, c0: nat)
    requires Conserved(e, s) && k < |s.pc| && s.pc[k] == Adding(c0) &&
             s' == Goto(s.(root := s.root + [c0]), k, Unlocking)
    ensures Conserved(e, s')
  {
    forall l: nat, c: nat | l < |s'.pc| ensures HoldOk(e, s', l, c) {
      assert HoldOk(e, s, l, c) && HoldApart(s, k, l, c);
    }
    forall l: nat, m: nat, c: nat | l < |s'.pc| && m < |s'.pc| ensures HoldApart(s', l, m, c) {
      assert HoldApart(s, l, m, c) && HoldOk(e, s, l, c) && HoldOk(e, s, m, c);
    }
    HolderOk(e, s, k, c0);
    if Crashed !in s'.pc {
      NoneCrashed(s.pc, k, Unlocking);
      forall c: nat | c < Taken(s') ensures c in s'.root || Held(s', c) {
        if c !in s.root && c != c0 { StillHeld(s, s', k, Unlocking, c); }
      }
    }
  }

  lemma TaskKeepsExit(e: Env, s: State, k: nat)
    requires Inv(e, s) && k < |s.pc| && TaskDoes(e, s, k).Some?
    ensures ExitOk(e, TaskDoes(e, s, k).value)
  {
    hide Conserved, LockOk, TasksOk;
  }

  lemma TaskKeepsLock(e: Env, s: State, k: nat)
    requires Inv(e, s) && k < |s.pc| && TaskDoes(e, s, k).Some?
    ensures LockOk(TaskDoes(e, s, k).value)
  {
    hide Conserved, QueueOk, ExitOk, TasksOk;
  }

  lemma TaskKeepsTasks(e: Env, s: State, k: nat)
    requires Inv(e, s) && k < |s.pc| && TaskDoes(e, s, k).Some?
    ensures TasksOk(e, TaskDoes(e, s, k).value)
  {
    hide Conserved, QueueOk, LockOk;
    var s' := TaskDoes(e, s, k).value;
    assert s.pc[k] !in {Idle, Created, Finished, Returned, Crashed};
    MovedTasks(e, s, s', k, s'.pc[k]);
  }

  lemma MovedTasks(e: Env, s: State, s': State, k: nat, p: Pc)
    requires TasksOk(e, s) && |s.pc| == e.tasks && k < |s.pc| && s'.pc == s.pc[k := p] && s'.active == s.active &&
             s'.master == s.master
    requires s.pc[k] !in {Idle, Created, Finished} && p !in {Idle, Created, Finished}
    ensures TasksOk(e, s')
  {
  }

  lemma FinishKeeps(e: Env, s: State, k: nat)
    requires Inv(e, s) && k < |s.pc| && FinishDoes(s, k).Some?
    ensures Inv(e, FinishDoes(s, k).value)
  {
    var s' := FinishDoes(s, k).value;
    Moved(e, s, s', k, Finished);
    FinishKeepsTasks(e, s, k);
    hide Conserved, TasksOk;
  }

  lemma FinishKeepsTasks(e: Env, s: State, k: nat)
    requires Inv(e, s) && k < |s.pc| && FinishDoes(s, k).Some?
    ensures TasksOk(e, FinishDoes(s, k).value)
  {
    hide Conserved, ExitOk, LockOk, QueueOk;
  }

  lemma {:induction false} RunKeeps(e: Env, run: seq<Action>)
    requires Run(e, run).Some?
    ensures Inv(e, Run(e, run).value)
  {
    if run == [] {
      InitInv(e);
    } else {
      RunKeeps(e, run[..|run| - 1]);
      var s, a := Run(e, run[..|run| - 1]).value, run[|run| - 1];
      hide Inv, MasterDoes, TaskDoes, FinishDoes;
      match a {
        case MasterStep => MasterKeeps(e, s);
        case TaskStep(k) => TaskKeeps(e, s, k);
        case WorkerFinish(k) => FinishKeeps(e, s, k);
      }
    }
  }

  lemma TaskKeeps(e: Env, s: State, k: nat)
    requires Inv(e, s) && k < |s.pc| && TaskDoes(e, s, k).Some?
    ensures Inv(e, TaskDoes(e, s, k).value)
  {
    TaskKeepsQueue(e, s, k);
    TaskKeepsConserved(e, s, k);
    TaskKeepsExit(e, s, k);
    TaskKeepsLock(e, s, k);
    TaskKeepsTasks(e, s, k);
    hide TaskDoes, QueueOk, Conserved, ExitOk, LockOk, TasksOk;
  }

  /** When the master returns, every chunk was cut off, parsed and added exactly once, whatever the
      interleaving and the worker limit; there is at least one consumer. */
  lemma ExactlyOnce(e: Env, run: seq<Action>)
    requires e.tasks > 1 && Run(e, run).Some? && Run(e, run).value.master == Done
    ensures var root := Run(e, run).value.root;
            && (forall c: nat :: c in root <==> c < e.chunks)
            && (forall i, j :: 0 <= i < j < |root| ==> root[i] != root[j])
            && e.chunks <= e.cut && (forall c: nat :: c < e.chunks ==> e.good(c))
  {
    RunKeeps(e, run);
    var s := Run(e, run).value;
    forall k | 0 <= k < |s.pc| ensures s.pc[k] == Finished {
      assert k < Assigned(e, s.master);
    }
    assert Over(s.pc[1]);
    assert s.done && s.queue == [];
    assert forall c: nat :: !Held(s, c);
  }

  /** Without malformed chunks nothing crashes. */
  lemma {:induction false} NoCrash(e: Env, run: seq<Action>)
    requires Run(e, run).Some? && e.chunks <= e.cut && forall c: nat :: c < e.chunks ==> e.good(c)
    ensures var s := Run(e, run).value; s.master != Dead && Crashed !in s.pc
  {
    if run != [] {
      var before := run[..|run| - 1];
      NoCrash(e, before);
      RunKeeps(e, before);
      CrashStep(e, Run(e, before).value, run[|run| - 1]);
    }
  }

  lemma CrashStep(e: Env, s: State, a: Action)
    requires Inv(e, s) && Do(e, s, a).Some? && s.master != Dead && Crashed !in s.pc
    requires e.chunks <= e.cut && forall c: nat :: c < e.chunks ==> e.good(c)
    ensures Do(e, s, a).value.master != Dead && Crashed !in Do(e, s, a).value.pc
  {
    hide Inv, MasterDoes, TaskDoes, FinishDoes;
    match a {
      case MasterStep => NoCrashByMaster(e, s);
      case TaskStep(k) => NoCrashByTask(e, s, k);
      case WorkerFinish(k) => NoCrashByFinish(s, k);
    }
  }

  lemma NoCrashByMaster(e: Env, s: State)
    requires Inv(e, s) && MasterDoes(e, s).Some? && s.master != Dead && Crashed !in s.pc
    ensures MasterDoes(e, s).value.master != Dead && Crashed !in MasterDoes(e, s).value.pc
  {
    hide Inv;
  }

  lemma NoCrashByTask(e: Env, s: State, k: nat)
    requires Inv(e, s) && k < |s.pc| && TaskDoes(e, s, k).Some? && s.master != Dead && Crashed !in s.pc
    requires e.chunks <= e.cut && forall c: nat :: c < e.chunks ==> e.good(c)
    ensures TaskDoes(e, s, k).value.master != Dead && Crashed !in TaskDoes(e, s, k).value.pc
  {
    if s.pc[k].Parsing? { HolderOk(e, s, k, s.pc[k].c); }
    hide Conserved, LockOk, TasksOk, ExitOk;
  }

  lemma NoCrashByFinish(s: State, k: nat)
    requires k < |s.pc| && FinishDoes(s, k).Some? && s.master != Dead && Crashed !in s.pc
    ensures FinishDoes(s, k).value.master != Dead && Crashed !in FinishDoes(s, k).value.pc
  {
  }

  // ----- The wait can always end

  ghost predicate WellFormed(e: Env) {
    e.chunks <= e.cut && forall c: nat :: c < e.chunks ==> e.good(c)
  }

  /** Steps a task still has to do, if the schedule below is followed. */
  function Rank(p: Pc, none: bool): nat {
    match p
    case Idle => 20
    case Created => 19
    case Producing => 3
    case CheckDone => 6
    case CheckEmpty => 5
    case Getting => if none then 7 else 4
    case Parsing(_) => 12
    case WantLock(_) => 11
    case Adding(_) => 10
    case Unlocking => 9
    case Returned => 2
    case Finished => 0
    case Crashed => 0
  }

  function Total(pc: seq<Pc>, none: bool): nat {
    if pc == [] then 0 else Total(pc[..|pc| - 1], none) + Rank(pc[|pc| - 1], none)
  }

  function ChunkWork(e: Env): nat {
    10 + 3 * e.tasks
  }

  function ChunksWork(e: Env, n: int): int {
    ChunkWork(e) * n
  }

  lemma OneChunk(e: Env, n: int)
    ensures ChunksWork(e, n - 1) == ChunksWork(e, n) - ChunkWork(e)
    ensures n >= 0 ==> ChunksWork(e, n) >= 0
  {
  }

  function MasterWork(m: Master): nat {
    match m case Done => 0 case Polling => 1 case _ => 2
  }

  function Work(e: Env, s: State): int {
    (e.chunks - s.put) + ChunksWork(e, e.chunks - Taken(s)) + Total(s.pc, s.queue == []) + MasterWork(s.master)
  }

  lemma WorkLeft(e: Env, s: State)
    requires QueueOk(e, s)
    ensures Work(e, s) >= 0
  {
    OneChunk(e, e.chunks - Taken(s));
  }

  lemma {:induction false} TotalUpdate(pc: seq<Pc>, k: nat, p: Pc, none: bool)
    requires k < |pc|
    ensures Total(pc[k := p], none) == Total(pc, none) - Rank(pc[k], none) + Rank(p, none)
  {
    var n := |pc| - 1;
    if k < n {
      assert pc[k := p][..n] == pc[..n][k := p];
      TotalUpdate(pc[..n], k, p, none);
    } else {
      assert pc[k := p][..n] == pc[..n];
    }
  }

  lemma {:induction false} TotalEmptied(pc: seq<Pc>)
    ensures Total(pc, false) <= Total(pc, true) <= Total(pc, false) + 3 * |pc|
  {
    if pc != [] { TotalEmptied(pc[..|pc| - 1]); }
  }

  predicate Urgent(p: Pc) {
    p.Parsing? || p.WantLock? || p.Adding? || p == Unlocking
  }

  /** Some action is possible that brings the return of the master closer. */
  ghost predicate Closer(e: Env, s: State, a: Action) {
    Do(e, s, a).Some? && Work(e, Do(e, s, a).value) < Work(e, s)
  }

  lemma GotoWork(e: Env, s: State, s': State, k: nat, p: Pc)
    requires k < |s.pc| && s'.pc == s.pc[k := p] && s'.put == s.put && s'.queue == s.queue
    ensures Work(e, s') - MasterWork(s'.master) ==
            Work(e, s) - MasterWork(s.master) - Rank(s.pc[k], s.queue == []) + Rank(p, s.queue == [])
  {
    hide ChunksWork;
    TotalUpdate(s.pc, k, p, s.queue == []);
  }

  /** The task that holds the lock can go on, and if none does, any task can that holds a chunk. */
  lemma UrgentTask(e: Env, s: State, k: nat) returns (l: nat)
    requires Inv(e, s) && WellFormed(e) && k < |s.pc| && Urgent(s.pc[k])
    ensures l < |s.pc| && Urgent(s.pc[l]) && TaskDoes(e, s, l).Some? && (s.pc[l].Parsing? ==> e.good(s.pc[l].c))
  {
    l := if s.rootLock.Some? then s.rootLock.value else k;
    assert LockOk(s);
    if s.pc[l].Parsing? { HolderOk(e, s, l, s.pc[l].c); }
    hide Conserved, QueueOk, ExitOk, RootOk, HoldOk, TasksOk;
  }

  lemma UrgentStep(e: Env, s: State, k: nat) returns (a: Action)
    requires Inv(e, s) && WellFormed(e) && k < |s.pc| && Urgent(s.pc[k])
    ensures Closer(e, s, a)
  {
    hide Inv, WellFormed, Work, ChunksWork;
    var l := UrgentTask(e, s, k);
    a := TaskStep(l);
    var s' := TaskDoes(e, s, l).value;
    GotoWork(e, s, s', l, s'.pc[l]);
  }

  lemma ProducerStep(e: Env, s: State)
    requires Inv(e, s) && WellFormed(e) && |s.pc| > 0 && s.pc[0] == Producing
    ensures Closer(e, s, TaskStep(0))
  {
    var s' := TaskDoes(e, s, 0).value;
    if s.put < e.chunks {
      TotalEmptied(s.pc);
      assert Taken(s') == Taken(s);
    } else {
      hide Inv, Work, ChunksWork;
      GotoWork(e, s, s', 0, Returned);
    }
  }

  lemma TakeStep(e: Env, s: State, k: nat)
    requires Inv(e, s) && k < |s.pc| && s.pc[k] == Getting && s.queue != []
    ensures Closer(e, s, TaskStep(k))
  {
    hide Inv, ChunksWork, Total;
    var s' := TaskDoes(e, s, k).value;
    TotalUpdate(s.pc, k, s'.pc[k], false);
    TotalEmptied(s'.pc);
    OneChunk(e, e.chunks - Taken(s));
    assert Taken(s') == Taken(s) + 1 && |s'.pc| == e.tasks by { TasksCounted(e, s); }
  }

  lemma TasksCounted(e: Env, s: State)
    requires Inv(e, s)
    ensures |s.pc| == e.tasks
  {
  }

  lemma ConsumerStep(e: Env, s: State, k: nat)
    requires Inv(e, s) && k < |s.pc| && s.pc[k] in {CheckDone, CheckEmpty, Getting} && s.done
    ensures Closer(e, s, TaskStep(k))
  {
    hide Inv, Work, ChunksWork;
    if s.pc[k] == Getting && s.queue != [] {
      TakeStep(e, s, k);
    } else {
      var s' := TaskDoes(e, s, k).value;
      GotoWork(e, s, s', k, s'.pc[k]);
    }
  }

  lemma ReturnedStep(e: Env, s: State, k: nat) returns (a: Action)
    requires Inv(e, s) && k < |s.pc| && s.pc[k] == Returned && s.master != Dead
    ensures Closer(e, s, a)
  {
    a := if k in s.active then WorkerFinish(k) else MasterStep;
    assert k !in s.active ==> s.master == Inline(k);
    hide Inv, Work, ChunksWork;
    GotoWork(e, s, Do(e, s, a).value, k, Finished);
  }

  lemma MasterMoves(e: Env, s: State)
    requires Inv(e, s) && s.master !in {Done, Dead}
    requires forall k :: 0 <= k < |s.pc| ==> s.pc[k] in {Idle, Created, Finished}
    ensures Closer(e, s, MasterStep)
  {
    match s.master {
      case Assigning(k) => AssignMoves(e, s, k);
      case Starting(k) =>
        StartingCreated(e, s);
        hide Inv, Work;
        GotoWork(e, s, MasterDoes(e, s).value, k, Begin(k));
      case Inline(k) => assert false;
      case Polling => PollingEnds(e, s);
      case _ =>
    }
  }

  lemma NextIsIdle(e: Env, s: State, k: nat)
    requires Inv(e, s) && s.master == Assigning(k)
    ensures |s.pc| == e.tasks && (k < e.tasks ==> s.pc[k] == Idle)
  {
    TasksCounted(e, s);
    hide Conserved, QueueOk, LockOk, ExitOk, RootOk, HoldOk;
  }

  lemma AssignMoves(e: Env, s: State, k: nat)
    requires Inv(e, s) && s.master == Assigning(k)
    ensures Closer(e, s, MasterStep)
  {
    hide Inv, ChunksWork, Total;
    NextIsIdle(e, s, k);
    var s' := MasterDoes(e, s).value;
    if k < e.tasks {
      hide Work;
      GotoWork(e, s, s', k, s'.pc[k]);
    }
  }

  lemma PollingEnds(e: Env, s: State)
    requires Inv(e, s) && s.master == Polling
    requires forall k :: 0 <= k < |s.pc| ==> s.pc[k] in {Idle, Created, Finished}
    ensures Closer(e, s, MasterStep)
  {
    forall k ensures k !in s.active {
    }
    hide Inv, ChunksWork, Total;
  }

  /** No deadlock: while the master has not returned, some step brings its return closer. */
  lemma AlwaysCloser(e: Env, s: State) returns (a: Action)
    requires Inv(e, s) && WellFormed(e) && s.master !in {Done, Dead} && Crashed !in s.pc
    ensures Closer(e, s, a)
  {
    hide Closer, Conserved, QueueOk, LockOk;
    if k :| 0 <= k < |s.pc| && Urgent(s.pc[k]) {
      a := UrgentStep(e, s, k);
    } else if |s.pc| > 0 && s.pc[0] == Producing {
      ProducerStep(e, s);
      a := TaskStep(0);
    } else if k :| 0 <= k < |s.pc| && s.pc[k] == Returned {
      a := ReturnedStep(e, s, k);
    } else if k :| 0 <= k < |s.pc| && s.pc[k] in {CheckDone, CheckEmpty, Getting} {
      assert s.done;
      ConsumerStep(e, s, k);
      a := TaskStep(k);
    } else {
      MasterMoves(e, s);
      a := MasterStep;
    }
  }

  /** From every reachable state the run can be continued until the master returns. */
  lemma {:induction false} CanReturn(e: Env, run: seq<Action>) returns (more: seq<Action>)
    requires WellFormed(e) && Run(e, run).Some?
    ensures Run(e, run + more).Some? && Run(e, run + more).value.master == Done
    decreases Work(e, Run(e, run).value)
  {
    RunKeeps(e, run);
    NoCrash(e, run);
    var s := Run(e, run).value;
    WorkLeft(e, s);
    if s.master == Done {
      more := [];
      assert run + more == run;
    } else {
      hide Inv, Work, WellFormed;
      var a := AlwaysCloser(e, s);
      RunOne(e, run, a);
      var rest := CanReturn(e, run + [a]);
      more := [a] + rest;
      Assoc(run, [a], rest);
    }
  }

  lemma RunOne(e: Env, run: seq<Action>, a: Action)
    requires Run(e, run).Some?
    ensures Run(e, run + [a]) == Do(e, Run(e, run).value, a)
  {
    assert (run + [a])[..|run|] == run;
  }

  // ----- Who does the work

  lemma SetSizes(s: set<nat>, k: nat)
    ensures |s + {k}| <= |s| + 1 && |s - {k}| <= |s|
  {
    if k in s { assert s + {k} == s; } else { assert s - {k} == s; }
  }

  /** The worker limit is never exceeded. */
  lemma {:induction false} LimitKept(e: Env, run: seq<Action>)
    requires Run(e, run).Some?
    ensures |Run(e, run).value.active| <= e.limit
  {
    if run != [] {
      var before := run[..|run| - 1];
      LimitKept(e, before);
      LimitStep(e, Run(e, before).value, run[|run| - 1]);
    }
  }

  lemma LimitStep(e: Env, s: State, a: Action)
    requires |s.active| <= e.limit && Do(e, s, a).Some?
    ensures |Do(e, s, a).value.active| <= e.limit
  {
    hide MasterDoes, TaskDoes, FinishDoes;
    match a {
      case MasterStep => ActiveByMaster(e, s);
      case TaskStep(k) => ActiveByTask(e, s, k);
      case WorkerFinish(k) => ActiveByFinish(s, k);
    }
  }

  lemma ActiveByMaster(e: Env, s: State)
    requires MasterDoes(e, s).Some? && |s.active| <= e.limit
    ensures |MasterDoes(e, s).value.active| <= e.limit
  {
    if s.master.Assigning? { SetSizes(s.active, s.master.next); }
  }

  lemma ActiveByTask(e: Env, s: State, k: nat)
    requires k < |s.pc| && TaskDoes(e, s, k).Some?
    ensures TaskDoes(e, s, k).value.active == s.active
  {
  }

  lemma ActiveByFinish(s: State, k: nat)
    requires k < |s.pc| && FinishDoes(s, k).Some?
    ensures |FinishDoes(s, k).value.active| <= |s.active|
  {
    SetSizes(s.active, k);
  }

  /** A task is done by the master itself exactly if as many workers are active as may be; otherwise a worker is made
      for it and for nothing else. */
  lemma InlineIffFull(e: Env, run: seq<Action>, k: nat)
    requires Run(e, run).Some? && Run(e, run).value.master == Assigning(k) && k < e.tasks
    ensures var s := Run(e, run).value;
            var r := Run(e, run + [MasterStep]);
            && r.Some?
            && (r.value.master == Inline(k) <==> |s.active| == e.limit)
            && (r.value.master == Inline(k) ==> r.value.active == s.active)
            && (r.value.master != Inline(k) ==> r.value.master == Starting(k) && r.value.active == s.active + {k})
  {
    RunKeeps(e, run);
    LimitKept(e, run);
    NextIsIdle(e, Run(e, run).value, k);
    hide Inv, Run;
    RunOne(e, run, MasterStep);
  }

  // ----- Malformed files

  /** If a task fails that the master does itself, the master fails with it. */
  lemma MasterFails(e: Env, run: seq<Action>, k: nat)
    requires Run(e, run).Some? && Run(e, run).value.master == Inline(k)
    requires k < |Run(e, run).value.pc| && Run(e, run).value.pc[k] == Crashed
    ensures Run(e, run + [MasterStep]) == Some(Run(e, run).value.(master := Dead))
  {
    hide Run;
    RunOne(e, run, MasterStep);
  }

  /** A failure stays. */
  lemma CrashStays(e: Env, s: State, a: Action)
    requires Do(e, s, a).Some? && Crashed in s.pc
    requires Inv(e, s)
    ensures Crashed in Do(e, s, a).value.pc
  {
    var s' := Do(e, s, a).value;
    var k :| 0 <= k < |s.pc| && s.pc[k] == Crashed;
    assert s.master.Assigning? && s.master.next < |s.pc| ==> s.pc[s.master.next] == Idle;
    hide Inv;
    assert s'.pc[k] == Crashed;
  }

  lemma DoneMeansFinished(e: Env, s: State)
    requires Inv(e, s) && s.master == Done
    ensures |s.pc| == e.tasks && forall k :: 0 <= k < |s.pc| ==> s.pc[k] == Finished
  {
    forall k | 0 <= k < |s.pc| ensures s.pc[k] == Finished {
      assert k < Assigned(e, s.master);
    }
  }

  /** Once a task has failed, the master never returns. */
  lemma {:induction false} NeverAfterCrash(e: Env, run: seq<Action>, more: seq<Action>)
    requires Run(e, run).Some? && Crashed in Run(e, run).value.pc && Run(e, run + more).Some?
    ensures Crashed in Run(e, run + more).value.pc && Run(e, run + more).value.master != Done
  {
    hide *;
    RunKeeps(e, run + more);
    if more == [] {
      assert run + more == run;
    } else {
      var n := |more| - 1;
      var before, a := run + more[..n], more[n];
      assert more == more[..n] + [a];
      Assoc(run, more[..n], [a]);
      RunBefore(e, before, a);
      NeverAfterCrash(e, run, more[..n]);
      RunKeeps(e, before);
      CrashStays(e, Run(e, before).value, a);
    }
    CrashedIsNotDone(e, Run(e, run + more).value);
  }

  lemma CrashedIsNotDone(e: Env, s: State)
    requires Inv(e, s) && Crashed in s.pc
    ensures s.master != Done
  {
    if s.master == Done { DoneMeansFinished(e, s); }
  }

  lemma RunBefore(e: Env, run: seq<Action>, a: Action)
    requires Run(e, run + [a]).Some?
    ensures Run(e, run).Some? && Run(e, run + [a]) == Do(e, Run(e, run).value, a)
  {
    assert (run + [a])[..|run|] == run;
  }

  /** With at least one consumer, the master can return exactly for a well-formed file. */
  lemma ReturnsIff(e: Env)
    requires e.tasks > 1
    ensures WellFormed(e) <==> exists run :: Run(e, run).Some? && Run(e, run).value.master == Done
  {
    if WellFormed(e) {
      var run := CanReturn(e, []);
      assert [] + run == run;
    }
    if run :| Run(e, run).Some? && Run(e, run).value.master == Done { ExactlyOnce(e, run); }
  }

  // ----- Consumers do not wait for the producer

  /** A consumer at the head of its loop takes the first chunk, whether or not the producer is done; it leaves the loop
      exactly if it sees the producer done and then no chunk. */
  lemma ConsumerTurn(e: Env, s: State, k: nat)
    requires k < |s.pc| && s.pc[k] == CheckDone
    ensures var look := if s.done then [TaskStep(k), TaskStep(k)] else [TaskStep(k)];
            var r := DoAll(e, s, look);
            && r.Some? && |r.value.pc| == |s.pc| && r.value == s.(pc := s.pc[k := r.value.pc[k]])
            && (r.value.pc[k] == Returned <==> s.done && s.queue == [])
            && (r.value.pc[k] != Returned ==> r.value.pc[k] == Getting)
    ensures s.queue != [] ==>
              var take := if s.done then [TaskStep(k), TaskStep(k), TaskStep(k)] else [TaskStep(k), TaskStep(k)];
              DoAll(e, s, take) == Some(s.(queue := s.queue[1..], pc := s.pc[k := Parsing(s.queue[0])]))
  {
    var s1 := TaskDoes(e, s, k).value;
    assert s1 == s.(pc := s.pc[k := s1.pc[k]]);
    if s.done {
      var s2 := TaskDoes(e, s1, k).value;
      assert s2.pc == s.pc[k := s2.pc[k]];
      DoTwo(e, s, TaskStep(k), TaskStep(k));
      if s.queue != [] {
        var s3 := TaskDoes(e, s2, k).value;
        assert s3.pc == s.pc[k := s3.pc[k]];
        assert [TaskStep(k), TaskStep(k), TaskStep(k)][1..] == [TaskStep(k), TaskStep(k)];
        DoTwo(e, s1, TaskStep(k), TaskStep(k));
      }
    } else {
      assert [TaskStep(k)][1..] == [];
      if s.queue != [] {
        var s2 := TaskDoes(e, s1, k).value;
        assert s2.pc == s.pc[k := s2.pc[k]];
        DoTwo(e, s, TaskStep(k), TaskStep(k));
      }
    }
  }

  function DoAll(e: Env, s: State, actions: seq<Action>): Option<State>
    decreases |actions|
  {
    if actions == [] then Some(s)
    else
      match Do(e, s, actions[0])
      case None => None
      case Some(s') => DoAll(e, s', actions[1..])
  }

  lemma DoTwo(e: Env, s: State, a: Action, b: Action)
    requires Do(e, s, a).Some?
    ensures DoAll(e, s, [a, b]) == Do(e, Do(e, s, a).value, b)
  {
    var s' := Do(e, s, a).value;
    assert [a, b][1..] == [b] && [b][1..] == [];
    assert DoAll(e, s, [a, b]) == DoAll(e, s', [b]);
    assert Do(e, s', b).Some? ==> DoAll(e, Do(e, s', b).value, []) == Do(e, s', b);
    hide Do;
  }
}
