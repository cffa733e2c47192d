/** thread/thread.c and the queues of thread/sync.c: who runs, who is ready, who waits where. */
module Schedulers {
  import opened Lists

  datatype Status = Running | Ready | Blocked | Waiting | Hanging

  /** One semaphore: its value and the threads on its waiters list, first to be woken first. */
  datatype Sema = Sema(value: nat, waiters: seq<nat>)

  /** The threads of the all list with their status, the ready list, the running thread and the
      semaphores. */
  datatype State = State(status: map<nat, Status>, ready: seq<nat>, cur: nat, idle: nat, semas: map<nat, Sema>)

  /** No thread is on two waiters lists or twice on one, and whoever is on one is BLOCKED and not
      the idle thread. */
  ghost predicate QueuesOk(s: State) {
    && (forall q :: q in s.semas ==> s.semas[q].value <= 1 && NoRepeats(s.semas[q].waiters))
    && (forall q, k {:trigger s.semas[q].waiters[k]} :: q in s.semas && 0 <= k < |s.semas[q].waiters| ==>
          var t := s.semas[q].waiters[k]; t in s.status && s.status[t] == Blocked && t != s.idle)
    && (forall p, q, j, k {:trigger s.semas[p].waiters[j], s.semas[q].waiters[k]} ::
          p in s.semas && q in s.semas && p != q && 0 <= j < |s.semas[p].waiters| && 0 <= k < |s.semas[q].waiters|
          ==> s.semas[p].waiters[j] != s.semas[q].waiters[k])
  }

  /** The ready list has exactly the READY threads, each once. */
  ghost predicate ReadyOk(s: State) {
    && NoRepeats(s.ready)
    && (forall k :: 0 <= k < |s.ready| ==> s.ready[k] in s.status && s.status[s.ready[k]] == Ready)
    && (forall t :: t in s.status && s.status[t] == Ready ==> t in s.ready)
  }

  /** The idle thread is there, and if it is not running it is ready or blocked. */
  ghost predicate IdleOk(s: State) {
    s.idle in s.status && s.status[s.idle] in {Running, Ready, Blocked}
  }

  /** What holds whenever a thread is running. */
  ghost predicate Safe(s: State) {
    && QueuesOk(s) && ReadyOk(s) && IdleOk(s)
    && s.cur in s.status && (forall t :: t in s.status ==> (s.status[t] == Running <==> t == s.cur))
  }

  /** What holds when schedule is called: the caller may have given itself any status, and may
      already have left the all list. */
  ghost predicate Leaving(s: State) {
    && QueuesOk(s) && ReadyOk(s) && IdleOk(s)
    && (forall t :: t in s.status && s.status[t] == Running ==> t == s.cur)
  }

  /** The reading of Safe: exactly one thread is RUNNING, the READY threads are exactly the ready
      list, and a thread is on at most one list. */
  lemma SafeMeans(s: State, t: nat)
    requires Safe(s) && t in s.status
    ensures s.status[t] == Running <==> t == s.cur
    ensures s.status[t] == Ready <==> t in s.ready
    ensures forall i, j :: 0 <= i < j < |s.ready| && s.ready[i] == t ==> s.ready[j] != t
    ensures forall q :: q in s.semas && t in s.semas[q].waiters ==> t !in s.ready && t != s.cur
    ensures forall p, q :: p in s.semas && q in s.semas && t in s.semas[p].waiters && t in s.semas[q].waiters ==> p == q
  {
    forall p, q | p in s.semas && q in s.semas && t in s.semas[p].waiters && t in s.semas[q].waiters
      ensures p == q
    {
      var j :| 0 <= j < |s.semas[p].waiters| && s.semas[p].waiters[j] == t;
      var k :| 0 <= k < |s.semas[q].waiters| && s.semas[q].waiters[k] == t;
    }
  }

  // ---- the effect of each operation ----

  /** thread_unblock's change: the thread goes to the front of the ready list. */
  function Woken(s: State, t: nat): State {
    s.(status := s.status[t := Ready], ready := [t] + s.ready)
  }

  /** schedule: a running caller goes to the end of the ready list, the idle thread is woken when
      the list is empty, and the first of the list runs. */
  function Scheduled(s: State): State
  {
    var a := if s.cur in s.status && s.status[s.cur] == Running
             then s.(status := s.status[s.cur := Ready], ready := s.ready + [s.cur]) else s;
    var b := if a.ready == [] then Woken(a, a.idle) else a;
    b.(status := b.status[b.ready[0] := Running], ready := b.ready[1..], cur := b.ready[0])
  }

  lemma UnblockKeeps(s: State, t: nat)
    requires QueuesOk(s) && ReadyOk(s) && t in s.status && s.status[t] != Ready
    requires forall q, k {:trigger s.semas[q].waiters[k]} ::
               q in s.semas && 0 <= k < |s.semas[q].waiters| ==> s.semas[q].waiters[k] != t
    ensures QueuesOk(Woken(s, t)) && ReadyOk(Woken(s, t))
  {
    var s' := Woken(s, t);
    forall k | 0 <= k < |s'.ready|
      ensures s'.ready[k] in s'.status && s'.status[s'.ready[k]] == Ready
    {
      if k > 0 {
        assert s'.ready[k] == s.ready[k - 1];
      }
    }
    forall x | x in s'.status && s'.status[x] == Ready
      ensures x in s'.ready
    {
      if x == t {
        assert s'.ready[0] == t;
      } else {
        assert x in s.ready;
      }
    }
    forall i, j | 0 <= i < j < |s'.ready|
      ensures s'.ready[i] != s'.ready[j]
    {
      assert s'.ready[j] == s.ready[j - 1];
    }
  }

  /** A running thread appended to the ready list. */
  lemma RequeueKeeps(s: State)
    requires QueuesOk(s) && ReadyOk(s) && s.cur in s.status && s.status[s.cur] == Running
    ensures var s' := s.(status := s.status[s.cur := Ready], ready := s.ready + [s.cur]);
            QueuesOk(s') && ReadyOk(s')
  {
    var s' := s.(status := s.status[s.cur := Ready], ready := s.ready + [s.cur]);
    forall x | x in s'.status && s'.status[x] == Ready
      ensures x in s'.ready
    {
      if x == s.cur {
        assert s'.ready[|s.ready|] == x;
      } else {
        assert x in s.ready;
      }
    }
  }

  lemma DispatchKeeps(s: State)
    requires QueuesOk(s) && ReadyOk(s) && IdleOk(s) && s.ready != []
    requires forall t :: t in s.status ==> s.status[t] != Running
    ensures Safe(s.(status := s.status[s.ready[0] := Running], ready := s.ready[1..], cur := s.ready[0]))
  {
    var n := s.ready[0];
    var s' := s.(status := s.status[n := Running], ready := s.ready[1..], cur := n);
    forall x | x in s'.status && s'.status[x] == Ready
      ensures x in s'.ready
    {
      assert x in s.ready && x != n;
      var k :| 0 <= k < |s.ready| && s.ready[k] == x;
      assert s'.ready[k - 1] == x;
    }
  }

  /** Whatever status its caller has given itself, schedule leaves a safe state; the idle thread is
      there to run when nobody else is ready, and can be woken then. */
  lemma ScheduledSafe(s: State)
    requires Leaving(s)
    ensures Safe(Scheduled(s))
  {
    hide QueuesOk, Safe, Loose;
    var a := if s.cur in s.status && s.status[s.cur] == Running
             then s.(status := s.status[s.cur := Ready], ready := s.ready + [s.cur]) else s;
    if s.cur in s.status && s.status[s.cur] == Running {
      RequeueKeeps(s);
      assert a.ready[|s.ready|] == s.cur;
    }
    var b := if a.ready == [] then Woken(a, a.idle) else a;
    if a.ready == [] {
      NotQueued(a, a.idle);
      UnblockLoose(a, a.idle);
    }
    DispatchKeeps(b);
  }

  class Scheduler {
    var status: map<nat, Status>
    var ready: seq<nat>
    var cur: nat
    const idle: nat
    var semas: map<nat, Sema>

    ghost function S(): State
      reads this
    {
      State(status, ready, cur, idle, semas)
    }

    /** thread_init, seen from its end: the main thread runs; init and the idle thread are ready. */
    constructor (init: nat, main: nat, idle: nat)
      requires init != main && main != idle && init != idle
      ensures Safe(S())
      ensures S() == State(map[init := Ready, main := Running, idle := Ready], [init, idle], main, idle, map[])
    {
      this.status := map[init := Ready, main := Running, idle := Ready];
      this.ready := [init, idle];
      this.cur := main;
      this.idle := idle;
      this.semas := map[];
    }

    /** schedule. Its assertion that a running caller is not on the ready list holds. The first of the
        ready list runs, behind which a running caller has lined up, or the idle thread. */
    method Schedule()
      requires Leaving(S())
      modifies this
      ensures Safe(S()) && S() == Scheduled(old(S())) && semas == old(semas)
      ensures old(ready) != [] ==> cur == old(ready)[0]
      ensures old(ready) == [] ==>
                cur == if old(cur) in old(status) && old(status)[old(cur)] == Running then old(cur) else idle
      ensures if old(cur) in old(status) && old(status)[old(cur)] == Running
              then ready == (old(ready) + [old(cur)])[1..] && status == old(status)[old(cur) := Ready][cur := Running]
              else ready == (if old(ready) == [] then [] else old(ready)[1..]) && status == old(status)[cur := Running]
    {
      hide QueuesOk, Safe;
      ScheduledSafe(S());
      if cur in status && status[cur] == Running {
        assert cur !in ready;
        ready := ready + [cur];
        status := status[cur := Ready];
      }
      if ready == [] {
        assert status[idle] == Blocked;
        ready := [idle] + ready;
        status := status[idle := Ready];
      }
      var next := ready[0];
      ready := ready[1..];
      status := status[next := Running];
      cur := next;
    }

    /** The timer interrupt when the running thread's ticks are used up. */
    method Tick()
      requires Safe(S())
      modifies this
      ensures Safe(S()) && S() == Scheduled(old(S()))
      ensures cur == (old(ready) + [old(cur)])[0] && ready == (old(ready) + [old(cur)])[1..]
      ensures semas == old(semas) && status == old(status)[old(cur) := Ready][cur := Running]
    {
      Schedule();
    }

    /** thread_yield: the same, but the caller puts itself on the ready list. */
    method Yield()
      requires Safe(S())
      modifies this
      ensures Safe(S()) && cur == (old(ready) + [old(cur)])[0] && ready == (old(ready) + [old(cur)])[1..]
      ensures semas == old(semas) && status == old(status)[old(cur) := Ready][cur := Running]
      ensures S() == Scheduled(old(S()))
    {
      assert cur !in ready;
      RequeueKeeps(S());
      status := status[cur := Ready];
      ready := ready + [cur];
      Schedule();
    }

    /** thread_block with a status that puts the caller on no queue: waiting for a child, hanging,
        or blocked on a ring buffer; and the idle thread's own blocking. */
    method Block(stat: Status)
      requires Safe(S()) && stat in {Blocked, Waiting, Hanging} && (cur == idle ==> stat == Blocked)
      modifies this
      ensures Safe(S()) && S() == Scheduled(old(S()).(status := old(status)[old(cur) := stat]))
      ensures cur == (if old(ready) == [] then idle else old(ready)[0])
      ensures ready == (if old(ready) == [] then [] else old(ready)[1..]) && semas == old(semas)
      ensures status == old(status)[old(cur) := stat][cur := Running]
    {
      BlockKeeps(S(), stat);
      status := status[cur := stat];
      Schedule();
    }

    /** thread_unblock. The thread must not be queued on a semaphore; its assertions hold. */
    method Unblock(t: nat)
      requires Safe(S()) && t in status && status[t] in {Blocked, Waiting, Hanging}
      requires forall q :: q in semas ==> t !in semas[q].waiters
      modifies this
      ensures Safe(S()) && S() == Woken(old(S()), t)
      ensures ready == [t] + old(ready) && status == old(status)[t := Ready] && cur == old(cur) && semas == old(semas)
    {
      assert t !in ready;
      UnblockKeeps(S(), t);
      ready := [t] + ready;
      status := status[t := Ready];
    }

    /** thread_start and the end of sys_fork: a new thread goes to the end of the ready list. */
    method Start(t: nat)
      requires Safe(S()) && t !in status
      modifies this
      ensures Safe(S()) && S() == old(S()).(status := old(status)[t := Ready], ready := old(ready) + [t])
    {
      assert t !in ready;
      StartKeeps(S(), t);
      ready := ready + [t];
      status := status[t := Ready];
    }

    /** thread_exit(t, false), from sys_wait: a hanging thread leaves the all list. */
    method Reap(t: nat)
      requires Safe(S()) && t in status && status[t] == Hanging && t != idle
      modifies this
      ensures Safe(S()) && S() == old(S()).(status := old(status) - {t})
    {
      assert t !in ready;
      status := status - {t};
    }

    /** thread_exit(cur, true). */
    method ExitSelf()
      requires Safe(S()) && cur != idle
      modifies this
      ensures Safe(S()) && S() == Scheduled(old(S()).(status := old(status) - {old(cur)})) && old(cur) !in status
      ensures cur == (if old(ready) == [] then idle else old(ready)[0])
      ensures ready == (if old(ready) == [] then [] else old(ready)[1..]) && semas == old(semas)
      ensures status == (old(status) - {old(cur)})[cur := Running]
    {
      assert cur !in ready;
      status := status - {cur};
      Schedule();
    }

    // ---- thread/sync.c: semaphores ----

    /** sema_init. */
    method SemaInit(q: nat, value: nat)
      requires Safe(S()) && q !in semas && value <= 1
      modifies this
      ensures Safe(S()) && S() == old(S()).(semas := old(semas)[q := Sema(value, [])])
    {
      semas := semas[q := Sema(value, [])];
    }

    /** One turn of sema_down, from the test of the value to the end or to the switch: the loop goes
        on, with another turn, when the thread runs again. */
    method SemaDown(q: nat) returns (done: bool)
      requires Safe(S()) && q in semas && cur != idle
      modifies this
      ensures Safe(S()) && old(semas)[q].value <= 1 && done == (old(semas)[q].value == 1)
      ensures done ==> S() == old(S()).(semas := old(semas)[q := old(semas)[q].(value := 0)])
      ensures !done ==> S() == Scheduled(old(S()).(
                status := old(status)[old(cur) := Blocked],
                semas := old(semas)[q := old(semas)[q].(waiters := old(semas)[q].waiters + [old(cur)])]))
      ensures !done ==>
                && cur == (if old(ready) == [] then idle else old(ready)[0])
                && ready == (if old(ready) == [] then [] else old(ready)[1..])
                && status == old(status)[old(cur) := Blocked][cur := Running]
                && semas == old(semas)[q := Sema(0, old(semas)[q].waiters + [old(cur)])]
    {
      if semas[q].value == 0 {
        NotQueued(S(), cur);
        EnqueueKeeps(S(), q);
        semas := semas[q := semas[q].(waiters := semas[q].waiters + [cur])];
        status := status[cur := Blocked];
        Schedule();
        return false;
      }
      semas := semas[q := semas[q].(value := semas[q].value - 1)];
      assert semas[q].value == 0;
      done := true;
    }

    /** sema_up, by a caller that took the value: the first waiter becomes ready. */
    method SemaUp(q: nat)
      requires Safe(S()) && q in semas && semas[q].value == 0
      modifies this
      ensures Safe(S())
      ensures var w := old(semas)[q].waiters;
              if w == [] then S() == old(S()).(semas := old(semas)[q := Sema(1, [])])
              else S() == Woken(old(S()), w[0]).(semas := old(semas)[q := Sema(1, w[1..])])
                   && ready == [w[0]] + old(ready) && status == old(status)[w[0] := Ready]
      ensures cur == old(cur)
    {
      hide Safe, Loose, Woken;
      ghost var s := S();
      if semas[q].waiters != [] {
        var t := semas[q].waiters[0];
        DequeueKeeps(S(), q);
        semas := semas[q := semas[q].(waiters := semas[q].waiters[1..])];
        WokenSafe(S(), t);
        ready := [t] + ready;
        status := status[t := Ready];
      }
      ghost var s1 := S();
      semas := semas[q := semas[q].(value := semas[q].value + 1)];
      assert semas[q].value == 1;
      ValueKeeps(s1, q);
      WokenIs(s, if s.semas[q].waiters == [] then 0 else s.semas[q].waiters[0]);
    }

    // ---- runs ----

    /** One step of a run: the running thread, or the timer, does what the action says, when the
        kernel lets it. */
    method Perform(a: Action)
      requires Safe(S())
      modifies this
      ensures Safe(S()) && S() == Next(old(S()), a)
    {
      hide Safe, Woken, Scheduled;
      match a {
        case ATick => Tick();
        case AYield => Yield();
        case ABlock(stat) =>
          if stat in {Blocked, Waiting, Hanging} && (cur == idle ==> stat == Blocked) {
            Block(stat);
          }
        case AUnblock(t) =>
          if && t in status && status[t] in {Blocked, Waiting, Hanging}
             && forall q :: q in semas ==> t !in semas[q].waiters {
            Unblock(t);
          }
        case AStart(t) =>
          if t !in status {
            Start(t);
          }
        case AReap(t) =>
          if t in status && status[t] == Hanging && t != idle {
            Reap(t);
          }
        case AExit =>
          if cur != idle {
            ExitSelf();
          }
        case ADown(q) =>
          if q in semas && cur != idle {
            var done := SemaDown(q);
          }
        case AUp(q) =>
          if q in semas && semas[q].value == 0 {
            SemaUp(q);
          }
      }
    }

    /** A run of the kernel's scheduler. */
    method Run(actions: seq<Action>)
      requires Safe(S())
      modifies this
      ensures Safe(S()) && S() == After(old(S()), actions, |actions|)
    {
      hide Safe, Next;
      var k := 0;
      while k < |actions|
        invariant k <= |actions| && Safe(S()) && S() == After(old(S()), actions, k)
      {
        Perform(actions[k]);
        k := k + 1;
      }
    }
  }

  datatype Action = ATick | AYield | ABlock(stat: Status) | AUnblock(t: nat) | AStart(t: nat) | AReap(t: nat) | AExit
                  | ADown(q: nat) | AUp(q: nat)

  /** What the callers in the kernel see to before they act. */
  ghost predicate Enabled(s: State, a: Action) {
    match a
    case ATick => true
    case AYield => true
    case ABlock(stat) => stat in {Blocked, Waiting, Hanging} && (s.cur == s.idle ==> stat == Blocked)
    case AUnblock(t) =>
      && t in s.status && s.status[t] in {Blocked, Waiting, Hanging}
      && forall q :: q in s.semas ==> t !in s.semas[q].waiters
    case AStart(t) => t !in s.status
    case AReap(t) => t in s.status && s.status[t] == Hanging && t != s.idle
    case AExit => s.cur != s.idle
    case ADown(q) => q in s.semas && s.cur != s.idle
    case AUp(q) => q in s.semas && s.semas[q].value == 0
  }

  /** What an action does to the state; nothing when its callers do not let it happen. */
  ghost function Next(s: State, a: Action): State {
    if !Enabled(s, a) then s
    else match a
      case ATick => Scheduled(s)
      case AYield => Scheduled(s)
      case ABlock(stat) => Scheduled(s.(status := s.status[s.cur := stat]))
      case AUnblock(t) => Woken(s, t)
      case AStart(t) => s.(status := s.status[t := Ready], ready := s.ready + [t])
      case AReap(t) => s.(status := s.status - {t})
      case AExit => Scheduled(s.(status := s.status - {s.cur}))
      case ADown(q) =>
        if s.semas[q].value == 0 then
          Scheduled(s.(status := s.status[s.cur := Blocked],
                       semas := s.semas[q := s.semas[q].(waiters := s.semas[q].waiters + [s.cur])]))
        else s.(semas := s.semas[q := s.semas[q].(value := 0)])
      case AUp(q) =>
        var w := s.semas[q].waiters;
        if w == [] then s.(semas := s.semas[q := Sema(1, [])])
        else Woken(s, w[0]).(semas := s.semas[q := Sema(1, w[1..])])
  }

  /** The state after the first k actions. */
  ghost function After(s: State, actions: seq<Action>, k: nat): State
    requires k <= |actions|
  {
    if k == 0 then s else Next(After(s, actions, k - 1), actions[k - 1])
  }

  /** Every action keeps the state safe. */
  lemma NextSafe(s: State, a: Action)
    requires Safe(s)
    ensures Safe(Next(s, a))
  {
    hide Safe, Scheduled, Loose, Woken;
    if Enabled(s, a) {
      match a {
        case ATick =>
          RunningLeaves(s);
          ScheduledSafe(s);
        case AYield =>
          RunningLeaves(s);
          ScheduledSafe(s);
        case ABlock(stat) =>
          BlockKeeps(s, stat);
          ScheduledSafe(s.(status := s.status[s.cur := stat]));
        case AUnblock(t) =>
          LooseIs(s, t);
          WokenIs(s, t);
          WokenSafe(s, t);
        case AStart(t) =>
          StartKeeps(s, t);
        case AReap(t) =>
          ReapKeeps(s, t);
        case AExit =>
          ExitKeeps(s);
          ScheduledSafe(s.(status := s.status - {s.cur}));
        case ADown(q) =>
          DownSafe(s, q);
        case AUp(q) =>
          UpSafe(s, q);
      }
    }
  }

  /** Over every run, whatever the threads and the timer do and in whatever order: at each point one
      thread runs, the ready list is right, and nobody is on two lists. */
  lemma {:induction false} RunSafe(s: State, actions: seq<Action>, k: nat)
    requires Safe(s) && k <= |actions|
    ensures Safe(After(s, actions, k))
  {
    hide Safe, Next;
    if k > 0 {
      RunSafe(s, actions, k - 1);
      NextSafe(After(s, actions, k - 1), actions[k - 1]);
    }
  }

  // ---- who runs next ----

  /** The action takes the processor from the running thread. */
  ghost predicate Dispatches(s: State, a: Action) {
    Enabled(s, a) && match a
      case ATick => true
      case AYield => true
      case ABlock(_) => true
      case AExit => true
      case ADown(q) => s.semas[q].value == 0
      case _ => false
  }

  /** The action puts a thread at the front of the ready list. */
  ghost predicate Jumps(s: State, a: Action) {
    Enabled(s, a) && match a
      case AUnblock(_) => true
      case AUp(q) => s.semas[q].waiters != []
      case _ => false
  }

  /** How often the first n actions take the processor from someone. */
  ghost function Turns(s: State, actions: seq<Action>, n: nat): nat
    requires n <= |actions|
  {
    if n == 0 then 0
    else Turns(s, actions, n - 1) + if Dispatches(After(s, actions, n - 1), actions[n - 1]) then 1 else 0
  }

  /** What schedule makes of the ready list. */
  lemma FirstRuns(s: State)
    requires s.ready != []
    ensures Scheduled(s).cur == s.ready[0] && |Scheduled(s).ready| >= |s.ready| - 1
    ensures forall k :: 0 < k < |s.ready| ==> Scheduled(s).ready[k - 1] == s.ready[k]
  {}

  /** An action that puts nobody in front moves each ready thread one place up when it dispatches, and
      none otherwise. */
  lemma StepMoves(s: State, a: Action, k: nat)
    requires k < |s.ready| && !Jumps(s, a)
    ensures Dispatches(s, a) ==> Next(s, a).cur == s.ready[0]
    ensures Dispatches(s, a) && k > 0 ==> k - 1 < |Next(s, a).ready| && Next(s, a).ready[k - 1] == s.ready[k]
    ensures !Dispatches(s, a) ==> k < |Next(s, a).ready| && Next(s, a).ready[k] == s.ready[k] && Next(s, a).cur == s.cur
  {
    hide Scheduled, Woken;
    if Dispatches(s, a) {
      match a {
        case ATick => FirstRuns(s);
        case AYield => FirstRuns(s);
        case ABlock(stat) => FirstRuns(s.(status := s.status[s.cur := stat]));
        case AExit => FirstRuns(s.(status := s.status - {s.cur}));
        case ADown(q) =>
          FirstRuns(s.(status := s.status[s.cur := Blocked],
                       semas := s.semas[q := s.semas[q].(waiters := s.semas[q].waiters + [s.cur])]));
        case _ =>
      }
    }
  }

  /** As long as nobody is put in front, a ready thread moves up with each dispatch. */
  lemma {:induction false} MovesUp(s: State, actions: seq<Action>, n: nat, k: nat)
    requires n <= |actions| && k < |s.ready| && Turns(s, actions, n) <= k
    requires forall j :: 0 <= j < n ==> !Jumps(After(s, actions, j), actions[j])
    ensures var e := After(s, actions, n);
            k - Turns(s, actions, n) < |e.ready| && e.ready[k - Turns(s, actions, n)] == s.ready[k]
  {
    hide Next, Dispatches, Jumps;
    if n > 0 {
      MovesUp(s, actions, n - 1, k);
      StepMoves(After(s, actions, n - 1), actions[n - 1], k - Turns(s, actions, n - 1));
    }
  }

  /** So the thread at position k of the ready list runs with dispatch k + 1: first come, first
      served, and nobody starves. */
  lemma RunsInTurn(s: State, actions: seq<Action>, n: nat, k: nat)
    requires 0 < n <= |actions| && k < |s.ready|
    requires Turns(s, actions, n - 1) == k && Turns(s, actions, n) == k + 1
    requires forall j :: 0 <= j < n ==> !Jumps(After(s, actions, j), actions[j])
    ensures After(s, actions, n).cur == s.ready[k]
  {
    hide Next, Dispatches, Jumps;
    MovesUp(s, actions, n - 1, k);
    StepMoves(After(s, actions, n - 1), actions[n - 1], 0);
  }

  lemma RunningLeaves(s: State)
    requires Safe(s)
    ensures Leaving(s)
  {}

  lemma LooseIs(s: State, t: nat)
    requires forall q :: q in s.semas ==> t !in s.semas[q].waiters
    ensures Loose(s, t)
  {
    forall q, k {:trigger s.semas[q].waiters[k]} | q in s.semas && 0 <= k < |s.semas[q].waiters|
      ensures s.semas[q].waiters[k] != t
    {
      assert s.semas[q].waiters[k] in s.semas[q].waiters;
    }
  }

  lemma ReapKeeps(s: State, t: nat)
    requires Safe(s) && t in s.status && s.status[t] == Hanging && t != s.idle
    ensures Safe(s.(status := s.status - {t}))
  {
    assert t !in s.ready;
  }

  lemma ExitKeeps(s: State)
    requires Safe(s) && s.cur != s.idle
    ensures Leaving(s.(status := s.status - {s.cur}))
  {
    assert s.cur !in s.ready;
  }

  lemma DownSafe(s: State, q: nat)
    requires Safe(s) && q in s.semas && s.cur != s.idle
    ensures s.semas[q].value == 0 ==>
              Safe(Scheduled(s.(status := s.status[s.cur := Blocked],
                                semas := s.semas[q := s.semas[q].(waiters := s.semas[q].waiters + [s.cur])])))
    ensures s.semas[q].value != 0 ==> Safe(s.(semas := s.semas[q := s.semas[q].(value := 0)]))
  {
    hide Scheduled, Leaving;
    if s.semas[q].value == 0 {
      EnqueueKeeps(s, q);
      ScheduledSafe(s.(status := s.status[s.cur := Blocked],
                       semas := s.semas[q := s.semas[q].(waiters := s.semas[q].waiters + [s.cur])]));
    } else {
      var s' := s.(semas := s.semas[q := s.semas[q].(value := 0)]);
      assert forall p :: p in s.semas ==> s'.semas[p].waiters == s.semas[p].waiters;
    }
  }

  lemma UpSafe(s: State, q: nat)
    requires Safe(s) && q in s.semas && s.semas[q].value == 0
    ensures var w := s.semas[q].waiters;
            Safe(if w == [] then s.(semas := s.semas[q := Sema(1, [])])
                 else Woken(s, w[0]).(semas := s.semas[q := Sema(1, w[1..])]))
  {
    hide Safe, Loose;
    var w := s.semas[q].waiters;
    if w == [] {
      ValueKeeps(s, q);
    } else {
      DequeueKeeps(s, q);
      var s1 := s.(semas := s.semas[q := s.semas[q].(waiters := w[1..])]);
      WokenSafe(s1, w[0]);
      ValueKeeps(s1.(status := s1.status[w[0] := Ready], ready := [w[0]] + s1.ready), q);
      assert s1.semas[q := s1.semas[q].(value := 1)] == s.semas[q := Sema(1, w[1..])];
    }
  }

  lemma WokenIs(s: State, t: nat)
    ensures Woken(s, t) == s.(status := s.status[t := Ready], ready := [t] + s.ready)
  {}

  lemma WokenSafe(s: State, t: nat)
    requires Safe(s) && t in s.status && s.status[t] in {Blocked, Waiting, Hanging} && Loose(s, t)
    ensures Safe(s.(status := s.status[t := Ready], ready := [t] + s.ready))
  {
    UnblockKeeps(s, t);
  }

  lemma ValueKeeps(s: State, q: nat)
    requires Safe(s) && q in s.semas
    ensures Safe(s.(semas := s.semas[q := s.semas[q].(value := 1)]))
  {
    var s' := s.(semas := s.semas[q := s.semas[q].(value := 1)]);
    assert forall p :: p in s.semas ==> s'.semas[p].waiters == s.semas[p].waiters;
  }

  lemma UnblockLoose(s: State, t: nat)
    requires QueuesOk(s) && ReadyOk(s) && t in s.status && s.status[t] != Ready && Loose(s, t)
    ensures QueuesOk(Woken(s, t)) && ReadyOk(Woken(s, t))
  {
    UnblockKeeps(s, t);
  }

  lemma NotQueued(s: State, t: nat)
    requires QueuesOk(s) && (t == s.idle || (t in s.status && s.status[t] != Blocked) || Loose(s, t))
    ensures forall q :: q in s.semas ==> t !in s.semas[q].waiters
    ensures Loose(s, t)
  {
    forall q | q in s.semas
      ensures t !in s.semas[q].waiters
    {}
  }

  /** Thread t is on no waiters list. */
  ghost predicate Loose(s: State, t: nat) {
    forall q, k {:trigger s.semas[q].waiters[k]} :: q in s.semas && 0 <= k < |s.semas[q].waiters| ==>
        s.semas[q].waiters[k] != t
  }

  lemma BlockKeeps(s: State, stat: Status)
    requires Safe(s) && stat in {Blocked, Waiting, Hanging} && (s.cur == s.idle ==> stat == Blocked)
    ensures Leaving(s.(status := s.status[s.cur := stat]))
  {}

  lemma StartKeeps(s: State, t: nat)
    requires Safe(s) && t !in s.status
    ensures Safe(s.(status := s.status[t := Ready], ready := s.ready + [t]))
  {
    var s' := s.(status := s.status[t := Ready], ready := s.ready + [t]);
    forall x | x in s'.status && s'.status[x] == Ready
      ensures x in s'.ready
    {
      if x == t {
        assert s'.ready[|s.ready|] == t;
      } else {
        assert x in s.ready;
      }
    }
  }

  lemma EnqueueKeeps(s: State, q: nat)
    requires Safe(s) && q in s.semas && s.cur != s.idle
    ensures Leaving(s.(status := s.status[s.cur := Blocked],
                       semas := s.semas[q := s.semas[q].(waiters := s.semas[q].waiters + [s.cur])]))
  {
    var s' := s.(status := s.status[s.cur := Blocked],
                 semas := s.semas[q := s.semas[q].(waiters := s.semas[q].waiters + [s.cur])]);
    NotQueued(s, s.cur);
    forall p, k {:trigger s'.semas[p].waiters[k]} | p in s'.semas && 0 <= k < |s'.semas[p].waiters|
      ensures var t := s'.semas[p].waiters[k]; t in s'.status && s'.status[t] == Blocked && t != s'.idle
    {
      assert p != q || k < |s.semas[q].waiters| ==> s'.semas[p].waiters[k] == s.semas[p].waiters[k];
    }
  }

  lemma DequeueKeeps(s: State, q: nat)
    requires Safe(s) && q in s.semas && s.semas[q].waiters != []
    ensures var t := s.semas[q].waiters[0];
            var s' := s.(semas := s.semas[q := s.semas[q].(waiters := s.semas[q].waiters[1..])]);
            Safe(s') && Loose(s', t) && t in s.status && s.status[t] == Blocked && t != s.cur
  {
    var t := s.semas[q].waiters[0];
    var s' := s.(semas := s.semas[q := s.semas[q].(waiters := s.semas[q].waiters[1..])]);
    forall p, k {:trigger s'.semas[p].waiters[k]} | p in s'.semas && 0 <= k < |s'.semas[p].waiters|
      ensures s'.semas[p].waiters[k] != t
    {
      if p == q {
        assert s'.semas[p].waiters[k] == s.semas[q].waiters[k + 1];
      } else {
        assert s'.semas[p].waiters[k] == s.semas[p].waiters[k];
      }
    }
  }
}
