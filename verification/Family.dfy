/** Fork, exit and wait: userprog/fork.c and userprog/wait_exit.c over the all list and the pid pool. */
module Family {
  import opened Lists
  import opened Bitmap

  /** Active covers running, ready and blocked threads outside sys_exit; Exiting is inside sys_exit
      after the children were given away; Waiting and Hanging are the two statuses of that name. */
  datatype Phase = Active | Exiting | Waiting | Hanging

  /** struct task_struct as far as the family goes. `born` counts the threads ever made, because a
      pid is used again; `user` says that the thread has a page directory. */
  datatype Proc = Proc(ppid: int, phase: Phase, exit: int, user: bool, born: nat)

  /** The all list in order, the threads on it by pid, the pid bitmap, the number of threads made,
      the exit calls so far, and what sys_wait has returned so far. */
  datatype State = State(order: seq<nat>, procs: map<nat, Proc>, pool: seq<bool>, made: nat,
                         exits: map<nat, int>, reaped: seq<(nat, int)>)

  const INIT := 1

  /** Not in, and not through with, sys_exit. */
  predicate Staying(ph: Phase) {
    ph.Active? || ph.Waiting?
  }

  /** A status narrowed to int8_t. */
  function Int8(x: int): int {
    (x + 128) % 256 - 128
  }

  ghost predicate ListOk(s: State) {
    && NoRepeats(s.order) && (forall k :: 0 <= k < |s.order| ==> s.order[k] in s.procs)
    && (forall p {:trigger p in s.order} :: p in s.procs ==> p in s.order)
    && |s.pool| == 1024 && (forall p :: p in s.procs ==> 1 <= p <= 1024 && s.pool[p - 1])
  }

  /** Process p and its parent. */
  ghost predicate ParentOk(s: State, p: nat)
    requires p in s.procs
  {
    var x := s.procs[p];
    if x.ppid == -1 then Staying(x.phase) && (x.user ==> p == INIT)
    else x.user && 0 <= x.ppid && x.ppid in s.procs
         && var y := s.procs[x.ppid]; Staying(y.phase) && y.user && y.born < x.born
  }

  ghost predicate Missed(s: State, p: nat, c: nat) {
    && p in s.procs && c in s.procs && s.procs[p].phase == Waiting && s.procs[c].ppid == p
    && s.procs[c].phase == Hanging
    && p != INIT
  }

  /** No one but pid 1 waits while a child of it hangs. */
  ghost predicate NoMissedChild(s: State) {
    forall p, c :: !Missed(s, p, c)
  }

  /** A thread that called sys_exit carries its status; what was reaped is gone, and is in the log
      once, with its status. */
  ghost predicate LogOk(s: State) {
    && (forall p :: p in s.procs ==> s.procs[p].born < s.made)
    && (forall p, q :: p in s.procs && q in s.procs && p != q ==> s.procs[p].born != s.procs[q].born)
    && (forall p :: p in s.procs ==>
          (!Staying(s.procs[p].phase) <==> s.procs[p].born in s.exits)
          && (s.procs[p].born in s.exits ==> s.procs[p].exit == s.exits[s.procs[p].born]))
    && (forall b :: b in s.exits ==> b < s.made)
    && (forall i, j :: 0 <= i < j < |s.reaped| ==> s.reaped[i].0 != s.reaped[j].0)
    && (forall i :: 0 <= i < |s.reaped| ==> s.reaped[i].0 in s.exits && s.reaped[i].1 == s.exits[s.reaped[i].0])
    && (forall i, p :: 0 <= i < |s.reaped| && p in s.procs ==> s.procs[p].born != s.reaped[i].0)
  }

  ghost predicate ParentsOk(s: State) {
    && INIT in s.procs && s.procs[INIT].ppid == -1 && s.procs[INIT].user && s.procs[INIT].born == 0
    && forall p {:trigger ParentOk(s, p)} :: p in s.procs ==> ParentOk(s, p)
  }

  ghost predicate Ok(s: State) {
    ListOk(s) && ParentsOk(s) && NoMissedChild(s) && LogOk(s)
  }

  /** Parent links lead to pid 1 from every process that has a parent. */
  ghost predicate LeadsToInit(s: State, p: nat, n: nat)
    decreases n
  {
    p == INIT || (n > 0 && p in s.procs && s.procs[p].ppid >= 0 && LeadsToInit(s, s.procs[p].ppid, n - 1))
  }

  lemma {:induction false} LinksEndAtInit(s: State, p: nat)
    requires Ok(s) && p in s.procs && s.procs[p].user
    ensures exists n: nat :: LeadsToInit(s, p, n)
    decreases s.procs[p].born
  {
    assert ParentOk(s, p);
    if s.procs[p].ppid == -1 {
      assert LeadsToInit(s, p, 0);
    } else {
      LinksEndAtInit(s, s.procs[p].ppid);
      var n: nat :| LeadsToInit(s, s.procs[p].ppid, n);
      assert LeadsToInit(s, p, n + 1);
    }
  }

  // ---- the steps ----

  /** The children of `from` given to pid 1. */
  function Adopted(procs: map<nat, Proc>, from: nat): map<nat, Proc> {
    map p | p in procs :: if procs[p].ppid == from then procs[p].(ppid := INIT) else procs[p]
  }

  /** The first thread on the all list that is a hanging child of p. */
  predicate HangingChild(s: State, p: nat, c: nat) {
    c in s.procs && s.procs[c].ppid == p && s.procs[c].phase == Hanging
  }

  predicate Child(s: State, p: nat, c: nat) {
    c in s.procs && s.procs[c].ppid == p
  }

  ghost predicate FirstHanging(s: State, p: nat, k: nat) {
    k < |s.order| && HangingChild(s, p, s.order[k]) && forall j :: 0 <= j < k ==> !HangingChild(s, p, s.order[j])
  }

  function Forked(s: State, p: nat, c: nat): State {
    s.(order := s.order + [c], procs := s.procs[c := Proc(p, Active, 0, true, s.made)], made := s.made + 1,
       pool := if 1 <= c <= |s.pool| then s.pool[c - 1 := true] else s.pool)
  }

  lemma ForkList(s: State, p: nat, c: nat)
    requires ListOk(s) && 1 <= c <= 1024 && !s.pool[c - 1]
    ensures c !in s.procs && ListOk(Forked(s, p, c))
  {
    var s' := Forked(s, p, c);
    assert c !in s.procs;
    forall x | x in s'.procs
      ensures x in s'.order
    {
      if x == c {
        assert s'.order[|s.order|] == c;
      } else {
        assert x in s.order;
      }
    }
  }

  lemma ForkParents(s: State, p: nat, c: nat)
    requires ParentsOk(s) && LogOk(s) && p in s.procs && s.procs[p].phase == Active && s.procs[p].user && c !in s.procs
    ensures ParentsOk(Forked(s, p, c))
  {
    var s' := Forked(s, p, c);
    forall x | x in s'.procs
      ensures ParentOk(s', x)
    {
      assert x != c ==> ParentOk(s, x);
    }
  }

  /** Nobody comes to wait or to hang, and no child of a waiter changes hands to another waiter. */
  lemma MissedKept(s: State, s': State)
    requires NoMissedChild(s)
    requires forall x, y :: Missed(s', x, y) ==> Missed(s, x, y)
    ensures NoMissedChild(s')
  {}

  lemma ForkKeeps(s: State, p: nat, c: nat)
    requires Ok(s) && p in s.procs && s.procs[p].phase == Active && s.procs[p].user
    requires 1 <= c <= 1024 && |s.pool| == 1024 && !s.pool[c - 1]
    ensures c !in s.procs && Ok(Forked(s, p, c))
  {
    hide ListOk, ParentsOk, LogOk, NoMissedChild;
    var s' := Forked(s, p, c);
    ForkList(s, p, c);
    ForkParents(s, p, c);
    MissedKept(s, s');
    LogGrows(s, s', c);
  }

  lemma LogGrows(s: State, s': State, c: nat)
    requires LogOk(s) && c !in s.procs
    requires s' == s.(order := s'.order, pool := s'.pool, procs := s'.procs, made := s.made + 1)
    requires c in s'.procs && s'.procs == s.procs[c := s'.procs[c]] && s'.procs[c].born == s.made
    requires s'.procs[c].phase == Active
    ensures LogOk(s')
  {}

  /** A pid taken and not used. */
  lemma LostKeeps(s: State, k: nat)
    requires Ok(s) && k < |s.pool|
    ensures Ok(s.(pool := s.pool[k := true]))
  {
    hide NoMissedChild, LogOk;
    var s' := s.(pool := s.pool[k := true]);
    assert forall p :: p in s.procs ==> ParentOk(s, p) == ParentOk(s', p);
    LogSame(s, s');
  }

  lemma LogSame(s: State, s': State)
    requires LogOk(s) && NoMissedChild(s) && s' == s.(pool := s'.pool, order := s'.order)
    ensures LogOk(s') && NoMissedChild(s')
  {
    assert forall x, y :: Missed(s', x, y) == Missed(s, x, y);
  }

  function ExitBegun(s: State, p: nat, status: int): State
    requires p in s.procs
  {
    s.(procs := Adopted(s.procs[p := s.procs[p].(phase := Exiting, exit := Int8(status))], p),
       exits := s.exits[s.procs[p].born := Int8(status)])
  }

  /** What the step does to each thread. */
  lemma BegunProc(s: State, p: nat, status: int, x: nat)
    requires ParentsOk(s) && p in s.procs && x in s.procs
    ensures var s' := ExitBegun(s, p, status);
            && s'.procs.Keys == s.procs.Keys && s.procs[p].ppid != p
            && (x == p ==> s'.procs[x] == s.procs[x].(phase := Exiting, exit := Int8(status)))
            && (x != p ==> s'.procs[x] == s.procs[x].(ppid := if s.procs[x].ppid == p then INIT else s.procs[x].ppid))
  {
    assert ParentOk(s, p);
  }

  lemma BegunList(s: State, s': State)
    requires ListOk(s) && s' == s.(procs := s'.procs, exits := s'.exits) && s'.procs.Keys == s.procs.Keys
    ensures ListOk(s')
  {
    assert forall x :: x in s'.procs <==> x in s.procs;
  }

  lemma BegunParents(s: State, p: nat, status: int)
    requires ParentsOk(s) && p in s.procs && s.procs[p].phase == Active && s.procs[p].ppid != -1
    ensures ParentsOk(ExitBegun(s, p, status))
  {
    hide ExitBegun, Int8;
    var s' := ExitBegun(s, p, status);
    assert ParentOk(s, p) && ParentOk(s, INIT);
    BegunProc(s, p, status, INIT);
    forall x | x in s'.procs
      ensures ParentOk(s', x)
    {
      BegunProc(s, p, status, x);
      assert ParentOk(s, x);
      if 0 <= s.procs[x].ppid {
        BegunProc(s, p, status, s.procs[x].ppid);
      }
    }
  }

  lemma BegunMissed(s: State, p: nat, status: int)
    requires ParentsOk(s) && NoMissedChild(s) && p in s.procs && s.procs[p].phase == Active && s.procs[p].ppid != -1
    ensures NoMissedChild(ExitBegun(s, p, status))
  {
    hide ExitBegun, ParentsOk, Int8;
    var s' := ExitBegun(s, p, status);
    BegunProc(s, p, status, p);
    forall x, y
      ensures !Missed(s', x, y)
    {
      assert !Missed(s, x, y);
      if x in s.procs && y in s.procs {
        BegunProc(s, p, status, x);
        BegunProc(s, p, status, y);
      }
    }
  }

  lemma ExitBeginKeeps(s: State, p: nat, status: int)
    requires Ok(s) && p in s.procs && s.procs[p].phase == Active && s.procs[p].ppid != -1
    ensures var s' := ExitBegun(s, p, status);
            Ok(s') && forall c :: c in s.procs ==> c in s'.procs && s'.procs[c].ppid != p
  {
    hide ListOk, ParentsOk, LogOk, NoMissedChild, Int8;
    var s' := ExitBegun(s, p, status);
    BegunProc(s, p, status, p);
    BegunList(s, s');
    BegunParents(s, p, status);
    BegunMissed(s, p, status);
    NotInit(s, p);
    forall x | x in s.procs
      ensures s'.procs[x].ppid != p && (x != p ==> s'.procs[x] == s.procs[x].(ppid := s'.procs[x].ppid))
    {
      BegunProc(s, p, status, x);
    }
    LogExits(s, s', p);
  }

  lemma NotSelf(s: State, p: nat)
    requires Ok(s) && p in s.procs
    ensures s.procs[p].ppid != p && (s.procs[p].ppid != -1 ==> p != INIT)
  {
    hide ListOk, LogOk, NoMissedChild;
    assert ParentOk(s, p);
  }

  lemma NotInit(s: State, p: nat)
    requires ParentsOk(s) && p in s.procs && s.procs[p].ppid != -1
    ensures p != INIT
  {}

  lemma LogExits(s: State, s': State, p: nat)
    requires LogOk(s) && p in s.procs && s.procs[p].phase == Active && s' == s.(procs := s'.procs, exits := s'.exits)
    requires s'.procs.Keys == s.procs.Keys && s'.procs[p].phase == Exiting && s'.procs[p].born == s.procs[p].born
    requires s'.exits == s.exits[s.procs[p].born := s'.procs[p].exit]
    requires forall x :: x in s.procs && x != p ==> s'.procs[x] == s.procs[x].(ppid := s'.procs[x].ppid)
    ensures LogOk(s')
  {
    assert s.procs[p].born !in s.exits;
  }

  /** A change of phases that neither starts nor ends an exit. */
  ghost predicate PhasesOnly(s: State, s': State) {
    && s' == s.(procs := s'.procs) && s'.procs.Keys == s.procs.Keys
    && forall x :: x in s.procs ==>
         && s'.procs[x] == s.procs[x].(phase := s'.procs[x].phase)
         && (Staying(s'.procs[x].phase) <==> Staying(s.procs[x].phase))
  }

  lemma PhasesKeep(s: State, s': State)
    requires Ok(s) && PhasesOnly(s, s')
    ensures ListOk(s') && ParentsOk(s') && LogOk(s')
  {
    hide NoMissedChild;
    PhasesList(s, s');
    PhasesLog(s, s');
    hide LogOk, ListOk;
    forall x | x in s'.procs
      ensures ParentOk(s', x)
    {
      assert ParentOk(s, x);
    }
  }

  lemma PhasesList(s: State, s': State)
    requires ListOk(s) && PhasesOnly(s, s')
    ensures ListOk(s')
  {
    assert forall x :: x in s'.procs <==> x in s.procs;
  }

  lemma PhasesLog(s: State, s': State)
    requires LogOk(s) && PhasesOnly(s, s')
    ensures LogOk(s')
  {
    forall x | x in s.procs
      ensures s'.procs[x].born == s.procs[x].born && s'.procs[x].exit == s.procs[x].exit
    {
    }
  }

  function ExitFinished(s: State, p: nat): State
    requires p in s.procs && 0 <= s.procs[p].ppid && s.procs[p].ppid in s.procs
  {
    var y := s.procs[p].ppid;
    var woken := if s.procs[y].phase == Waiting then s.procs[y := s.procs[y].(phase := Active)] else s.procs;
    s.(procs := woken[p := s.procs[p].(phase := Hanging)])
  }

  lemma FinishMissed(s: State, p: nat)
    requires NoMissedChild(s) && p in s.procs && 0 <= s.procs[p].ppid && s.procs[p].ppid in s.procs
    ensures NoMissedChild(ExitFinished(s, p))
  {
    var s' := ExitFinished(s, p);
    forall x, y
      ensures !Missed(s', x, y)
    {
      assert !Missed(s, x, y);
    }
  }

  lemma ExitFinishKeeps(s: State, p: nat)
    requires Ok(s) && p in s.procs && s.procs[p].phase == Exiting
    ensures 0 <= s.procs[p].ppid && s.procs[p].ppid in s.procs && Ok(ExitFinished(s, p))
  {
    hide ListOk, LogOk, NoMissedChild;
    assert ParentOk(s, p);
    FinishMissed(s, p);
    PhasesKeep(s, ExitFinished(s, p));
  }

  function Reaped(s: State, k: nat): State
    requires k < |s.order| && s.order[k] in s.procs
  {
    var c := s.order[k];
    s.(order := Lists.Without(s.order, k), procs := s.procs - {c},
       pool := if 1 <= c <= |s.pool| then s.pool[c - 1 := false] else s.pool,
       reaped := s.reaped + [(s.procs[c].born, s.procs[c].exit)])
  }

  lemma NoRepeatsWithout(order: seq<nat>, k: nat)
    requires NoRepeats(order) && k < |order|
    ensures NoRepeats(Lists.Without(order, k)) && order[k] !in Lists.Without(order, k)
  {}

  lemma StaysWithout(order: seq<nat>, k: nat, x: nat)
    requires k < |order| && x in order && x != order[k]
    ensures x in Lists.Without(order, k)
  {
    var j :| 0 <= j < |order| && order[j] == x;
    assert Lists.Without(order, k)[if j < k then j else j - 1] == x;
  }

  /** One thread leaves the all list and gives its pid back. */
  lemma ListKept(s: State, s': State, k: nat)
    requires ListOk(s) && k < |s.order| && s'.order == Lists.Without(s.order, k) && s'.procs == s.procs - {s.order[k]}
    requires 1 <= s.order[k] <= |s.pool| && s'.pool == s.pool[s.order[k] - 1 := false]
    ensures ListOk(s')
  {
    hide NoRepeats;
    NoRepeatsWithout(s.order, k);
    OrderKept(s, s', k);
    PoolKept(s, s', s.order[k]);
  }

  lemma OrderKept(s: State, s': State, k: nat)
    requires ListOk(s) && k < |s.order| && s'.order == Lists.Without(s.order, k) && s'.procs == s.procs - {s.order[k]}
    ensures forall j :: 0 <= j < |s'.order| ==> s'.order[j] in s'.procs
    ensures forall p {:trigger p in s'.order} :: p in s'.procs ==> p in s'.order
  {
    forall x | x in s'.procs
      ensures x in s'.order
    {
      assert x in s.order;
      StaysWithout(s.order, k, x);
    }
  }

  lemma PoolKept(s: State, s': State, c: nat)
    requires ListOk(s) && s'.procs == s.procs - {c} && 1 <= c <= 1024 && s'.pool == s.pool[c - 1 := false]
    ensures forall p :: p in s'.procs ==> 1 <= p <= 1024 && s'.pool[p - 1]
  {}

  /** A thread that is nobody's parent goes. */
  lemma ParentsWithout(s: State, s': State, c: nat)
    requires ParentsOk(s) && c in s.procs && s'.procs == s.procs - {c} && c != INIT
    requires s.procs[c].phase == Hanging || !s.procs[c].user
    ensures ParentsOk(s') && forall x, y :: Missed(s', x, y) ==> Missed(s, x, y)
  {
    forall x | x in s'.procs
      ensures ParentOk(s', x)
    {
      assert ParentOk(s, x);
    }
  }

  lemma ReapKeeps(s: State, p: nat, k: nat)
    requires Ok(s) && FirstHanging(s, p, k)
    ensures Ok(Reaped(s, k)) && 1 <= s.order[k] <= |s.pool|
  {
    hide ParentsOk, NoMissedChild, LogOk;
    var c := s.order[k];
    var s' := Reaped(s, k);
    InitNotHanging(s, c);
    hide ListOk;
    ListKept(s, s', k);
    ParentsWithout(s, s', c);
    MissedKept(s, s');
    LogReaps(s, s', c);
  }

  lemma InitNotHanging(s: State, c: nat)
    requires ParentsOk(s) && c in s.procs && s.procs[c].phase == Hanging
    ensures c != INIT
  {
    assert ParentOk(s, c);
  }

  lemma LogReaps(s: State, s': State, c: nat)
    requires LogOk(s) && c in s.procs && s.procs[c].phase == Hanging
    requires s' == s.(order := s'.order, pool := s'.pool, procs := s.procs - {c},
                      reaped := s.reaped + [(s.procs[c].born, s.procs[c].exit)])
    ensures LogOk(s')
  {}

  lemma BlockKeeps(s: State, p: nat)
    requires Ok(s) && p in s.procs && s.procs[p].phase == Active
    requires forall c :: c in s.procs ==> !HangingChild(s, p, c)
    ensures Ok(s.(procs := s.procs[p := s.procs[p].(phase := Waiting)]))
  {
    hide ListOk, LogOk, ParentsOk;
    var s' := s.(procs := s.procs[p := s.procs[p].(phase := Waiting)]);
    forall x, y
      ensures !Missed(s', x, y)
    {
      assert !Missed(s, x, y);
      assert y in s.procs ==> !HangingChild(s, p, y);
    }
    PhasesKeep(s, s');
  }

  /** A kernel thread goes. */
  lemma KernelGone(s: State, s': State, k: nat)
    requires Ok(s) && k < |s.order| && s.order[k] in s.procs && !s.procs[s.order[k]].user
    requires s.procs[s.order[k]].phase == Active && 1 <= s.order[k] <= |s.pool|
    requires s' == s.(order := Lists.Without(s.order, k), procs := s.procs - {s.order[k]},
                      pool := s.pool[s.order[k] - 1 := false])
    ensures Ok(s')
  {
    hide NoMissedChild, ListOk, LogOk;
    ListKept(s, s', k);
    ParentsWithout(s, s', s.order[k]);
    MissedKept(s, s');
    LogLess(s, s', s.order[k]);
  }

  lemma LogLess(s: State, s': State, c: nat)
    requires LogOk(s) && s' == s.(order := s'.order, pool := s'.pool, procs := s.procs - {c})
    ensures LogOk(s')
  {}

  lemma ListFacts(s: State)
    requires Ok(s)
    ensures |s.pool| == 1024 && NoRepeats(s.order)
    ensures forall k :: 0 <= k < |s.order| ==> s.order[k] in s.procs
    ensures forall p {:trigger p in s.order} :: p in s.procs ==> p in s.order
    ensures forall p :: p in s.procs ==> 1 <= p <= 1024 && s.pool[p - 1]
  {}

  /** How sys_fork ends: no page for the child, no page for its bitmap or page directory once it has
      a pid, or a child. */
  datatype ForkEnd = NoPage | PidLost | NewChild

  datatype WaitEnd = Got(pid: nat, status: int) | NoChild | Blocked

  class Processes {
    var order: seq<nat>
    var procs: map<nat, Proc>
    var pool: seq<bool>
    var made: nat
    var exits: map<nat, int>
    var reaped: seq<(nat, int)>

    ghost function S(): State
      reads this
    {
      State(order, procs, pool, made, exits, reaped)
    }

    /** thread_init: init, main and idle take pids 1, 2 and 3. */
    constructor ()
      ensures Ok(S()) && order == [1, 2, 3] && reaped == []
    {
      order := [1, 2, 3];
      procs := map[1 := Proc(-1, Active, 0, true, 0), 2 := Proc(-1, Active, 0, false, 1),
                   3 := Proc(-1, Active, 0, false, 2)];
      pool := [true, true, true] + seq(1021, _ => false);
      made := 3;
      exits := map[];
      reaped := [];
      new;
      FirstOk(S());
    }

    /** allocate_pid, while one of the 1024 is free. */
    method AllocatePid() returns (pid: nat)
      requires |pool| == 1024 && FirstClear(pool) != -1
      modifies this`pool
      ensures 1 <= pid <= 1024 && pid - 1 == FirstClear(old(pool)) && pool == old(pool)[pid - 1 := true]
    {
      var bit := FirstClear(pool);
      pool := pool[bit := true];
      pid := bit + 1;
    }

    /** sys_fork by a running process. A failure after the pid was taken keeps the pid. */
    method Fork(p: nat, end: ForkEnd) returns (r: int)
      requires Ok(S()) && p in procs && procs[p].phase == Active && procs[p].user
      requires FirstClear(pool) != -1
      modifies this
      ensures Ok(S())
      ensures end == NoPage ==> r == -1 && S() == old(S())
      ensures end == PidLost ==> r == -1 && S() == old(S()).(pool := old(pool)[FirstClear(old(pool)) := true])
      ensures end == NewChild ==> r == FirstClear(old(pool)) + 1 && r !in old(procs) && S() == Forked(old(S()), p, r)
      ensures end == NewChild ==>
                procs == old(procs)[r := Proc(p, Active, 0, true, old(made))] && order == old(order) + [r]
                                  && made == old(made) + 1 && pool == old(pool)[r - 1 := true]
                                  && exits == old(exits) && reaped == old(reaped)
    {
      hide Ok;
      if end == NoPage {
        return -1;
      }
      ListFacts(S());
      ForkKeeps(S(), p, FirstClear(pool) + 1);
      LostKeeps(S(), FirstClear(pool));
      var c := AllocatePid();
      if end == PidLost {
        return -1;
      }
      procs := procs[c := Proc(p, Active, 0, true, made)];
      made := made + 1;
      order := order + [c];
      r := c;
    }

    /** sys_exit up to the release of the process's resources: the status is kept and pid 1 becomes
        the parent of the children. Releasing may switch threads. */
    method ExitBegin(p: nat, status: int)
      requires Ok(S()) && p in procs && procs[p].phase == Active && procs[p].ppid != -1
      modifies this
      ensures Ok(S()) && S() == ExitBegun(old(S()), p, status)
      ensures forall c :: c in procs ==> procs[c].ppid != p
      ensures procs.Keys == old(procs).Keys && p != INIT
      ensures forall c :: c in old(procs) && c != p ==>
                procs[c] == old(procs)[c].(ppid := if old(procs)[c].ppid == p then INIT else old(procs)[c].ppid)
      ensures procs[p] == old(procs)[p].(phase := Exiting, exit := Int8(status))
      ensures exits == old(exits)[old(procs)[p].born := Int8(status)] && order == old(order) && pool == old(pool)
    {
      hide Ok, Int8;
      ghost var s := S();
      ListFacts(s);
      ExitBeginKeeps(s, p, status);
      NotSelf(s, p);
      exits := exits[procs[p].born := Int8(status)];
      procs := procs[p := procs[p].(phase := Exiting, exit := Int8(status))];
      GiveChildren(p);
    }

    /** The list_traversal of init_adopt_a_child. */
    method GiveChildren(from: nat)
      requires NoRepeats(order) && (forall k :: 0 <= k < |order| ==> order[k] in procs)
      requires forall p {:trigger p in order} :: p in procs ==> p in order
      modifies this`procs
      ensures procs == Adopted(old(procs), from)
    {
      ghost var before := procs;
      var k := 0;
      while k < |order|
        invariant k <= |order| && procs.Keys == before.Keys
        invariant forall j :: 0 <= j < k ==> procs[order[j]] == Adopted(before, from)[order[j]]
        invariant forall j :: k <= j < |order| ==> procs[order[j]] == before[order[j]]
      {
        var x := order[k];
        if procs[x].ppid == from {
          procs := procs[x := procs[x].(ppid := INIT)];
        }
        k := k + 1;
      }
      forall x | x in before
        ensures procs[x] == Adopted(before, from)[x]
      {
        assert x in order;
      }
    }

    /** The end of sys_exit. The parent is found, is woken if it waits, and the process hangs. */
    method ExitFinish(p: nat)
      requires Ok(S()) && p in procs && procs[p].phase == Exiting
      modifies this
      ensures Ok(S()) && 0 <= old(procs)[p].ppid && old(procs)[p].ppid in old(procs) && S() == ExitFinished(old(S()), p)
      ensures var y := old(procs)[p].ppid;
              && y != p && procs.Keys == old(procs).Keys && procs[p] == old(procs)[p].(phase := Hanging)
              && procs[y] ==
                   old(procs)[y].(phase := if old(procs)[y].phase == Waiting then Active else old(procs)[y].phase)
              && forall x :: x in old(procs) && x != p && x != y ==> procs[x] == old(procs)[x]
      ensures order == old(order) && pool == old(pool) && exits == old(exits) && reaped == old(reaped)
    {
      hide Ok;
      ExitFinishKeeps(S(), p);
      NotSelf(S(), p);
      var y := procs[p].ppid;
      if procs[y].phase == Waiting {
        procs := procs[y := procs[y].(phase := Active)];
      }
      procs := procs[p := procs[p].(phase := Hanging)];
    }

    /** list_traversal with find_hanging_child: the position of the first one, or the length. */
    method FindHanging(p: nat) returns (k: nat)
      requires forall j :: 0 <= j < |order| ==> order[j] in procs
      ensures k <= |order| && (k < |order| ==> FirstHanging(S(), p, k))
      ensures forall j :: 0 <= j < k ==> !HangingChild(S(), p, order[j])
    {
      k := 0;
      while k < |order|
        invariant k <= |order| && forall j :: 0 <= j < k ==> !HangingChild(S(), p, order[j])
      {
        if procs[order[k]].ppid == p && procs[order[k]].phase == Hanging {
          return;
        }
        k := k + 1;
      }
    }

    /** list_traversal with find_child. */
    method FindChild(p: nat) returns (k: nat)
      requires forall j :: 0 <= j < |order| ==> order[j] in procs
      ensures k <= |order| && (k < |order| ==> Child(S(), p, order[k]))
      ensures forall j :: 0 <= j < k ==> !Child(S(), p, order[j])
    {
      k := 0;
      while k < |order|
        invariant k <= |order| && forall j :: 0 <= j < k ==> !Child(S(), p, order[j])
      {
        if procs[order[k]].ppid == p {
          return;
        }
        k := k + 1;
      }
    }

    /** One turn of sys_wait, up to its return or to the switch when there are only living children;
        the loop goes on with another turn when the process runs again. */
    method Wait(p: nat) returns (r: WaitEnd, ghost at: nat)
      requires Ok(S()) && p in procs && procs[p].phase == Active
      modifies this
      ensures Ok(S())
      ensures r.Got? <==> exists c :: HangingChild(old(S()), p, c)
      ensures r.Got? ==> FirstHanging(old(S()), p, at) && r.pid == old(order)[at] && S() == Reaped(old(S()), at)
                         && reaped == old(reaped) + [(old(procs)[r.pid].born, r.status)]
      ensures r.Got? ==> HangingChild(old(S()), p, r.pid) && r.status == old(procs)[r.pid].exit
                         && procs == old(procs) - {r.pid} && 1 <= r.pid <= |old(pool)|
                         && pool == old(pool)[r.pid - 1 := false]
                         && order == Lists.Without(old(order), at) && made == old(made) && exits == old(exits)
      ensures r.NoChild? ==> S() == old(S()) && forall c :: !Child(old(S()), p, c)
      ensures r.Blocked? ==> S() == old(S()).(procs := old(procs)[p := old(procs)[p].(phase := Waiting)])
      ensures r.Blocked? ==> exists c :: Child(old(S()), p, c)
    {
      hide Ok;
      ghost var s := S();
      ListFacts(s);
      var k := FindHanging(p);
      at := k;
      if k < |order| {
        var c := order[k];
        assert HangingChild(s, p, c);
        ReapKeeps(s, p, k);
        var status := procs[c].exit;
        reaped := reaped + [(procs[c].born, status)];
        order := Lists.Without(order, k);
        procs := procs - {c};
        pool := pool[c - 1 := false];
        return Got(c, status), k;
      }
      forall c | c in procs
        ensures !HangingChild(s, p, c)
      {
        assert c in order;
      }
      assert forall c :: !HangingChild(s, p, c);
      var m := FindChild(p);
      if m == |order| {
        forall c | c in procs
          ensures !Child(s, p, c)
        {
          assert c in order;
        }
        return NoChild, k;
      }
      assert Child(s, p, order[m]);
      BlockKeeps(s, p);
      procs := procs[p := procs[p].(phase := Waiting)];
      r := Blocked;
    }

    /** thread_exit of a kernel thread by itself. */
    method KernelExit(p: nat) returns (ghost at: nat)
      requires Ok(S()) && p in procs && procs[p].phase == Active && !procs[p].user
      modifies this`order, this`procs, this`pool
      ensures Ok(S()) && procs == old(procs) - {p}
      ensures at < |old(order)| && old(order)[at] == p && order == Lists.Without(old(order), at)
      ensures 1 <= p <= |old(pool)| && pool == old(pool)[p - 1 := false]
    {
      hide Ok;
      ghost var s := S();
      ListFacts(s);
      assert p in order;
      var k := 0;
      while order[k] != p
        invariant k < |order| && forall j :: 0 <= j < k ==> order[j] != p
        decreases |order| - k
      {
        k := k + 1;
      }
      at := k;
      order := Lists.Without(order, k);
      procs := procs - {p};
      pool := pool[p - 1 := false];
      KernelGone(s, S(), k);
    }
  }

  lemma FirstOk(s: State)
    requires s.order == [1, 2, 3] && s.made == 3 && s.exits == map[] && s.reaped == []
    requires s.procs ==
             map[1 := Proc(-1, Active, 0, true, 0), 2 := Proc(-1, Active, 0, false, 1),
                 3 := Proc(-1, Active, 0, false, 2)]
    requires s.pool == [true, true, true] + seq(1021, _ => false)
    ensures Ok(s)
  {
    hide ListOk, LogOk, NoMissedChild;
    assert s.procs.Keys == {1, 2, 3};
    FirstList(s);
    FirstLog(s);
    assert forall x, y :: !Missed(s, x, y);
    MissedNone(s);
  }

  lemma MissedNone(s: State)
    requires forall x, y :: !Missed(s, x, y)
    ensures NoMissedChild(s)
  {}

  lemma FirstList(s: State)
    requires s.order == [1, 2, 3] && s.procs.Keys == {1, 2, 3} && |s.pool| == 1024 && s.pool[0] && s.pool[1]
    requires s.pool[2]
    ensures ListOk(s)
  {
    assert s.order[0] == 1 && s.order[1] == 2 && s.order[2] == 3;
  }

  lemma FirstLog(s: State)
    requires s.made == 3 && s.exits == map[] && s.reaped == []
    requires s.procs ==
             map[1 := Proc(-1, Active, 0, true, 0), 2 := Proc(-1, Active, 0, false, 1),
                 3 := Proc(-1, Active, 0, false, 2)]
    ensures LogOk(s)
  {}

  /** A choice of the run: some process, whichever runs, makes a call or goes on with one. */
  datatype Choice = DoFork(p: nat, end: ForkEnd) | DoExit(p: nat, status: int) | DoFinish(p: nat) | DoWait(p: nat)
                  | DoKernelExit(p: nat)

  /** What one turn of sys_wait does. */
  ghost function Waited(s: State, p: nat): State
    requires p in s.procs
  {
    if exists k :: FirstHanging(s, p, k) then
      var k :| FirstHanging(s, p, k);
      Reaped(s, k)
    else if exists c :: Child(s, p, c) then s.(procs := s.procs[p := s.procs[p].(phase := Waiting)])
    else s
  }

  /** Kernel thread p is gone, and its pid is free. */
  ghost function Left(s: State, p: nat): State {
    if p in s.order && 1 <= p <= |s.pool| then
      var k :| 0 <= k < |s.order| && s.order[k] == p;
      s.(order := Lists.Without(s.order, k), procs := s.procs - {p}, pool := s.pool[p - 1 := false])
    else s
  }

  /** When a choice can happen: the process is there, and at a point where it could do that. */
  ghost predicate Enabled(s: State, c: Choice) {
    c.p in s.procs && match c
      case DoFork(p, _) => s.procs[p].phase == Active && s.procs[p].user && FirstClear(s.pool) != -1
      case DoExit(p, _) => s.procs[p].phase == Active && s.procs[p].ppid != -1
      case DoFinish(p) => s.procs[p].phase == Exiting && 0 <= s.procs[p].ppid && s.procs[p].ppid in s.procs
      case DoWait(p) => s.procs[p].phase == Active
      case DoKernelExit(p) => s.procs[p].phase == Active && !s.procs[p].user
  }

  /** What a choice does to the state. */
  ghost function Next(s: State, c: Choice): State {
    if !Enabled(s, c) then s
    else match c
      case DoFork(p, NoPage) => s
      case DoFork(p, PidLost) => s.(pool := s.pool[FirstClear(s.pool) := true])
      case DoFork(p, NewChild) => Forked(s, p, FirstClear(s.pool) + 1)
      case DoExit(p, status) => ExitBegun(s, p, status)
      case DoFinish(p) => ExitFinished(s, p)
      case DoWait(p) => Waited(s, p)
      case DoKernelExit(p) => Left(s, p)
  }

  /** The state after the first k choices. */
  ghost function After(s: State, choices: seq<Choice>, k: nat): State
    requires k <= |choices|
  {
    if k == 0 then s else Next(After(s, choices, k - 1), choices[k - 1])
  }

  lemma FirstIsOne(s: State, p: nat, j: nat, k: nat)
    requires FirstHanging(s, p, j) && FirstHanging(s, p, k)
    ensures j == k
  {}

  /** A process with a hanging child has a first one on the all list. */
  lemma FirstThere(s: State, p: nat, c: nat)
    requires Ok(s) && HangingChild(s, p, c)
    ensures exists k :: FirstHanging(s, p, k)
  {
    hide LogOk, ParentsOk, NoMissedChild;
    assert c in s.order;
    var j := 0;
    while !HangingChild(s, p, s.order[j])
      invariant j < |s.order| && forall i :: 0 <= i < j ==> !HangingChild(s, p, s.order[i])
      decreases |s.order| - j
    {
      j := j + 1;
    }
    assert FirstHanging(s, p, j);
  }

  lemma WaitedKeeps(s: State, p: nat)
    requires Ok(s) && p in s.procs && s.procs[p].phase == Active
    ensures Ok(Waited(s, p))
  {
    hide Ok;
    if exists k :: FirstHanging(s, p, k) {
      var k :| FirstHanging(s, p, k) && Waited(s, p) == Reaped(s, k);
      ReapKeeps(s, p, k);
    } else if exists c :: Child(s, p, c) {
      forall c | c in s.procs
        ensures !HangingChild(s, p, c)
      {
        if HangingChild(s, p, c) {
          FirstThere(s, p, c);
        }
      }
      BlockKeeps(s, p);
    }
  }

  lemma LeftKeeps(s: State, p: nat)
    requires Ok(s) && p in s.procs && s.procs[p].phase == Active && !s.procs[p].user
    ensures Ok(Left(s, p))
  {
    hide Ok;
    ListFacts(s);
    assert p in s.order;
    var k :| 0 <= k < |s.order| && s.order[k] == p && Left(s, p).order == Lists.Without(s.order, k);
    KernelGone(s, Left(s, p), k);
  }

  lemma NextKeeps(s: State, c: Choice)
    requires Ok(s)
    ensures Ok(Next(s, c))
  {
    hide Ok, Waited, Left, ExitBegun, ExitFinished, Forked;
    if Enabled(s, c) {
      ListFacts(s);
      match c {
        case DoFork(p, NoPage) =>
        case DoFork(p, PidLost) => LostKeeps(s, FirstClear(s.pool));
        case DoFork(p, NewChild) => ForkKeeps(s, p, FirstClear(s.pool) + 1);
        case DoExit(p, status) => ExitBeginKeeps(s, p, status);
        case DoFinish(p) => ExitFinishKeeps(s, p);
        case DoWait(p) => WaitedKeeps(s, p);
        case DoKernelExit(p) => LeftKeeps(s, p);
      }
    }
  }

  ghost predicate AllLeadToInit(s: State) {
    forall p: nat :: p in s.procs && s.procs[p].user ==> exists n: nat :: LeadsToInit(s, p, n)
  }

  lemma AllLinks(s: State)
    requires Ok(s)
    ensures AllLeadToInit(s)
  {
    hide Ok, LeadsToInit;
    forall p: nat | p in s.procs && s.procs[p].user
      ensures exists n: nat :: LeadsToInit(s, p, n)
    {
      LinksEndAtInit(s, p);
    }
  }

  /** Over every run of fork, exit and wait, with any switches between: at each point the family is in
      order, and so every process with a page directory leads to pid 1. */
  lemma {:induction false} RunKeeps(s: State, choices: seq<Choice>, k: nat)
    requires Ok(s) && k <= |choices|
    ensures Ok(After(s, choices, k)) && AllLeadToInit(After(s, choices, k))
  {
    hide Ok, Next;
    if k > 0 {
      RunKeeps(s, choices, k - 1);
      NextKeeps(After(s, choices, k - 1), choices[k - 1]);
    }
    AllLinks(After(s, choices, k));
  }

  // ---- whose child, and what its parent gets ----

  /** int8_t: the one value in range that differs from the argument by a multiple of 256; so it is the
      argument itself when that is in range. */
  lemma Int8Is(x: int)
    ensures -128 <= Int8(x) <= 127 && (Int8(x) - x) % 256 == 0
    ensures -128 <= x <= 127 ==> Int8(x) == x
  {}

  /** Process r, the b-th ever made, is a child of p. */
  ghost predicate ChildOf(s: State, p: nat, r: nat, b: nat) {
    r in s.procs && s.procs[r].born == b && s.procs[r].ppid == p && s.procs[r].user
  }

  /** A fork by p gives a child of p, last on the all list, and changes no other process. */
  lemma ForkGivesChild(s: State, p: nat)
    requires Ok(s) && Enabled(s, DoFork(p, NewChild))
    ensures var r, s' := FirstClear(s.pool) + 1, Next(s, DoFork(p, NewChild));
            && r !in s.procs && ChildOf(s', p, r, s.made) && s'.procs[r].phase == Active && s'.order == s.order + [r]
            && s'.procs.Keys == s.procs.Keys + {r} && forall x :: x in s.procs ==> s'.procs[x] == s.procs[x]
  {
    hide Ok;
    ListFacts(s);
    ForkKeeps(s, p, FirstClear(s.pool) + 1);
  }

  /** p waits and gets process r with the status that is kept for it; r is gone and its pid is free. */
  ghost predicate GotBy(s: State, s': State, p: nat, r: nat, b: nat) {
    && HangingChild(s, p, r) && s.procs[r].born == b && b in s.exits && s'.reaped == s.reaped + [(b, s.exits[b])]
    && r !in s'.procs && 1 <= r <= |s'.pool| && !s'.pool[r - 1]
  }

  /** A turn of sys_wait reaps a hanging child or changes nobody's parent. */
  lemma WaitChild(s: State, p: nat, q: nat, r: nat, b: nat)
    requires Ok(s) && q in s.procs && s.procs[q].phase == Active && ChildOf(s, p, r, b)
    ensures ChildOf(Waited(s, q), p, r, b) || (q == p && GotBy(s, Waited(s, q), p, r, b))
  {
    hide ListOk, NoMissedChild, ParentsOk, LogOk;
    if exists k :: FirstHanging(s, q, k) {
      var k: nat :| FirstHanging(s, q, k) && Waited(s, q) == Reaped(s, k);
      ReapKeeps(s, q, k);
      if s.order[k] == r {
        HangingLogged(s, r);
      }
    }
  }

  lemma HangingLogged(s: State, r: nat)
    requires Ok(s) && r in s.procs && s.procs[r].phase == Hanging
    ensures s.procs[r].born in s.exits && s.procs[r].exit == s.exits[s.procs[r].born]
  {
    hide ListOk, NoMissedChild, ParentsOk;
  }

  /** Only its parent's exit or its parent's wait ends that r is a child of p. */
  lemma StepChild(s: State, c: Choice, p: nat, r: nat, b: nat)
    requires Ok(s) && ChildOf(s, p, r, b) && !(c.DoExit? && c.p == p && Enabled(s, c))
    ensures ChildOf(Next(s, c), p, r, b) || (c == DoWait(p) && GotBy(s, Next(s, c), p, r, b))
  {
    hide Ok, Waited, GotBy, Reaped;
    if Enabled(s, c) {
      match c {
        case DoFork(q, NoPage) =>
        case DoFork(q, PidLost) =>
        case DoFork(q, NewChild) => ForkGivesChild(s, q);
        case DoExit(q, status) =>
        case DoFinish(q) => NotSelf(s, q);
        case DoWait(q) => WaitChild(s, p, q, r, b);
        case DoKernelExit(q) => LeftOthers(s, q);
      }
    }
  }

  lemma LeftOthers(s: State, p: nat)
    ensures Left(s, p).procs == s.procs - {p} || Left(s, p) == s
  {}

  /** Over every run in which p does not exit: r stays p's child until p's own wait gets it, once. */
  lemma {:induction false} ChildUntilWait(s: State, choices: seq<Choice>, k: nat, p: nat, r: nat, b: nat)
    requires Ok(s) && k <= |choices| && ChildOf(s, p, r, b)
    requires forall j :: 0 <= j < k ==>
               !(choices[j].DoExit? && choices[j].p == p && Enabled(After(s, choices, j), choices[j]))
    ensures || ChildOf(After(s, choices, k), p, r, b)
            || exists j :: 0 <= j < k && choices[j] == DoWait(p)
                           && GotBy(After(s, choices, j), After(s, choices, j + 1), p, r, b)
  {
    hide Ok, Next, ChildOf, GotBy, Enabled;
    if k > 0 {
      ChildUntilWait(s, choices, k - 1, p, r, b);
      if ChildOf(After(s, choices, k - 1), p, r, b) {
        RunKeeps(s, choices, k - 1);
        StepChild(After(s, choices, k - 1), choices[k - 1], p, r, b);
      }
    }
  }

  /** A status that was passed to sys_exit is kept for good. */
  lemma ExitsKept(s: State, c: Choice, b: nat)
    requires Ok(s) && b in s.exits
    ensures b in Next(s, c).exits && Next(s, c).exits[b] == s.exits[b]
  {
    hide ListOk, NoMissedChild, ParentsOk;
  }

  lemma {:induction false} ExitsStay(s: State, choices: seq<Choice>, i: nat, j: nat, b: nat)
    requires Ok(s) && i <= j <= |choices| && b in After(s, choices, i).exits
    ensures b in After(s, choices, j).exits && After(s, choices, j).exits[b] == After(s, choices, i).exits[b]
  {
    hide Ok, Next;
    if i < j {
      ExitsStay(s, choices, i, j - 1, b);
      RunKeeps(s, choices, j - 1);
      ExitsKept(After(s, choices, j - 1), choices[j - 1], b);
    }
  }

  /** A waiting parent gets its only hanging child. */
  lemma WaitGets(s: State, p: nat, r: nat)
    requires Ok(s) && p in s.procs && s.procs[p].phase == Active && HangingChild(s, p, r)
    requires forall c :: HangingChild(s, p, c) ==> c == r
    ensures GotBy(s, Waited(s, p), p, r, s.procs[r].born)
  {
    hide Ok;
    FirstThere(s, p, r);
    var k :| FirstHanging(s, p, k) && Waited(s, p) == Reaped(s, k);
    ReapKeeps(s, p, k);
    HangingLogged(s, r);
  }

  /** When r passes v to sys_exit, and at some later point hangs as the only such child of p, a wait by p
      then gets r with that very value, as an int8_t. */
  lemma ParentGetsStatus(s: State, choices: seq<Choice>, i: nat, j: nat, p: nat, r: nat, v: int)
    requires Ok(s) && i < j < |choices| && choices[i] == DoExit(r, v) && Enabled(After(s, choices, i), choices[i])
    requires choices[j] == DoWait(p) && Enabled(After(s, choices, j), choices[j])
    requires HangingChild(After(s, choices, j), p, r)
    requires After(s, choices, j).procs[r].born == After(s, choices, i).procs[r].born
    requires forall c :: HangingChild(After(s, choices, j), p, c) ==> c == r
    ensures var e, e' := After(s, choices, j), After(s, choices, j + 1);
            && e'.reaped == e.reaped + [(e.procs[r].born, Int8(v))] && r !in e'.procs
            && (-128 <= v <= 127 ==> Int8(v) == v)
  {
    hide Ok, ExitBegun, Waited, Int8;
    RunKeeps(s, choices, i);
    RunKeeps(s, choices, j);
    var b := After(s, choices, i).procs[r].born;
    ExitRecorded(After(s, choices, i), r, v);
    ExitsStay(s, choices, i + 1, j, b);
    WaitGets(After(s, choices, j), p, r);
    Int8Is(v);
  }

  lemma ExitRecorded(s: State, r: nat, v: int)
    requires r in s.procs
    ensures s.procs[r].born in ExitBegun(s, r, v).exits && ExitBegun(s, r, v).exits[s.procs[r].born] == Int8(v)
  {}

  /** One choice on the processes themselves. */
  method Perform(f: Processes, c: Choice)
    requires Ok(f.S())
    modifies f
    ensures Ok(f.S()) && f.S() == Next(old(f.S()), c)
  {
    hide Ok, LogOk, ExitBegun, ExitFinished, Forked;
    ghost var s := f.S();
    var p := c.p;
    if p in f.procs {
      match c {
        case DoFork(_, end) =>
          if f.procs[p].phase == Active && f.procs[p].user && FirstClear(f.pool) != -1 {
            var r := f.Fork(p, end);
          }
        case DoExit(_, status) =>
          if f.procs[p].phase == Active && f.procs[p].ppid != -1 {
            f.ExitBegin(p, status);
          }
        case DoFinish(_) =>
          if f.procs[p].phase == Exiting {
            f.ExitFinish(p);
          }
        case DoWait(_) =>
          if f.procs[p].phase == Active {
            var r, at := f.Wait(p);
            WaitIsWaited(s, f.S(), p, r, at);
          }
        case DoKernelExit(_) =>
          if f.procs[p].phase == Active && !f.procs[p].user {
            ListFacts(s);
            var at := f.KernelExit(p);
            LeftIs(s, p, at);
          }
      }
    }
  }

  lemma LeftIs(s: State, p: nat, at: nat)
    requires NoRepeats(s.order) && at < |s.order| && s.order[at] == p && 1 <= p <= |s.pool|
    ensures Left(s, p) ==
            s.(order := Lists.Without(s.order, at), procs := s.procs - {p}, pool := s.pool[p - 1 := false])
  {}

  /** The contract of Wait in one function. */
  lemma WaitIsWaited(s: State, s': State, p: nat, r: WaitEnd, at: nat)
    requires Ok(s) && p in s.procs
    requires r.Got? <==> exists c :: HangingChild(s, p, c)
    requires r.Got? ==> FirstHanging(s, p, at) && s' == Reaped(s, at)
    requires r.NoChild? ==> s' == s && forall c :: !Child(s, p, c)
    requires r.Blocked? ==> s' == s.(procs := s.procs[p := s.procs[p].(phase := Waiting)]) && exists c :: Child(s, p, c)
    ensures s' == Waited(s, p)
  {
    hide Ok;
    if r.Got? {
      var k :| FirstHanging(s, p, k) && Waited(s, p) == Reaped(s, k);
      FirstIsOne(s, p, at, k);
    } else {
      forall k: nat
        ensures !FirstHanging(s, p, k)
      {}
    }
  }

  /** A run on the processes themselves. */
  method Run(f: Processes, choices: seq<Choice>)
    requires Ok(f.S())
    modifies f
    ensures Ok(f.S()) && f.S() == After(old(f.S()), choices, |choices|)
  {
    hide Ok, Next;
    var k := 0;
    while k < |choices|
      invariant k <= |choices| && Ok(f.S()) && f.S() == After(old(f.S()), choices, k)
    {
      Perform(f, choices[k]);
      k := k + 1;
    }
  }
}
