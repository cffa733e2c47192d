/** thread/sync.c: the recursive lock over its semaphore, with a thread switch possible between any
    two sections that do not run with interrupts off. */
module Locks {
  import opened Lists

  datatype Holder = Nobody | Thread(id: nat)

  /** Where a thread stands in lock_acquire or lock_release:
      Testing and Again are before the test and the increment of lock_acquire, Downing and Woken at
      the head of sema_down's loop, Queued asleep in it, Taken and Claimed after it; Releasing is
      before the test of lock_release, Dropping, Clearing, Zeroing and Upping before its steps. */
  datatype Pc = Out | Testing | Again | Downing | Woken | Queued | Taken | Claimed
              | Releasing | Dropping | Clearing | Zeroing | Upping

  datatype State = State(value: nat, waiters: seq<nat>, holder: Holder, repeat: nat, pc: map<nat, Pc>,
                         depth: map<nat, nat>)

  /** Thread t has the lock, or has its semaphore and is on the way in or out. */
  ghost predicate Owns(s: State, t: nat) {
    t in s.pc && t in s.depth && (s.depth[t] > 0 || s.pc[t] in {Taken, Claimed, Upping})
  }

  /** The point that thread t has reached agrees with the lock's fields. */
  ghost predicate AgreesAt(s: State, t: nat)
    requires t in s.pc && t in s.depth
  {
    match s.pc[t]
    case Out => s.depth[t] > 0 ==> s.holder == Thread(t) && s.repeat == s.depth[t]
    case Testing => s.depth[t] > 0 ==> s.holder == Thread(t) && s.repeat == s.depth[t]
    case Again => s.depth[t] > 0 && s.holder == Thread(t) && s.repeat == s.depth[t]
    case Downing => s.depth[t] == 0
    case Woken => s.depth[t] == 0
    case Queued => s.depth[t] == 0
    case Taken => s.depth[t] == 0 && s.holder == Nobody && s.repeat == 0
    case Claimed => s.depth[t] == 0 && s.holder == Thread(t) && s.repeat == 0
    case Releasing => s.depth[t] > 0 && s.holder == Thread(t) && s.repeat == s.depth[t]
    case Dropping => s.depth[t] > 1 && s.holder == Thread(t) && s.repeat == s.depth[t]
    case Clearing => s.depth[t] == 1 && s.holder == Thread(t) && s.repeat == 1
    case Zeroing => s.depth[t] == 1 && s.holder == Nobody && s.repeat == 1
    case Upping => s.depth[t] == 0 && s.holder == Nobody && s.repeat == 0
  }

  ghost predicate QueueOk(s: State) {
    && NoRepeats(s.waiters)
    && (forall k :: 0 <= k < |s.waiters| ==> s.waiters[k] in s.pc && s.pc[s.waiters[k]] == Queued)
    && (forall t :: t in s.pc && s.pc[t] == Queued ==> t in s.waiters)
  }

  /** Some woken thread has not yet tested the value again. */
  ghost predicate SomeoneWoken(s: State) {
    exists t :: t in s.pc && s.pc[t] == Woken
  }

  ghost predicate Inv(s: State) {
    && s.pc.Keys == s.depth.Keys && s.value <= 1
    && (forall t :: t in s.pc ==> AgreesAt(s, t))
    && (forall t, u :: Owns(s, t) && Owns(s, u) ==> t == u)
    && ((exists t :: Owns(s, t)) <==> s.value == 0)
    && ((forall t :: !Owns(s, t)) ==> s.holder == Nobody && s.repeat == 0)
    && QueueOk(s) && (s.waiters != [] ==> s.value == 0 || SomeoneWoken(s))
  }

  /** The reading of the invariant: mutual exclusion, the count of a holder outside the calls is its
      acquires minus its releases, and nobody waits without hope. */
  lemma InvMeans(s: State)
    requires Inv(s)
    ensures forall t, u :: t in s.pc && u in s.pc && s.depth[t] > 0 && s.depth[u] > 0 ==> t == u
    ensures forall t :: t in s.pc && s.pc[t] == Out && s.depth[t] > 0 ==>
              s.holder == Thread(t) && s.repeat == s.depth[t]
    ensures forall t :: t in s.pc && s.holder == Thread(t) ==> Owns(s, t)
    ensures s.waiters != [] && s.value == 1 ==> SomeoneWoken(s)
  {
    forall t, u | t in s.pc && u in s.pc && s.depth[t] > 0 && s.depth[u] > 0
      ensures t == u
    {
      assert Owns(s, t) && Owns(s, u);
    }
    forall t | t in s.pc && s.holder == Thread(t)
      ensures Owns(s, t)
    {
      if u :| Owns(s, u) {
        assert AgreesAt(s, u);
      }
    }
  }

  /** A step of thread t that leaves the others where they are. */
  ghost predicate OnlyMoves(s: State, s': State, t: nat) {
    && t in s.pc && t in s'.pc && s'.pc == s.pc[t := s'.pc[t]] && t in s'.depth && s'.depth == s.depth[t := s'.depth[t]]
  }

  /** A step of the owner keeps the invariant when it agrees with the fields afterwards and gives
      the lock up only by raising the value. */
  lemma OwnerStep(s: State, s': State, t: nat)
    requires Inv(s) && OnlyMoves(s, s', t) && Owns(s, t) && Owns(s', t) && AgreesAt(s', t)
    requires s'.value == s.value && s'.waiters == s.waiters
    requires s'.pc[t] != Queued && s'.pc[t] != Woken && s.pc[t] != Queued && s.pc[t] != Woken
    ensures Inv(s')
  {
    hide AgreesAt;
    OthersAgree(s, s', t);
    forall u | Owns(s', u)
      ensures u == t
    {
      assert u != t ==> Owns(s, u);
    }
  }

  /** The fields matter only to owners. */
  lemma OthersAgree(s: State, s': State, t: nat)
    requires Inv(s) && OnlyMoves(s, s', t) && AgreesAt(s', t)
    requires Owns(s, t) || (s'.holder == s.holder && s'.repeat == s.repeat)
    ensures forall u :: u in s'.pc ==> AgreesAt(s', u)
  {
    forall u | u in s'.pc && u != t
      ensures AgreesAt(s', u)
    {
      assert AgreesAt(s, u);
      if Owns(s, t) {
        assert !Owns(s, u);
      }
    }
  }

  /** A step of a thread that has nothing and gets nothing. */
  lemma OutsiderStep(s: State, s': State, t: nat)
    requires Inv(s) && OnlyMoves(s, s', t) && !Owns(s, t) && !Owns(s', t) && AgreesAt(s', t)
    requires s'.value == s.value && s'.holder == s.holder && s'.repeat == s.repeat
    requires if s'.pc[t] == Queued then s.value == 0 && s'.waiters == s.waiters + [t] else s'.waiters == s.waiters
    requires s.pc[t] != Queued && (s.pc[t] == Woken ==> s.value == 0) && s'.pc[t] != Woken
    ensures Inv(s')
  {
    hide AgreesAt;
    OthersAgree(s, s', t);
    assert forall u :: Owns(s', u) <==> Owns(s, u);
    if s'.pc[t] == Queued {
      assert t !in s.waiters;
      assert s'.waiters[|s.waiters|] == t;
      assert forall u :: u in s.waiters ==> u in s'.waiters;
    }
    if s'.waiters != [] && s'.value != 0 {
      var u :| u in s.pc && s.pc[u] == Woken;
      assert s'.pc[u] == Woken;
    }
  }

  /** sema_down's turn that finds the value and takes it. */
  lemma TakeStep(s: State, s': State, t: nat)
    requires Inv(s) && s.value == 1 && t in s.pc && s.pc[t] in {Downing, Woken}
    requires s' == s.(value := 0, pc := s.pc[t := Taken])
    ensures Inv(s')
  {
    assert forall u :: !Owns(s, u);
    assert AgreesAt(s, t);
    assert Owns(s', t);
    forall u | Owns(s', u)
      ensures u == t
    {
      assert u != t ==> Owns(s, u);
    }
    forall u | u in s'.pc && u != t
      ensures AgreesAt(s', u)
    {
      assert AgreesAt(s, u) && !Owns(s, u);
    }
  }

  /** What sema_up leaves. */
  function Upped(s: State, t: nat): State {
    if s.waiters == [] then s.(value := 1, pc := s.pc[t := Out])
    else s.(value := 1, waiters := s.waiters[1..], pc := s.pc[s.waiters[0] := Woken][t := Out])
  }

  lemma UpQueue(s: State, t: nat)
    requires QueueOk(s) && t in s.pc && s.pc[t] == Upping
    ensures QueueOk(Upped(s, t))
    ensures s.waiters != [] ==> SomeoneWoken(Upped(s, t)) && s.waiters[0] in s.pc && s.pc[s.waiters[0]] == Queued
  {
    var s' := Upped(s, t);
    if s.waiters != [] {
      assert s'.pc[s.waiters[0]] == Woken;
    }
    forall u | u in s'.pc && s'.pc[u] == Queued
      ensures u in s'.waiters
    {
      assert u in s.waiters;
      var k :| 0 <= k < |s.waiters| && s.waiters[k] == u;
      assert s'.waiters[k - 1] == u;
    }
  }

  /** sema_up: the value is back and the first waiter is on its way. */
  lemma UpStep(s: State, t: nat)
    requires Inv(s) && t in s.pc && s.pc[t] == Upping
    ensures Inv(Upped(s, t)) && (s.waiters != [] ==> s.waiters[0] in s.pc)
  {
    hide QueueOk, SomeoneWoken;
    var s' := Upped(s, t);
    UpQueue(s, t);
    assert AgreesAt(s, t) && Owns(s, t);
    forall u | u in s'.pc
      ensures AgreesAt(s', u) && !Owns(s', u)
    {
      assert AgreesAt(s, u) && (u != t ==> !Owns(s, u));
    }
  }

  /** The next section of thread t: from where it stands to the next point at which another thread may
      run. One that is queued or outside has none. */
  function Section(s: State, t: nat): State
    requires t in s.pc && t in s.depth
  {
    match s.pc[t]
    case Testing => s.(pc := s.pc[t := if s.holder != Thread(t) then Downing else Again])
    case Downing => Down(s, t)
    case Woken => Down(s, t)
    case Taken => s.(holder := Thread(t), pc := s.pc[t := Claimed])
    case Claimed => s.(repeat := 1, pc := s.pc[t := Out], depth := s.depth[t := 1])
    case Again => s.(repeat := s.repeat + 1, pc := s.pc[t := Out], depth := s.depth[t := s.depth[t] + 1])
    case Releasing => s.(pc := s.pc[t := if s.repeat > 1 then Dropping else Clearing])
    case Dropping =>
      if s.repeat > 0 && s.depth[t] > 0
      then s.(repeat := s.repeat - 1, pc := s.pc[t := Out], depth := s.depth[t := s.depth[t] - 1]) else s
    case Clearing => s.(holder := Nobody, pc := s.pc[t := Zeroing])
    case Zeroing => s.(repeat := 0, pc := s.pc[t := Upping], depth := s.depth[t := 0])
    case Upping => Upped(s, t)
    case _ => s
  }

  /** One turn of sema_down. */
  function Down(s: State, t: nat): State
    requires t in s.pc
  {
    if s.value == 0 then s.(waiters := s.waiters + [t], pc := s.pc[t := Queued])
    else s.(value := 0, pc := s.pc[t := Taken])
  }

  lemma DownKeeps(s: State, t: nat)
    requires Inv(s) && t in s.pc && s.pc[t] in {Downing, Woken}
    ensures Inv(Down(s, t)) && t !in s.waiters && (s.value != 0 ==> s.value == 1)
  {
    assert AgreesAt(s, t);
    if s.value == 0 {
      OutsiderStep(s, Down(s, t), t);
    } else {
      TakeStep(s, Down(s, t), t);
    }
  }

  /** The assertions of the code at the point that thread t has reached. */
  ghost predicate Asserted(s: State, t: nat)
    requires t in s.pc && t in s.depth
  {
    match s.pc[t]
    case Downing => t !in s.waiters && s.value <= 1
    case Woken => t !in s.waiters && s.value <= 1
    case Claimed => s.repeat == 0
    case Releasing => s.holder == Thread(t) && (s.repeat <= 1 ==> s.repeat == 1)
    case Upping => s.value == 0
    case _ => true
  }

  /** The sections of a thread that owns the lock, but for sema_up. */
  lemma OwnerSection(s: State, t: nat)
    requires t in s.pc && t in s.depth && AgreesAt(s, t)
    requires s.pc[t] in {Taken, Claimed, Again, Releasing, Dropping, Clearing, Zeroing}
    ensures var s' := Section(s, t);
            && Owns(s, t) && Owns(s', t) && AgreesAt(s', t) && OnlyMoves(s, s', t)
            && s'.value == s.value && s'.waiters == s.waiters && s'.pc[t] != Queued && s'.pc[t] != Woken
            && Asserted(s, t)
  {}

  /** lock_acquire's test of the holder. */
  lemma TestKeeps(s: State, t: nat)
    requires Inv(s) && t in s.pc && s.pc[t] == Testing
    ensures Inv(Section(s, t)) && (s.holder == Thread(t) <==> s.depth[t] > 0)
  {
    hide QueueOk, SomeoneWoken;
    assert AgreesAt(s, t);
    InvMeans(s);
    if s.depth[t] > 0 {
      OwnerStep(s, Section(s, t), t);
    } else {
      OutsiderStep(s, Section(s, t), t);
    }
  }

  /** What the invariant says of one thread. */
  lemma AtThread(s: State, t: nat)
    requires Inv(s) && t in s.pc
    ensures t in s.depth && s.pc.Keys == s.depth.Keys && AgreesAt(s, t) && (Owns(s, t) ==> s.value == 0)
  {}

  /** Every section keeps the invariant, and the assertions in it hold. */
  lemma SectionKeeps(s: State, t: nat)
    requires Inv(s) && t in s.pc
    ensures t in s.depth && Inv(Section(s, t)) && Asserted(s, t) && Section(s, t).pc.Keys == s.pc.Keys
    ensures s.pc[t] == Testing ==> (s.holder == Thread(t) <==> s.depth[t] > 0)
    ensures s.pc[t] in {Releasing, Dropping} ==> s.repeat == s.depth[t] > 0
    ensures s.pc[t] == Dropping ==> s.depth[t] > 1
    ensures s.pc[t] == Upping && s.waiters != [] ==> s.waiters[0] in s.pc
  {
    hide Inv;
    AtThread(s, t);
    match s.pc[t] {
      case Out =>
      case Queued =>
      case Testing => TestKeeps(s, t);
      case Downing => DownKeeps(s, t);
      case Woken => DownKeeps(s, t);
      case Upping => UpStep(s, t);
      case _ =>
        hide Asserted;
        OwnerSection(s, t);
        OwnerStep(s, Section(s, t), t);
    }
  }

  /** A call of lock_acquire, or of lock_release by a thread that has the lock. */
  lemma CallKeeps(s: State, t: nat, release: bool)
    requires Inv(s) && t in s.pc && s.pc[t] == Out && (release ==> s.depth[t] > 0)
    ensures Inv(s.(pc := s.pc[t := if release then Releasing else Testing]))
  {
    assert AgreesAt(s, t);
    var s' := s.(pc := s.pc[t := if release then Releasing else Testing]);
    if s.depth[t] > 0 {
      OwnerStep(s, s', t);
    } else {
      OutsiderStep(s, s', t);
    }
  }

  class Lock {
    var value: nat
    var waiters: seq<nat>
    var holder: Holder
    var repeat: nat
    /** Where each thread stands, and its acquires minus its releases. */
    var pc: map<nat, Pc>
    var depth: map<nat, nat>

    ghost function S(): State
      reads this
    {
      State(value, waiters, holder, repeat, pc, depth)
    }

    /** lock_init, with the threads that will use the lock. */
    constructor (threads: set<nat>)
      ensures Inv(S()) && S() == State(1, [], Nobody, 0, map t | t in threads :: Out, map t | t in threads :: 0)
    {
      value, waiters, holder, repeat := 1, [], Nobody, 0;
      pc := map t | t in threads :: Out;
      depth := map t | t in threads :: 0;
    }

    /** A call of lock_acquire, or of lock_release by a thread that has the lock. */
    method Call(t: nat, release: bool)
      requires Inv(S()) && t in pc && pc[t] == Out && (release ==> depth[t] > 0)
      modifies this`pc
      ensures Inv(S()) && S() == old(S()).(pc := old(pc)[t := if release then Releasing else Testing])
    {
      CallKeeps(S(), t, release);
      pc := pc[t := if release then Releasing else Testing];
    }

    /** lock_acquire's test of the holder. */
    method TestHolder(t: nat)
      requires Inv(S()) && t in pc && pc[t] == Testing
      modifies this`pc
      ensures Inv(S()) && S() == Section(old(S()), t)
      ensures pc == old(pc)[t := if old(depth)[t] > 0 then Again else Downing]
    {
      hide Inv;
      SectionKeeps(S(), t);
      if holder != Thread(t) {
        pc := pc[t := Downing];
      } else {
        pc := pc[t := Again];
      }
    }

    /** One turn of sema_down. Its assertions hold: the thread is not queued yet, and a value that
        is taken was 1. */
    method DownTurn(t: nat)
      requires Inv(S()) && t in pc && pc[t] in {Downing, Woken}
      modifies this`value, this`waiters, this`pc
      ensures Inv(S()) && S() == Section(old(S()), t)
      ensures S() == if old(value) == 0 then old(S()).(waiters := old(waiters) + [t], pc := old(pc)[t := Queued])
                     else old(S()).(value := 0, pc := old(pc)[t := Taken])
    {
      hide Inv;
      SectionKeeps(S(), t);
      DownKeeps(S(), t);
      if value == 0 {
        assert t !in waiters;
        waiters := waiters + [t];
        pc := pc[t := Queued];
      } else {
        value := value - 1;
        assert value == 0;
        pc := pc[t := Taken];
      }
    }

    method SetHolder(t: nat)
      requires Inv(S()) && t in pc && pc[t] == Taken
      modifies this`holder, this`pc
      ensures Inv(S()) && S() == Section(old(S()), t)
      ensures holder == Thread(t) && pc == old(pc)[t := Claimed]
    {
      hide Inv;
      SectionKeeps(S(), t);
      holder := Thread(t);
      pc := pc[t := Claimed];
    }

    /** The end of a first acquire; the count is 0 as lock_acquire asserts. */
    method SetCount(t: nat)
      requires Inv(S()) && t in pc && pc[t] == Claimed
      modifies this`repeat, this`pc, this`depth
      ensures Inv(S()) && S() == Section(old(S()), t)
      ensures old(repeat) == 0 && repeat == 1 && depth == old(depth)[t := 1] && pc == old(pc)[t := Out]
    {
      hide Inv;
      SectionKeeps(S(), t);
      assert repeat == 0;
      repeat := 1;
      pc, depth := pc[t := Out], depth[t := 1];
    }

    /** The end of a further acquire. */
    method AddCount(t: nat)
      requires Inv(S()) && t in pc && pc[t] == Again
      modifies this`repeat, this`pc, this`depth
      ensures Inv(S()) && S() == Section(old(S()), t)
      ensures repeat == old(repeat) + 1 && depth == old(depth)[t := old(depth)[t] + 1] && pc == old(pc)[t := Out]
    {
      hide Inv;
      SectionKeeps(S(), t);
      repeat := repeat + 1;
      pc, depth := pc[t := Out], depth[t := depth[t] + 1];
    }

    /** lock_release's tests: the caller is the holder, and a count that is not above 1 is 1. */
    method TestCount(t: nat)
      requires Inv(S()) && t in pc && pc[t] == Releasing
      modifies this`pc
      ensures Inv(S()) && S() == Section(old(S()), t)
      ensures pc == old(pc)[t := if old(depth)[t] > 1 then Dropping else Clearing]
    {
      hide Inv;
      SectionKeeps(S(), t);
      assert holder == Thread(t);
      if repeat > 1 {
        pc := pc[t := Dropping];
      } else {
        assert repeat == 1;
        pc := pc[t := Clearing];
      }
    }

    method DropCount(t: nat)
      requires Inv(S()) && t in pc && pc[t] == Dropping
      modifies this`repeat, this`pc, this`depth
      ensures Inv(S()) && S() == Section(old(S()), t)
      ensures old(repeat) > 1 && repeat == old(repeat) - 1 && old(depth)[t] > 1
      ensures depth == old(depth)[t := old(depth)[t] - 1] && pc == old(pc)[t := Out]
    {
      hide Inv;
      SectionKeeps(S(), t);
      repeat := repeat - 1;
      pc, depth := pc[t := Out], depth[t := depth[t] - 1];
    }

    method ClearHolder(t: nat)
      requires Inv(S()) && t in pc && pc[t] == Clearing
      modifies this`holder, this`pc
      ensures Inv(S()) && S() == Section(old(S()), t)
      ensures holder == Nobody && pc == old(pc)[t := Zeroing]
    {
      hide Inv;
      SectionKeeps(S(), t);
      holder := Nobody;
      pc := pc[t := Zeroing];
    }

    method ClearCount(t: nat)
      requires Inv(S()) && t in pc && pc[t] == Zeroing
      modifies this`repeat, this`pc, this`depth
      ensures Inv(S()) && S() == Section(old(S()), t)
      ensures repeat == 0 && pc == old(pc)[t := Upping] && depth == old(depth)[t := 0]
    {
      hide Inv;
      SectionKeeps(S(), t);
      repeat := 0;
      pc, depth := pc[t := Upping], depth[t := 0];
    }

    /** sema_up; its assertions hold, and the first waiter is woken. */
    method Up(t: nat)
      requires Inv(S()) && t in pc && pc[t] == Upping
      modifies this`value, this`waiters, this`pc
      ensures Inv(S()) && S() == Section(old(S()), t)
      ensures old(value) == 0 && value == 1 && pc.Keys == old(pc.Keys)
      ensures old(waiters) != [] ==> waiters == old(waiters)[1..] && pc == old(pc)[old(waiters)[0] := Woken][t := Out]
      ensures old(waiters) == [] ==> waiters == [] && pc == old(pc)[t := Out]
    {
      hide Inv;
      SectionKeeps(S(), t);
      assert value == 0;
      if waiters != [] {
        pc := pc[waiters[0] := Woken];
        waiters := waiters[1..];
      }
      value := value + 1;
      assert value == 1;
      pc := pc[t := Out];
    }
  }

  /** A choice of the interleaving: a thread calls, or does its next section. */
  datatype Choice = Acquire(t: nat) | Release(t: nat) | Go(t: nat)

  /** What a choice does; nothing for a thread that is not there or not where it could do that. */
  function Next(s: State, c: Choice): State {
    if c.t !in s.pc || c.t !in s.depth then s
    else match c
      case Acquire(t) => if s.pc[t] == Out then s.(pc := s.pc[t := Testing]) else s
      case Release(t) => if s.pc[t] == Out && s.depth[t] > 0 then s.(pc := s.pc[t := Releasing]) else s
      case Go(t) => Section(s, t)
  }

  /** The state after the first k choices. */
  function After(s: State, choices: seq<Choice>, k: nat): State
    requires k <= |choices|
  {
    if k == 0 then s else Next(After(s, choices, k - 1), choices[k - 1])
  }

  lemma NextKeeps(s: State, c: Choice)
    requires Inv(s)
    ensures Inv(Next(s, c))
  {
    hide Section, AgreesAt;
    if c.t in s.pc {
      match c {
        case Acquire(t) =>
          if s.pc[t] == Out {
            CallKeeps(s, t, false);
          }
        case Release(t) =>
          if s.pc[t] == Out && s.depth[t] > 0 {
            CallKeeps(s, t, true);
          }
        case Go(t) => SectionKeeps(s, t);
      }
    }
  }

  /** Over every interleaving of any threads' calls: at each point the invariant holds, and so do the
      assertions at every thread's next section. */
  lemma {:induction false} RunKeeps(s: State, choices: seq<Choice>, k: nat)
    requires Inv(s) && k <= |choices|
    ensures var e := After(s, choices, k);
            Inv(e) && e.pc.Keys == e.depth.Keys && forall t :: t in e.pc ==> Asserted(e, t)
  {
    hide Inv, Next, Section, Asserted;
    if k > 0 {
      RunKeeps(s, choices, k - 1);
      NextKeeps(After(s, choices, k - 1), choices[k - 1]);
    }
    var e := After(s, choices, k);
    SameKeys(e);
    forall t | t in e.pc
      ensures Asserted(e, t)
    {
      SectionKeeps(e, t);
    }
  }

  lemma SameKeys(s: State)
    requires Inv(s)
    ensures s.pc.Keys == s.depth.Keys
  {}

  /** The next section of thread t, wherever it stands. */
  method Advance(l: Lock, t: nat)
    requires Inv(l.S()) && t in l.pc && t in l.depth
    modifies l
    ensures Inv(l.S()) && l.S() == Section(old(l.S()), t)
  {
    hide Inv;
    match l.pc[t] {
      case Testing => l.TestHolder(t);
      case Downing => l.DownTurn(t);
      case Woken => l.DownTurn(t);
      case Taken => l.SetHolder(t);
      case Claimed => l.SetCount(t);
      case Again => l.AddCount(t);
      case Releasing => l.TestCount(t);
      case Dropping => l.DropCount(t);
      case Clearing => l.ClearHolder(t);
      case Zeroing => l.ClearCount(t);
      case Upping => l.Up(t);
      case _ =>
    }
  }

  /** An interleaving on the lock itself. */
  method Run(l: Lock, choices: seq<Choice>)
    requires Inv(l.S())
    modifies l
    ensures Inv(l.S()) && l.S() == After(old(l.S()), choices, |choices|)
  {
    hide Inv, Section;
    var k := 0;
    while k < |choices|
      invariant k <= |choices| && Inv(l.S()) && l.S() == After(old(l.S()), choices, k)
    {
      SameKeys(l.S());
      var t := choices[k].t;
      if t in l.pc {
        match choices[k] {
          case Acquire(_) =>
            if l.pc[t] == Out {
              l.Call(t, false);
            }
          case Release(_) =>
            if l.pc[t] == Out && l.depth[t] > 0 {
              l.Call(t, true);
            }
          case Go(_) => Advance(l, t);
        }
      }
      k := k + 1;
    }
  }

  lemma FreeLock(s: State)
    requires Inv(s) && s.value == 1
    ensures s.holder == Nobody && s.repeat == 0
  {}

  /** Thread t, alone with the lock, has acquired it k times more than released it. */
  ghost predicate HeldBy(s: State, s': State, t: nat, k: nat) {
    s' == if k == 0 then s else s.(value := 0, holder := Thread(t), repeat := k, depth := s.depth[t := k])
  }

  /** n acquires by one thread, and as many releases: in between the lock is held that many times, and after
      the last release it is as it was. */
  method NestedUse(l: Lock, t: nat, n: nat)
    requires Inv(l.S()) && t in l.pc && l.pc[t] == Out && l.value == 1 && l.waiters == []
    modifies l
    ensures Inv(l.S()) && l.S() == old(l.S())
  {
    hide Inv, Section;
    ghost var s := l.S();
    SameKeys(s);
    FreeLock(s);
    AtThread(s, t);
    var k := 0;
    while k < n
      invariant k <= n && Inv(l.S()) && HeldBy(s, l.S(), t, k)
    {
      if k == 0 {
        AcquireFirst(l, t);
      } else {
        AcquireAgain(l, t);
      }
      k := k + 1;
    }
    while k > 0
      invariant Inv(l.S()) && HeldBy(s, l.S(), t, k)
    {
      if k > 1 {
        ReleaseAgain(l, t);
      } else {
        ReleaseLast(l, t);
        assert l.depth == s.depth;
      }
      k := k - 1;
    }
  }

  /** A first lock_acquire, of a lock that is free, from its call to its end. */
  method AcquireFirst(l: Lock, t: nat)
    requires Inv(l.S()) && t in l.pc && l.pc[t] == Out && t in l.depth && l.depth[t] == 0 && l.value == 1
    modifies l
    ensures Inv(l.S())
    ensures l.S() == old(l.S()).(value := 0, holder := Thread(t), repeat := 1, depth := old(l.depth)[t := 1])
  {
    hide Inv, Section;
    l.Call(t, false);
    l.TestHolder(t);
    l.DownTurn(t);
    l.SetHolder(t);
    l.SetCount(t);
    assert l.pc == old(l.pc);
  }

  /** A further one. */
  method AcquireAgain(l: Lock, t: nat)
    requires Inv(l.S()) && t in l.pc && l.pc[t] == Out && t in l.depth && l.depth[t] > 0
    modifies l
    ensures Inv(l.S())
    ensures l.S() == old(l.S()).(repeat := old(l.repeat) + 1, depth := old(l.depth)[t := old(l.depth)[t] + 1])
  {
    hide Inv, Section;
    l.Call(t, false);
    l.TestHolder(t);
    l.AddCount(t);
    assert l.pc == old(l.pc);
  }

  /** A lock_release that is not the last one. */
  method ReleaseAgain(l: Lock, t: nat)
    requires Inv(l.S()) && t in l.pc && l.pc[t] == Out && t in l.depth && l.depth[t] > 1
    modifies l
    ensures Inv(l.S()) && old(l.repeat) > 0
    ensures l.S() == old(l.S()).(repeat := old(l.repeat) - 1, depth := old(l.depth)[t := old(l.depth)[t] - 1])
  {
    hide Inv, Section;
    l.Call(t, true);
    l.TestCount(t);
    l.DropCount(t);
    assert l.pc == old(l.pc);
  }

  /** The last one, when nobody waits for the lock. */
  method ReleaseLast(l: Lock, t: nat)
    requires Inv(l.S()) && t in l.pc && l.pc[t] == Out && t in l.depth && l.depth[t] == 1 && l.waiters == []
    modifies l
    ensures Inv(l.S())
    ensures l.S() == old(l.S()).(value := 1, holder := Nobody, repeat := 0, depth := old(l.depth)[t := 0])
  {
    hide Inv, Section;
    l.Call(t, true);
    l.TestCount(t);
    l.ClearHolder(t);
    l.ClearCount(t);
    l.Up(t);
    assert l.pc == old(l.pc);
  }
}
