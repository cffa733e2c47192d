/** device/ioqueue.c and the transfers of shell/pipe.c: a ring buffer between one producer and one
    consumer. */
module Rings {
  import opened Codec

  const BUFSIZE := 2048

  /** A thread in ioq_getchar or ioq_putchar, or outside: Queued sleeps in the ring's lock, Lining
      was woken from there and has not tried again, Waiting is registered and sleeps with the lock,
      Woken was unregistered by the other side and still has the lock. */
  datatype Side = Idle | Queued | Lining | Waiting | Woken

  datatype Owner = Free | Producer | Consumer

  /** What the ring holds, with the two sides, the owner of the lock, and all bytes ever put and got. */
  datatype State = State(data: seq<byte>, prod: Side, cons: Side, lock: Owner, sent: seq<byte>, got: seq<byte>)

  predicate Full(s: State) {
    |s.data| == BUFSIZE - 1
  }

  /** Over every run: the bytes got are the first of the bytes put, in order, and the ring holds the
      rest; each side that waits or was just woken has the lock, so not both; and who sleeps in
      the lock does so because the other side has it. */
  ghost predicate Inv(s: State) {
    && s.got + s.data == s.sent && |s.data| < BUFSIZE
    && (s.lock == Producer <==> s.prod in {Waiting, Woken})
    && (s.lock == Consumer <==> s.cons in {Waiting, Woken})
    && (s.prod == Queued ==> s.lock == Consumer) && (s.cons == Queued ==> s.lock == Producer)
  }

  /** A registered consumer means empty, and a registered producer full. */
  predicate Proper(s: State) {
    && (s.cons == Waiting ==> s.data == [])
    && (s.prod == Waiting ==> Full(s))
  }

  /** Both sides sleep, one on the ring with the lock and the other in the lock's queue. */
  predicate Stuck(s: State) {
    (s.cons == Waiting && s.prod == Queued) || (s.prod == Waiting && s.cons == Queued)
  }

  /** The sections of the two sides: a call from its test on, and what a woken side does first. */
  datatype Step = GetStep | PutStep(b: byte) | ConsumerRelease | ProducerRelease | ConsumerRetry | ProducerRetry

  predicate Enabled(s: State, step: Step) {
    match step
    case GetStep => s.cons == Idle
    case PutStep(_) => s.prod == Idle
    case ConsumerRelease => s.cons == Woken
    case ProducerRelease => s.prod == Woken
    case ConsumerRetry => s.cons == Lining
    case ProducerRetry => s.prod == Lining
  }

  /** A consumer that sleeps: registered with the lock, or in the lock's queue. */
  function ConsumerSleeps(s: State): State {
    if s.lock == Free then s.(lock := Consumer, cons := Waiting) else s.(cons := Queued)
  }

  function ProducerSleeps(s: State): State {
    if s.lock == Free then s.(lock := Producer, prod := Waiting) else s.(prod := Queued)
  }

  function Next(s: State, step: Step): State {
    match step
    case GetStep =>
      if s.data == [] then ConsumerSleeps(s)
      else s.(data := s.data[1..], got := s.got + s.data[..1], prod := if s.prod == Waiting then Woken else s.prod)
    case PutStep(b) =>
      if Full(s) then ProducerSleeps(s)
      else s.(data := s.data + [b], sent := s.sent + [b], cons := if s.cons == Waiting then Woken else s.cons)
    case ConsumerRelease => s.(lock := Free, cons := Idle, prod := if s.prod == Queued then Lining else s.prod)
    case ProducerRelease => s.(lock := Free, prod := Idle, cons := if s.cons == Queued then Lining else s.cons)
    case ConsumerRetry => ConsumerSleeps(s)
    case ProducerRetry => ProducerSleeps(s)
  }

  /** Every section keeps the invariant: what was got and what is there make up what was sent. */
  lemma NextKeeps(s: State, step: Step)
    requires Inv(s) && Enabled(s, step)
    ensures Inv(Next(s, step))
  {
    if step == GetStep && s.data != [] {
      assert s.data == s.data[..1] + s.data[1..];
      assert s.got + s.data[..1] + s.data[1..] == s.got + s.data;
    } else if step.PutStep? && !Full(s) {
      assert s.got + (s.data + [step.b]) == s.got + s.data + [step.b];
    }
  }

  /** A section leaves "registered means empty or full" in force exactly when it is not a retry that
      registers on a ring that changed meanwhile. */
  lemma ProperIff(s: State, step: Step)
    requires Inv(s) && Proper(s) && Enabled(s, step)
    ensures Proper(Next(s, step)) <==>
              && (step == ConsumerRetry && s.lock == Free ==> s.data == [])
              && (step == ProducerRetry && s.lock == Free ==> Full(s))
  {}

  /** When both sides come to sleep for ever: exactly at a section that sends one side to the lock's
      queue while the other waits with the lock. While registered means empty or full, only a retry
      can do that. */
  lemma StuckIff(s: State, step: Step)
    requires Inv(s) && Enabled(s, step)
    ensures !Stuck(s)
    ensures Stuck(Next(s, step)) <==>
              || (s.prod == Waiting && (step == ConsumerRetry || (step == GetStep && s.data == [])))
              || (s.cons == Waiting && (step == ProducerRetry || (step.PutStep? && Full(s))))
    ensures Proper(s) ==> (Stuck(Next(s, step)) <==>
              (step == ConsumerRetry && s.prod == Waiting) || (step == ProducerRetry && s.cons == Waiting))
  {}

  /** A sequence of states that the sections lead through. */
  ghost predicate Trace(states: seq<State>, steps: seq<Step>) {
    && |states| == |steps| + 1
    && forall k :: 0 <= k < |steps| ==> Enabled(states[k], steps[k]) && states[k + 1] == Next(states[k], steps[k])
  }

  /** Over every run of two sides that both may sleep. */
  lemma {:induction false} TraceKeeps(states: seq<State>, steps: seq<Step>, k: nat)
    requires Trace(states, steps) && Inv(states[0]) && k < |states|
    ensures Inv(states[k]) && (k < |steps| ==> !Stuck(states[k]))
  {
    if k > 0 {
      TraceKeeps(states, steps, k - 1);
      NextKeeps(states[k - 1], steps[k - 1]);
    }
    if k < |steps| {
      StuckIff(states[k], steps[k]);
    }
  }

  /** And it is a run in which registered means empty or full as long as no retry was late. */
  lemma {:induction false} TraceProper(states: seq<State>, steps: seq<Step>, k: nat)
    requires Trace(states, steps) && Inv(states[0]) && Proper(states[0]) && k < |states|
    requires forall j :: 0 <= j < k ==>
               && (steps[j] == ConsumerRetry && states[j].lock == Free ==> states[j].data == [])
               && (steps[j] == ProducerRetry && states[j].lock == Free ==> Full(states[j]))
    ensures Proper(states[k])
  {
    if k > 0 {
      TraceProper(states, steps, k - 1);
      TraceKeeps(states, steps, k - 1);
      ProperIff(states[k - 1], steps[k - 1]);
    }
  }

  class Ioqueue {
    const buf: array<byte>
    var head: nat
    var tail: nat
    var prod: Side
    var cons: Side
    var lock: Owner
    ghost var sent: seq<byte>
    ghost var got: seq<byte>

    predicate Valid()
      reads this`head, this`tail
    {
      buf.Length == BUFSIZE && head < BUFSIZE && tail < BUFSIZE
    }

    /** The bytes from tail up to head, around the end of the buffer. */
    ghost function Data(): (d: seq<byte>)
      requires Valid()
      reads this`head, this`tail, buf
      ensures |d| < BUFSIZE
    {
      if tail <= head then buf[tail..head] else buf[tail..] + buf[..head]
    }

    ghost function S(): State
      requires Valid()
      reads this, buf
    {
      State(Data(), prod, cons, lock, sent, got)
    }

    /** ioqueue_init. */
    constructor ()
      ensures Valid() && fresh(buf) && Inv(S()) && Proper(S()) && S() == State([], Idle, Idle, Free, [], [])
    {
      buf := new byte[BUFSIZE](_ => 0);
      head, tail := 0, 0;
      prod, cons, lock := Idle, Idle, Free;
      sent, got := [], [];
    }

    static function NextPos(pos: nat): (r: nat)
      ensures r < BUFSIZE
    {
      (pos + 1) % BUFSIZE
    }

    /** ioq_full: one place stays unused, so the ring holds at most 2047 bytes. */
    predicate IsFull()
      requires Valid()
      reads this, buf
      ensures IsFull() <==> |Data()| == BUFSIZE - 1
    {
      NextPos(head) == tail
    }

    predicate IsEmpty()
      requires Valid()
      reads this, buf
      ensures IsEmpty() <==> Data() == []
    {
      head == tail
    }

    /** ioq_length. */
    function Length(): (n: nat)
      requires Valid()
      reads this, buf
      ensures n == |Data()|
    {
      if head >= tail then head - tail else BUFSIZE - (tail - head)
    }

    /** The store of ioq_putchar. */
    method Store(b: byte)
      requires Valid() && !IsFull()
      modifies this`head, buf
      ensures Valid() && Data() == old(Data()) + [b]
    {
      ghost var d := Data();
      buf[head] := b;
      head := NextPos(head);
      assert Data() == d + [b];
    }

    /** The load of ioq_getchar. */
    method Load() returns (b: byte)
      requires Valid() && !IsEmpty()
      modifies this`tail
      ensures Valid() && [b] + Data() == old(Data())
    {
      ghost var d := Data();
      b := buf[tail];
      tail := NextPos(tail);
      assert [b] + Data() == d;
    }

    // ---- the two sides, each section with interrupts off ----

    /** ioq_getchar from its test on: a byte, or asleep on the ring or on its lock. */
    method Get() returns (r: seq<byte>)
      requires Valid() && Inv(S()) && cons == Idle
      modifies this
      ensures Valid() && Inv(S()) && (old(Proper(S())) ==> Proper(S()))
      ensures S() == Next(old(S()), GetStep) && r == old(Data())[..if old(Data()) == [] then 0 else 1]
      ensures old(Data()) != [] ==> |r| == 1 && S() == old(S()).(data := Data(), got := old(got) + r,
                prod := if old(prod) == Waiting then Woken else old(prod)) && r + Data() == old(Data())
      ensures old(Data()) == [] ==> r == [] && S() == old(S()).(
                cons := if old(lock) == Free then Waiting else Queued,
                lock := if old(lock) == Free then Consumer else old(lock))
    {
      hide Data;
      ghost var d := Data();
      if IsEmpty() {
        if lock == Free {
          lock, cons := Consumer, Waiting;
        } else {
          cons := Queued;
        }
        return [];
      }
      var b := Load();
      if prod == Waiting {
        prod := Woken;
      }
      r := [b];
      got := got + r;
      assert got + Data() == old(got) + d;
    }

    /** ioq_putchar from its test on: the byte is stored, or the producer sleeps with it. */
    method Put(b: byte) returns (done: bool)
      requires Valid() && Inv(S()) && prod == Idle
      modifies this, buf
      ensures Valid() && Inv(S()) && (old(Proper(S())) ==> Proper(S()))
      ensures S() == Next(old(S()), PutStep(b))
      ensures done <==> |old(Data())| < BUFSIZE - 1
      ensures done ==> S() == old(S()).(data := old(Data()) + [b], sent := old(sent) + [b],
                         cons := if old(cons) == Waiting then Woken else old(cons))
      ensures !done ==> S() == old(S()).(
                prod := if old(lock) == Free then Waiting else Queued,
                lock := if old(lock) == Free then Producer else old(lock))
    {
      hide Data;
      ghost var d := Data();
      if IsFull() {
        if lock == Free {
          lock, prod := Producer, Waiting;
        } else {
          prod := Queued;
        }
        return false;
      }
      Store(b);
      if cons == Waiting {
        cons := Woken;
      }
      sent := sent + [b];
      assert got + Data() == old(got) + d + [b];
      done := true;
    }

    /** A woken consumer releases the lock and is back before its test. */
    method ConsumerReleases()
      requires Valid() && Inv(S()) && cons == Woken
      modifies this`lock, this`cons, this`prod
      ensures Valid() && Inv(S()) && (old(Proper(S())) ==> Proper(S()))
      ensures S() == Next(old(S()), ConsumerRelease) && !Stuck(S())
      ensures S() == old(S()).(lock := Free, cons := Idle, prod := if old(prod) == Queued then Lining else old(prod))
    {
      lock, cons := Free, Idle;
      if prod == Queued {
        prod := Lining;
      }
    }

    method ProducerReleases()
      requires Valid() && Inv(S()) && prod == Woken
      modifies this`lock, this`cons, this`prod
      ensures Valid() && Inv(S()) && (old(Proper(S())) ==> Proper(S()))
      ensures S() == Next(old(S()), ProducerRelease) && !Stuck(S())
      ensures S() == old(S()).(lock := Free, prod := Idle, cons := if old(cons) == Queued then Lining else old(cons))
    {
      lock, prod := Free, Idle;
      if cons == Queued {
        cons := Lining;
      }
    }

    /** A consumer that comes out of the lock's queue registers without testing the ring again: it is
        registered on a ring that is not empty exactly when a byte came in meanwhile. */
    method ConsumerRetries()
      requires Valid() && Inv(S()) && cons == Lining
      modifies this`lock, this`cons
      ensures Valid() && Inv(S())
      ensures S() == Next(old(S()), ConsumerRetry) && (Stuck(S()) <==> old(prod) == Waiting)
      ensures old(Proper(S())) ==> (Proper(S()) <==> old(lock) != Free || Data() == [])
    {
      if lock == Free {
        lock, cons := Consumer, Waiting;
      } else {
        cons := Queued;
      }
    }

    method ProducerRetries()
      requires Valid() && Inv(S()) && prod == Lining
      modifies this`lock, this`prod
      ensures Valid() && Inv(S())
      ensures S() == Next(old(S()), ProducerRetry) && (Stuck(S()) <==> old(cons) == Waiting)
      ensures old(Proper(S())) ==> (Proper(S()) <==> old(lock) != Free || |Data()| == BUFSIZE - 1)
    {
      if lock == Free {
        lock, prod := Producer, Waiting;
      } else {
        prod := Queued;
      }
    }

    // ---- shell/pipe.c ----

    /** pipe_read: as many bytes as there are and were asked for, in order; it never sleeps. */
    method PipeRead(count: nat) returns (data: seq<byte>)
      requires Valid() && Inv(S()) && cons == Idle
      modifies this
      ensures Valid() && Inv(S()) && cons == Idle && (old(Proper(S())) ==> Proper(S()))
      ensures |data| == (if count < |old(Data())| then count else |old(Data())|) && data + Data() == old(Data())
      ensures got == old(got) + data && sent == old(sent) && lock == old(lock)
      ensures prod == if old(prod) == Waiting && data != [] then Woken else old(prod)
    {
      hide Data, Inv;
      ghost var d := Data();
      var len := Length();
      var size := if len > count then count else len;
      data := [];
      while |data| < size
        invariant |data| <= size && Valid() && Inv(S()) && cons == Idle && sent == old(sent)
        invariant lock == old(lock)
        invariant (old(Proper(S())) ==> Proper(S())) && data + Data() == d && got == old(got) + data
        invariant prod == if old(prod) == Waiting && data != [] then Woken else old(prod)
      {
        ghost var rest := Data();
        var r := Get();
        assert data + rest == data + r + Data();
        data := data + r;
      }
    }

    /** pipe_write up to its end or to the sleep of its producer. It takes room to be 2048 bytes less
        what is there, one more than there is: it sleeps exactly when the buffer does not fit in
        the 2047, and the bytes before are in. */
    method PipeWrite(bytes: seq<byte>) returns (written: nat, slept: bool)
      requires Valid() && Inv(S()) && prod == Idle
      modifies this, buf
      ensures Valid() && Inv(S()) && (old(Proper(S())) ==> Proper(S()))
      ensures slept <==> |old(Data())| + |bytes| > BUFSIZE - 1
      ensures written == if slept then BUFSIZE - 1 - |old(Data())| else |bytes|
      ensures Data() == old(Data()) + bytes[..written] && sent == old(sent) + bytes[..written] && got == old(got)
      ensures !slept ==> prod == Idle && lock == old(lock)
      ensures slept ==> prod == (if old(lock) == Free then Waiting else Queued)
                        && lock == if old(lock) == Free then Producer else old(lock)
      ensures cons == if old(cons) == Waiting && written > 0 then Woken else old(cons)
      ensures slept && old(lock) == Free && old(cons) == Idle ==> prod == Waiting && |Data()| == BUFSIZE - 1
    {
      hide Data, Inv;
      var left := BUFSIZE - Length();
      var size := if left > |bytes| then |bytes| else left;
      written := 0;
      slept := false;
      while written < size
        invariant written <= size && Valid() && Inv(S()) && prod == Idle && got == old(got)
        invariant (old(Proper(S())) ==> Proper(S())) && Data() == old(Data()) + bytes[..written]
        invariant sent == old(sent) + bytes[..written] && lock == old(lock)
        invariant cons == if old(cons) == Waiting && written > 0 then Woken else old(cons)
        invariant written <= BUFSIZE - 1 - |old(Data())|
      {
        var done := Put(bytes[written]);
        if !done {
          return written, true;
        }
        assert bytes[..written + 1] == bytes[..written] + [bytes[written]];
        written := written + 1;
      }
    }
  }

  // ---- both sides blocking ----

  /** A producer that fills the ring, while no consumer is registered. */
  method FillUp(q: Ioqueue)
    requires q.Valid() && Inv(q.S()) && Proper(q.S()) && q.prod == Idle && q.cons != Waiting
    modifies q, q.buf
    ensures q.Valid() && Inv(q.S()) && Proper(q.S()) && |q.Data()| == BUFSIZE - 1
    ensures q.prod == Idle && q.cons == old(q.cons) && q.lock == old(q.lock)
  {
    while !q.IsFull()
      invariant q.Valid() && Inv(q.S()) && Proper(q.S())
      invariant q.prod == Idle && q.cons == old(q.cons) && q.lock == old(q.lock)
      decreases BUFSIZE - |q.Data()|
    {
      var done := q.Put(7);
    }
  }

  /** A consumer that empties the ring. */
  method Drain(q: Ioqueue)
    requires q.Valid() && Inv(q.S()) && Proper(q.S()) && q.cons == Idle && q.Data() != []
    modifies q
    ensures q.Valid() && Inv(q.S()) && Proper(q.S()) && q.Data() == []
    ensures q.cons == Idle && q.lock == old(q.lock) && q.prod == if old(q.prod) == Waiting then Woken else old(q.prod)
  {
    var r := q.Get();
    while !q.IsEmpty()
      invariant q.Valid() && Inv(q.S()) && Proper(q.S())
      invariant q.cons == Idle && q.lock == old(q.lock)
                && q.prod == if old(q.prod) == Waiting then Woken else old(q.prod)
      decreases |q.Data()|
    {
      r := q.Get();
    }
  }

  /** A producer and a consumer that both block can come to sleep for ever, with the ring empty: the
      consumer waits, the producer wakes it, fills the ring and queues for the lock that the consumer
      still has, and the consumer empties the ring and takes the lock again before the producer gets
      it. No caller in this kernel has two sides that block. */
  method BothSleep() returns (q: Ioqueue)
    ensures fresh(q) && fresh(q.buf) && q.Valid() && Inv(q.S()) && Proper(q.S()) && Stuck(q.S()) && q.Data() == []
  {
    q := new Ioqueue();
    var r := q.Get();
    var done := q.Put(7);
    FillUp(q);
    done := q.Put(7);
    q.ConsumerReleases();
    Drain(q);
    r := q.Get();
    q.ProducerRetries();
  }

  /** The mirror image, with the ring full: the producer waits and the consumer queues for its lock. */
  method BothSleepFull() returns (q: Ioqueue)
    ensures fresh(q) && fresh(q.buf) && q.Valid() && Inv(q.S()) && Proper(q.S()) && Stuck(q.S()) && Full(q.S())
  {
    q := new Ioqueue();
    FillUp(q);
    var done := q.Put(7);
    Drain(q);
    var r := q.Get();
    q.ProducerReleases();
    FillUp(q);
    done := q.Put(7);
    q.ConsumerRetries();
  }

  /** A consumer that registers on a ring that is not empty. */
  method RegistersLate() returns (q: Ioqueue)
    ensures fresh(q) && fresh(q.buf) && q.Valid() && Inv(q.S()) && q.cons == Waiting && q.Data() != [] && !Proper(q.S())
  {
    q := new Ioqueue();
    FillUp(q);
    var done := q.Put(7);
    Drain(q);
    var r := q.Get();
    q.ProducerReleases();
    done := q.Put(7);
    q.ConsumerRetries();
  }

  /** When the consumer never sleeps, as in pipe_read, the producer is never sent to the lock's
      queue: it is Idle, Waiting or Woken, and Waiting only on a full ring. */
  ghost predicate OnlyProducerSleeps(s: State) {
    Inv(s) && Proper(s) && s.cons == Idle && s.prod in {Idle, Waiting, Woken}
  }

  /** One use of a pipe: a write, a read, or the woken writer going on. */
  datatype Use = Write(bytes: seq<byte>) | Read(count: nat) | GoOn

  /** A use of a pipe in which only the producer sleeps. */
  function Used(s: State, use: Use): State {
    match use
    case Write(bytes) =>
      if s.prod != Idle then s
      else if |s.data| + |bytes| < BUFSIZE then s.(data := s.data + bytes, sent := s.sent + bytes)
      else if |s.data| >= BUFSIZE then s
      else var part := bytes[..BUFSIZE - 1 - |s.data|];
           s.(data := s.data + part, sent := s.sent + part, prod := Waiting, lock := Producer)
    case Read(count) =>
      var n := if count < |s.data| then count else |s.data|;
      s.(data := s.data[n..], got := s.got + s.data[..n], prod := if s.prod == Waiting && n > 0 then Woken else s.prod)
    case GoOn => if s.prod == Woken then s.(prod := Idle, lock := Free) else s
  }

  /** The state after the first k uses. */
  function UsedUp(s: State, uses: seq<Use>, k: nat): State
    requires k <= |uses|
  {
    if k == 0 then s else Used(UsedUp(s, uses, k - 1), uses[k - 1])
  }

  /** A write puts in as many of its bytes as fit, and sleeps exactly when some do not; a read takes out as
      many as it asks for and are there, from the front; and going on moves no byte. */
  lemma UseMeans(s: State, use: Use)
    requires OnlyProducerSleeps(s)
    ensures var s', room := Used(s, use), BUFSIZE - 1 - |s.data|;
            match use
            case Write(bytes) =>
              s.prod == Idle ==>
                && s'.data == s.data + bytes[..if |bytes| <= room then |bytes| else room] && s'.got == s.got
                && (s'.prod == Waiting <==> |bytes| > room) && s'.sent == s'.got + s'.data
            case Read(count) =>
              && s'.got + s'.data == s.got + s.data && s'.sent == s.sent
              && |s'.got| == |s.got| + if count < |s.data| then count else |s.data|
            case GoOn => s'.data == s.data && s'.got == s.got && (s.prod == Woken ==> s'.prod == Idle)
  {
    match use {
      case Write(bytes) =>
        assert bytes[..|bytes|] == bytes;
        assert s.got + (s.data + bytes) == s.got + s.data + bytes;
        UsedKeeps(s, use);
      case Read(count) =>
        var n := if count < |s.data| then count else |s.data|;
        assert s.data == s.data[..n] + s.data[n..];
        assert s.got + s.data[..n] + s.data[n..] == s.got + s.data;
      case GoOn =>
    }
  }

  lemma UsedKeeps(s: State, use: Use)
    requires OnlyProducerSleeps(s)
    ensures OnlyProducerSleeps(Used(s, use)) && !Stuck(Used(s, use))
  {
    match use {
      case Write(bytes) =>
        assert s.got + (s.data + bytes) == s.got + s.data + bytes;
        if |s.data| + |bytes| >= BUFSIZE {
          var part := bytes[..BUFSIZE - 1 - |s.data|];
          assert s.got + (s.data + part) == s.got + s.data + part;
        }
      case Read(count) =>
        var n := if count < |s.data| then count else |s.data|;
        assert s.data == s.data[..n] + s.data[n..];
        assert s.got + s.data[..n] + s.data[n..] == s.got + s.data;
      case GoOn =>
    }
  }

  /** Over every run of a pipe: at each point nobody is stuck, a sleeping producer means a full ring,
      and the bytes come out as they went in. */
  lemma {:induction false} PipeRunSafe(s: State, uses: seq<Use>, k: nat)
    requires OnlyProducerSleeps(s) && k <= |uses|
    ensures OnlyProducerSleeps(UsedUp(s, uses, k)) && !Stuck(UsedUp(s, uses, k))
    ensures var e := UsedUp(s, uses, k); e.got + e.data == e.sent && (e.prod == Waiting ==> Full(e))
  {
    if k > 0 {
      PipeRunSafe(s, uses, k - 1);
      UsedKeeps(UsedUp(s, uses, k - 1), uses[k - 1]);
    }
  }

  /** A run of a pipe on the ring itself. */
  method PipeRun(q: Ioqueue, uses: seq<Use>)
    requires q.Valid() && OnlyProducerSleeps(q.S())
    modifies q, q.buf
    ensures q.Valid() && OnlyProducerSleeps(q.S()) && q.S() == UsedUp(old(q.S()), uses, |uses|)
  {
    hide Used;
    var k := 0;
    while k < |uses|
      invariant k <= |uses| && q.Valid() && OnlyProducerSleeps(q.S()) && q.S() == UsedUp(old(q.S()), uses, k)
    {
      PipeUse(q, uses[k]);
      k := k + 1;
    }
  }

  method PipeUse(q: Ioqueue, use: Use)
    requires q.Valid() && OnlyProducerSleeps(q.S())
    modifies q, q.buf
    ensures q.Valid() && OnlyProducerSleeps(q.S()) && q.S() == Used(old(q.S()), use)
  {
    ghost var s := q.S();
    match use {
      case Write(bytes) =>
        if q.prod == Idle {
          var n, slept := q.PipeWrite(bytes);
          if !slept {
            assert bytes[..n] == bytes;
          }
        }
      case Read(count) =>
        var d := q.PipeRead(count);
        assert d == s.data[..|d|] && q.Data() == s.data[|d|..];
      case GoOn =>
        if q.prod == Woken {
          q.ProducerReleases();
        }
    }
    UsedKeeps(s, use);
  }

  // ---- the keyboard: the producer never sleeps ----

  /** The interrupt handler stores a key only when the ring is not full, so only the consumer sleeps. */
  ghost predicate OnlyConsumerSleeps(s: State) {
    Inv(s) && Proper(s) && s.prod == Idle && s.cons in {Idle, Waiting, Woken}
  }

  /** A key, a call of ioq_getchar, or the woken reader going on. */
  datatype KeyUse = Press(b: byte) | Take | Wake

  function KeyUsed(s: State, use: KeyUse): State {
    match use
    case Press(b) => if Full(s) then s else Next(s, PutStep(b))
    case Take => if s.cons == Idle then Next(s, GetStep) else s
    case Wake => if s.cons == Woken then Next(Next(s, ConsumerRelease), GetStep) else s
  }

  function KeysUsed(s: State, uses: seq<KeyUse>, k: nat): State
    requires k <= |uses|
  {
    if k == 0 then s else KeyUsed(KeysUsed(s, uses, k - 1), uses[k - 1])
  }

  lemma KeyUsedKeeps(s: State, use: KeyUse)
    requires OnlyConsumerSleeps(s)
    ensures OnlyConsumerSleeps(KeyUsed(s, use)) && !Stuck(KeyUsed(s, use))
  {
    match use {
      case Press(b) =>
        NextKeeps(s, PutStep(b));
      case Take =>
        if s.cons == Idle {
          NextKeeps(s, GetStep);
        }
      case Wake =>
        if s.cons == Woken {
          NextKeeps(s, ConsumerRelease);
          NextKeeps(Next(s, ConsumerRelease), GetStep);
        }
    }
  }

  /** Over every run of the keyboard's ring: at each point nobody is stuck, a sleeping reader means an
      empty ring, and the keys come out as they were stored. */
  lemma {:induction false} KeyRunSafe(s: State, uses: seq<KeyUse>, k: nat)
    requires OnlyConsumerSleeps(s) && k <= |uses|
    ensures OnlyConsumerSleeps(KeysUsed(s, uses, k)) && !Stuck(KeysUsed(s, uses, k))
    ensures var e := KeysUsed(s, uses, k); e.got + e.data == e.sent && (e.cons == Waiting ==> e.data == [])
  {
    if k > 0 {
      KeyRunSafe(s, uses, k - 1);
      KeyUsedKeeps(KeysUsed(s, uses, k - 1), uses[k - 1]);
    }
  }

  /** A run of the keyboard's ring on the ring itself. */
  method KeyRun(q: Ioqueue, uses: seq<KeyUse>)
    requires q.Valid() && OnlyConsumerSleeps(q.S())
    modifies q, q.buf
    ensures q.Valid() && OnlyConsumerSleeps(q.S()) && q.S() == KeysUsed(old(q.S()), uses, |uses|)
  {
    var k := 0;
    while k < |uses|
      invariant k <= |uses| && q.Valid() && OnlyConsumerSleeps(q.S()) && q.S() == KeysUsed(old(q.S()), uses, k)
    {
      KeyUsedKeeps(q.S(), uses[k]);
      match uses[k] {
        case Press(b) =>
          if !q.IsFull() {
            var done := q.Put(b);
          }
        case Take =>
          if q.cons == Idle {
            var r := q.Get();
          }
        case Wake =>
          if q.cons == Woken {
            q.ConsumerReleases();
            var r := q.Get();
          }
      }
      k := k + 1;
    }
  }
}
