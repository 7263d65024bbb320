// Reference counts: compare-and-swap loops of any number of threads, against the counter under a lock.
module Refcount {
  const MAX: nat := 0xffff_ffff

  datatype Op = Inc | Dec

  // What an operation gives: nothing or false, whether the count became zero, or an abort.
  datatype Outcome = Returned(zero: bool) | Abort

  // The locked version, as one step.
  class LockedCount {
    var count: nat

    constructor (count: nat)
      requires count <= MAX
      ensures this.count == count
    {
      this.count := count;
    }

    method Increment()
      requires count <= MAX
      modifies this
      ensures (count, Returned(false)) == Atomic(old(count), Inc)
    {
      if count < MAX {
        count := count + 1;
      }
    }

    method DecrementAndTestZero() returns (r: Outcome)
      requires count <= MAX
      modifies this
      ensures (count, r) == Atomic(old(count), Dec)
    {
      if count == 0 {
        return Abort;
      }
      if count < MAX {
        count := count - 1;
      }
      return Returned(count == 0);
    }
  }

  // An atomic counter that saturates.
  function Atomic(count: nat, op: Op): (r: (nat, Outcome))
    requires count <= MAX
    ensures r.0 <= MAX
  {
    match op
    case Inc => (if count == MAX then MAX else count + 1, Returned(false))
    case Dec =>
      if count == 0 then (0, Abort)
      else if count == MAX then (MAX, Returned(false))
      else (count - 1, Returned(count == 1))
  }

  // The count as one thread meets it: before each of its accesses the other threads leave a value.
  class SharedCount {
    const others: nat -> nat
    const spurious: nat -> bool
    var count: nat
    var accesses: nat
    // The values before and after each change that this thread made.
    ghost var changes: seq<(nat, nat)>

    ghost predicate Valid()
      reads this
    {
      count <= MAX && forall k: nat :: others(k) <= MAX
    }

    constructor (others: nat -> nat, spurious: nat -> bool)
      requires forall k: nat :: others(k) <= MAX
      ensures Valid() && changes == []
    {
      this.others, this.spurious := others, spurious;
      count, accesses, changes := 0, 0, [];
    }

    method Load() returns (v: nat)
      requires Valid()
      modifies this
      ensures Valid() && v == count && changes == old(changes)
    {
      count := others(accesses);
      accesses := accesses + 1;
      v := count;
    }

    method CompareExchangeWeak(expected: nat, value: nat) returns (ok: bool, seen: nat)
      requires Valid() && value <= MAX
      modifies this
      ensures Valid()
      ensures ok ==> seen == expected && count == value && changes == old(changes) + [(expected, value)]
      ensures !ok ==> seen == count && changes == old(changes)
    {
      var fail := spurious(accesses);
      seen := Load();
      ok := seen == expected && !fail;
      if ok {
        count := value;
        changes := changes + [(expected, value)];
      }
    }

    // CRYPTO_refcount_inc, given up after some number of failures: one change by the atomic
    // counter, or none on a saturated one.
    method Increment(tries: nat) returns (done: bool)
      requires Valid()
      modifies this
      ensures Valid()
      ensures !done ==> changes == old(changes)
      ensures done && changes == old(changes) ==> count == MAX
      ensures done && changes != old(changes) ==>
                |changes| == |old(changes)| + 1 && changes[..|old(changes)|] == old(changes)
                && var (v, w) := changes[|old(changes)|]; v < MAX && w == count && (w, Returned(false)) == Atomic(v, Inc)
    {
      var expected := Load();
      var left := tries;
      while expected != MAX
        invariant Valid() && changes == old(changes) && expected == count
        decreases left
      {
        if left == 0 {
          return false;
        }
        left := left - 1;
        var ok, seen := CompareExchangeWeak(expected, expected + 1);
        expected := seen;
        if ok {
          return true;
        }
      }
      return true;
    }

    // CRYPTO_refcount_dec_and_test_zero, likewise.
    method DecrementAndTestZero(tries: nat) returns (done: bool, r: Outcome)
      requires Valid()
      modifies this
      ensures Valid()
      ensures !done ==> changes == old(changes)
      ensures done && changes == old(changes) ==> (count == 0 || count == MAX) && (count, r) == Atomic(count, Dec)
      ensures done && changes != old(changes) ==>
                |changes| == |old(changes)| + 1 && changes[..|old(changes)|] == old(changes)
                && var (v, w) := changes[|old(changes)|]; 0 < v < MAX && w == count && (w, r) == Atomic(v, Dec)
    {
      var expected := Load();
      var left := tries;
      while true
        invariant Valid() && changes == old(changes) && expected == count
        decreases left
      {
        if expected == 0 {
          return true, Abort;
        } else if expected == MAX {
          return true, Returned(false);
        } else if left == 0 {
          return false, Returned(false);
        }
        left := left - 1;
        var value := expected - 1;
        var ok, seen := CompareExchangeWeak(expected, value);
        if ok {
          return true, Returned(value == 0);
        }
        expected := seen;
      }
    }
  }

  // A thread between operations, before its first load, or in the loop with the expected value.
  datatype Control = Idle | Loading(op: Op) | Looping(op: Op, expected: nat) | Dead

  // held is the number of references the thread owns; results are what its operations gave.
  datatype Thread = Thread(pc: Control, held: int, results: seq<(Op, Outcome)>)

  datatype Event = Event(thread: nat, op: Op, outcome: Outcome)

  // The shared count, the threads, and the operations in the order of their effect.
  datatype System = System(count: nat, threads: seq<Thread>, log: seq<Event>)

  // A thread calls an operation, makes one access to the count, or passes a reference on. A
  // compare-and-swap may fail for no reason.
  datatype Action = Call(t: nat, op: Op) | Access(t: nat, spurious: bool) | Give(t: nat, to: nat)

  predicate Ok(s: System) {
    && s.count <= MAX
    && forall th <- s.threads :: th.pc.Looping? ==> th.pc.expected <= MAX
  }

  function SetPc(s: System, t: nat, pc: Control): System
    requires t < |s.threads|
  {
    s.(threads := s.threads[t := s.threads[t].(pc := pc)])
  }

  // The loop head with the value just read: a decrement that reads zero has already failed.
  function Read(s: System, t: nat, op: Op): System
    requires t < |s.threads|
  {
    var s' := SetPc(s, t, Looping(op, s.count));
    if op == Dec && s.count == 0 then s'.(log := s.log + [Event(t, op, Abort)]) else s'
  }

  // The operation takes effect on the count and returns.
  function Finish(s: System, t: nat, op: Op, count: nat, zero: bool): System
    requires t < |s.threads|
  {
    var th := s.threads[t];
    var held := if op == Inc then th.held + 1 else th.held - 1;
    System(count, s.threads[t := Thread(Idle, held, th.results + [(op, Returned(zero))])], s.log + [Event(t, op, Returned(zero))])
  }

  // One access: the load, or one turn of the loop.
  function Turn(s: System, t: nat, spurious: bool): System
    requires t < |s.threads|
  {
    var th := s.threads[t];
    match th.pc
    case Idle => s
    case Dead => s
    case Loading(op) => Read(s, t, op)
    case Looping(op, expected) =>
      if op.Dec? && expected == 0 then
        s.(threads := s.threads[t := th.(pc := Dead, results := th.results + [(op, Abort)])])
      else if expected == MAX then Finish(s, t, op, s.count, false)
      else
        var value := if op.Inc? then expected + 1 else expected - 1;
        if s.count == expected && !spurious then Finish(s, t, op, value, op == Dec && value == 0)
        else Read(s, t, op)
  }

  function Step(s: System, a: Action): System {
    match a
    case Call(t, op) => if t < |s.threads| && s.threads[t].pc.Idle? then SetPc(s, t, Loading(op)) else s
    case Access(t, spurious) => if t < |s.threads| then Turn(s, t, spurious) else s
    case Give(t, to) =>
      if t < |s.threads| && to < |s.threads| && t != to && s.threads[t].pc.Idle? && s.threads[t].held > 0 then
        s.(threads := s.threads[t := s.threads[t].(held := s.threads[t].held - 1)]
                                [to := s.threads[to].(held := s.threads[to].held + 1)])
      else s
  }

  function Run(s: System, actions: seq<Action>): System
    decreases |actions|
  {
    if actions == [] then s else Step(Run(s, actions[..|actions| - 1]), actions[|actions| - 1])
  }

  // ---- Linearizability ----

  // The log is a run of the atomic counter, from one count to the other.
  ghost predicate Explains(log: seq<Event>, from: nat, count: nat)
    requires from <= MAX
    decreases |log|
  {
    if log == [] then count == from
    else
      var e := log[|log| - 1];
      exists before: nat | before <= MAX ::
        Explains(log[..|log| - 1], from, before) && Atomic(before, e.op) == (count, e.outcome)
  }

  // The part of the log that belongs to a thread.
  function Own(log: seq<Event>, t: nat): seq<(Op, Outcome)>
    decreases |log|
  {
    if log == [] then []
    else
      var e := log[|log| - 1];
      Own(log[..|log| - 1], t) + (if e.thread == t then [(e.op, e.outcome)] else [])
  }

  // What a thread has taken effect but not returned: only a failed decrement.
  function Owed(pc: Control): seq<(Op, Outcome)> {
    if pc.Looping? && pc.op == Dec && pc.expected == 0 then [(Dec, Abort)] else []
  }

  ghost predicate Faithful(s: System, from: nat)
    requires from <= MAX
  {
    && Ok(s) && Explains(s.log, from, s.count)
    && forall t | 0 <= t < |s.threads| ::
         && Own(s.log, t) == s.threads[t].results + Owed(s.threads[t].pc)
         && (s.threads[t].pc.Looping? && s.threads[t].pc.expected == MAX ==> s.count == MAX)
  }

  lemma OwnAppend(log: seq<Event>, e: Event, t: nat)
    ensures Own(log + [e], t) == Own(log, t) + (if e.thread == t then [(e.op, e.outcome)] else [])
  {
    assert (log + [e])[..|log|] == log;
  }

  lemma ExplainsAppend(log: seq<Event>, from: nat, before: nat, e: Event, count: nat)
    requires from <= MAX && before <= MAX && Explains(log, from, before)
    requires Atomic(before, e.op) == (count, e.outcome)
    ensures Explains(log + [e], from, count)
  {
    assert (log + [e])[..|log|] == log && (log + [e])[|log|] == e;
    assert Explains((log + [e])[..|log|], from, before);
  }

  lemma SetPcFaithful(s: System, from: nat, t: nat, pc: Control)
    requires from <= MAX && Faithful(s, from) && t < |s.threads|
    requires pc.Looping? ==> pc.expected <= MAX && (pc.expected == MAX ==> s.count == MAX)
    requires Owed(pc) == Owed(s.threads[t].pc)
    ensures Faithful(SetPc(s, t, pc), from)
  {
  }

  lemma ReadFaithful(s: System, from: nat, t: nat, op: Op)
    requires from <= MAX && Faithful(s, from) && t < |s.threads|
    requires Owed(s.threads[t].pc) == []
    ensures Faithful(Read(s, t, op), from)
  {
    if op == Dec && s.count == 0 {
      var e := Event(t, op, Abort);
      ExplainsAppend(s.log, from, s.count, e, 0);
      var s' := Read(s, t, op);
      forall u | 0 <= u < |s.threads|
        ensures Own(s'.log, u) == s'.threads[u].results + Owed(s'.threads[u].pc)
      {
        OwnAppend(s.log, e, u);
      }
    } else {
      SetPcFaithful(s, from, t, Looping(op, s.count));
    }
  }

  lemma FinishFaithful(s: System, from: nat, t: nat, op: Op, count: nat, zero: bool)
    requires from <= MAX && Faithful(s, from) && t < |s.threads|
    requires Owed(s.threads[t].pc) == []
    requires Atomic(s.count, op) == (count, Returned(zero))
    ensures Faithful(Finish(s, t, op, count, zero), from)
  {
    var e := Event(t, op, Returned(zero));
    ExplainsAppend(s.log, from, s.count, e, count);
    var s' := Finish(s, t, op, count, zero);
    forall u | 0 <= u < |s.threads|
      ensures Own(s'.log, u) == s'.threads[u].results + Owed(s'.threads[u].pc)
    {
      OwnAppend(s.log, e, u);
    }
  }

  lemma DieFaithful(s: System, from: nat, t: nat)
    requires from <= MAX && Faithful(s, from) && t < |s.threads| && s.threads[t].pc == Looping(Dec, 0)
    ensures Faithful(Turn(s, t, false), from) && Turn(s, t, true) == Turn(s, t, false)
  {
    var th := s.threads[t];
    assert th.results + [(Dec, Abort)] + [] == th.results + [(Dec, Abort)];
  }

  lemma StepFaithful(s: System, from: nat, a: Action)
    requires from <= MAX && Faithful(s, from)
    ensures Faithful(Step(s, a), from)
  {
    match a {
      case Call(t, op) =>
        if t < |s.threads| && s.threads[t].pc.Idle? {
          SetPcFaithful(s, from, t, Loading(op));
        }
      case Access(t, spurious) =>
        if t < |s.threads| {
          TurnFaithful(s, from, t, spurious);
        }
      case Give(t, to) =>
        GiveFaithful(s, from, t, to);
    }
  }

  lemma GiveFaithful(s: System, from: nat, t: nat, to: nat)
    requires from <= MAX && Faithful(s, from)
    ensures Faithful(Step(s, Give(t, to)), from)
  {
    hide Explains, Own;
  }

  lemma TurnFaithful(s: System, from: nat, t: nat, spurious: bool)
    requires from <= MAX && Faithful(s, from) && t < |s.threads|
    ensures Faithful(Turn(s, t, spurious), from)
  {
    var th := s.threads[t];
    match th.pc {
      case Idle =>
      case Dead =>
      case Loading(op) =>
        ReadFaithful(s, from, t, op);
      case Looping(op, expected) =>
        assert th in s.threads;
        if op == Dec && expected == 0 {
          DieFaithful(s, from, t);
        } else if expected == MAX {
          FinishFaithful(s, from, t, op, s.count, false);
        } else {
          var value := if op == Inc then expected + 1 else expected - 1;
          if s.count == expected && !spurious {
            FinishFaithful(s, from, t, op, value, op == Dec && value == 0);
          } else {
            ReadFaithful(s, from, t, op);
          }
        }
    }
  }

  // Threads that have not begun.
  ghost predicate Fresh(s: System) {
    s.count <= MAX && s.log == [] && forall th <- s.threads :: th.pc == Idle && th.results == []
  }

  // In every run, whatever the schedule and however often a compare-and-swap fails for no reason,
  // the operations have an order of effect in which they are operations of the atomic counter,
  // and each thread got the results of that order.
  lemma {:induction false} Linearizable(s: System, actions: seq<Action>)
    requires Fresh(s)
    ensures Faithful(Run(s, actions), s.count)
    decreases |actions|
  {
    if actions == [] {
      forall t | 0 <= t < |s.threads|
        ensures Own(s.log, t) == s.threads[t].results + Owed(s.threads[t].pc)
      {
        assert s.threads[t] in s.threads;
      }
    } else {
      Linearizable(s, actions[..|actions| - 1]);
      StepFaithful(Run(s, actions[..|actions| - 1]), s.count, actions[|actions| - 1]);
    }
  }

  // The order respects time: an operation that has taken effect stays before all later ones.
  lemma {:induction false} OrderKept(s: System, actions: seq<Action>, n: nat)
    requires n <= |actions|
    ensures Run(s, actions[..n]).log <= Run(s, actions).log
    decreases |actions|
  {
    if n < |actions| {
      var rest := actions[..|actions| - 1];
      OrderKept(s, rest, n);
      assert rest[..n] == actions[..n];
      StepGrows(Run(s, rest), actions[|actions| - 1]);
    } else {
      assert actions[..n] == actions;
    }
  }

  lemma StepGrows(s: System, a: Action)
    ensures s.log <= Step(s, a).log
  {
  }

  // ---- Ownership ----

  // A saturated count never changes again, and no decrement of it reports zero.
  lemma {:induction false} SaturatedStays(s: System, actions: seq<Action>)
    requires s.count == 0xffff_ffff
    ensures Run(s, actions).count == 0xffff_ffff && Zeros(Run(s, actions).log) == Zeros(s.log)
    decreases |actions|
  {
    if actions != [] {
      var n := |actions| - 1;
      SaturatedStays(s, actions[..n]);
      SaturatedStep(Run(s, actions[..n]), actions[n]);
    }
  }

  lemma SaturatedStep(s: System, a: Action)
    requires s.count == 0xffff_ffff
    ensures Step(s, a).count == 0xffff_ffff && Zeros(Step(s, a).log) == Zeros(s.log)
  {
    hide Zeros;
    StepGrows(s, a);
    if |Step(s, a).log| > |s.log| {
      ZerosAppend(s.log, Step(s, a).log[|s.log|]);
    }
  }

  function Sum(threads: seq<Thread>): int
    decreases |threads|
  {
    if threads == [] then 0 else Sum(threads[..|threads| - 1]) + threads[|threads| - 1].held
  }

  // How often a decrement reported that the count became zero.
  function Zeros(log: seq<Event>): nat
    decreases |log|
  {
    if log == [] then 0
    else Zeros(log[..|log| - 1]) + if log[|log| - 1].outcome == Returned(true) then 1 else 0
  }

  lemma ZerosAppend(log: seq<Event>, e: Event)
    ensures Zeros(log + [e]) == Zeros(log) + if e.outcome == Returned(true) then 1 else 0
  {
    assert (log + [e])[..|log|] == log;
  }

  lemma {:induction false} SumUpdate(threads: seq<Thread>, t: nat, th: Thread)
    requires t < |threads|
    ensures Sum(threads[t := th]) == Sum(threads) - threads[t].held + th.held
    decreases |threads|
  {
    var n := |threads| - 1;
    if t == n {
      assert threads[t := th][..n] == threads[..n];
    } else {
      SumUpdate(threads[..n], t, th);
      assert threads[t := th][..n] == threads[..n][t := th];
    }
  }

  ghost predicate NoDebt(threads: seq<Thread>) {
    forall th <- threads :: th.held >= if th.pc.Idle? then 0 else 1
  }

  lemma {:induction false} SumCovers(threads: seq<Thread>, t: nat)
    requires t < |threads| && NoDebt(threads)
    ensures Sum(threads) >= threads[t].held
    decreases |threads|
  {
    var n := |threads| - 1;
    SumNonNegative(threads[..n]);
    if t < n {
      SumCovers(threads[..n], t);
      assert threads[n] in threads;
    }
  }

  lemma {:induction false} SumNonNegative(threads: seq<Thread>)
    requires NoDebt(threads)
    ensures Sum(threads) >= 0
    decreases |threads|
  {
    if threads != [] {
      SumNonNegative(threads[..|threads| - 1]);
      assert threads[|threads| - 1] in threads;
    }
  }

  // Every caller owns a reference: a thread calls an operation only with one in hand.
  ghost predicate Disciplined(s: System, actions: seq<Action>)
    decreases |actions|
  {
    actions == [] ||
    var a := actions[|actions| - 1];
    var before := Run(s, actions[..|actions| - 1]);
    && Disciplined(s, actions[..|actions| - 1])
    && (a.Call? && a.t < |before.threads| && before.threads[a.t].pc.Idle? ==> before.threads[a.t].held > 0)
  }

  // The count is the number of references, until it saturates; threads in an operation own one;
  // nobody fails, and a decrement has reported zero if and only if the count is zero.
  ghost predicate Counted(s: System) {
    && s.count <= MAX && NoDebt(s.threads) && (s.count == MAX || s.count == Sum(s.threads))
    && (forall t | 0 <= t < |s.threads| :: Steady(s.threads[t].pc, s.count))
    && Zeros(s.log) == if s.count == 0 then 1 else 0
  }

  ghost predicate Steady(pc: Control, count: nat) {
    !pc.Dead? && (pc.Looping? ==> 0 < pc.expected <= MAX && (pc.expected == MAX ==> count == MAX))
  }

  lemma NoDebtUpdate(threads: seq<Thread>, t: nat, th: Thread)
    requires t < |threads| && NoDebt(threads) && th.held >= if th.pc.Idle? then 0 else 1
    ensures NoDebt(threads[t := th])
  {
    var after := threads[t := th];
    forall x <- after
      ensures x.held >= if x.pc.Idle? then 0 else 1
    {
      var u :| 0 <= u < |after| && after[u] == x;
      assert u != t ==> threads[u] in threads;
    }
  }

  lemma FinishCounted(s: System, t: nat, op: Op, count: nat, zero: bool)
    requires Counted(s) && t < |s.threads| && s.threads[t].pc.Looping?
    requires Atomic(s.count, op) == (count, Returned(zero))
    ensures Counted(Finish(s, t, op, count, zero))
  {
    var th := s.threads[t];
    assert th in s.threads;
    var s' := Finish(s, t, op, count, zero);
    SumCovers(s.threads, t);
    SumUpdate(s.threads, t, s'.threads[t]);
    NoDebtUpdate(s.threads, t, s'.threads[t]);
    ZerosAppend(s.log, Event(t, op, Returned(zero)));
    forall u | 0 <= u < |s'.threads|
      ensures Steady(s'.threads[u].pc, s'.count)
    {
      assert Steady(s.threads[u].pc, s.count);
    }
  }

  lemma ReadCounted(s: System, t: nat, op: Op)
    requires Counted(s) && t < |s.threads| && !s.threads[t].pc.Idle?
    ensures Counted(Read(s, t, op))
  {
    var th := s.threads[t];
    assert th in s.threads;
    SumCovers(s.threads, t);
    var th' := th.(pc := Looping(op, s.count));
    SumUpdate(s.threads, t, th');
    NoDebtUpdate(s.threads, t, th');
  }

  lemma TurnCounted(s: System, t: nat, spurious: bool)
    requires Counted(s) && t < |s.threads|
    ensures Counted(Turn(s, t, spurious))
  {
    var th := s.threads[t];
    assert Steady(th.pc, s.count);
    hide Counted, Read, Finish;
    match th.pc {
      case Idle =>
      case Loading(op) =>
        ReadCounted(s, t, op);
      case Looping(op, expected) =>
        if expected == MAX {
          FinishCounted(s, t, op, s.count, false);
        } else if s.count == expected && !spurious {
          var value := if op.Inc? then expected + 1 else expected - 1;
          FinishCounted(s, t, op, value, op == Dec && value == 0);
        } else {
          ReadCounted(s, t, op);
        }
    }
  }

  lemma CallCounted(s: System, t: nat, op: Op)
    requires Counted(s) && t < |s.threads| && s.threads[t].pc.Idle? && s.threads[t].held > 0
    ensures Counted(SetPc(s, t, Loading(op)))
  {
    var th' := s.threads[t].(pc := Loading(op));
    SumUpdate(s.threads, t, th');
    NoDebtUpdate(s.threads, t, th');
  }

  lemma GiveCounted(s: System, t: nat, to: nat)
    requires Counted(s)
    ensures Counted(Step(s, Give(t, to)))
  {
    if t < |s.threads| && to < |s.threads| && t != to && s.threads[t].pc.Idle? && s.threads[t].held > 0 {
      var x := s.threads[t].(held := s.threads[t].held - 1);
      var y := s.threads[to].(held := s.threads[to].held + 1);
      assert s.threads[to] in s.threads;
      SumUpdate(s.threads, t, x);
      NoDebtUpdate(s.threads, t, x);
      SumUpdate(s.threads[t := x], to, y);
      NoDebtUpdate(s.threads[t := x], to, y);
      var s' := Step(s, Give(t, to));
      forall u | 0 <= u < |s'.threads|
        ensures Steady(s'.threads[u].pc, s'.count)
      {
        assert Steady(s.threads[u].pc, s.count);
      }
    }
  }

  // From a count of the references owned, in every run in which callers own a reference: no
  // decrement fails, the count stays the number of references unless it saturates, and exactly
  // one decrement has reported zero if the count is zero, none if it is not.
  lemma {:induction false} ExactlyOneZero(s: System, actions: seq<Action>)
    requires Fresh(s) && 0 < s.count == Sum(s.threads) && NoDebt(s.threads)
    requires Disciplined(s, actions)
    ensures Counted(Run(s, actions))
    decreases |actions|
  {
    if actions == [] {
      forall t | 0 <= t < |s.threads|
        ensures Steady(s.threads[t].pc, s.count)
      {
        assert s.threads[t] in s.threads;
      }
    } else {
      var before := Run(s, actions[..|actions| - 1]);
      ExactlyOneZero(s, actions[..|actions| - 1]);
      match actions[|actions| - 1] {
        case Call(t, op) =>
          if t < |before.threads| && before.threads[t].pc.Idle? {
            CallCounted(before, t, op);
          }
        case Access(t, spurious) =>
          if t < |before.threads| {
            TurnCounted(before, t, spurious);
          }
        case Give(t, to) =>
          GiveCounted(before, t, to);
      }
    }
  }

  // Once every reference is released, and the count never saturated, one decrement reported zero.
  lemma AllReleased(s: System, actions: seq<Action>)
    requires Fresh(s) && 0 < s.count == Sum(s.threads) && NoDebt(s.threads) && Disciplined(s, actions)
    ensures var s' := Run(s, actions);
            Sum(s'.threads) == 0 ==> if s'.count == MAX then Zeros(s'.log) == 0 else Zeros(s'.log) == 1
  {
    ExactlyOneZero(s, actions);
  }
}
