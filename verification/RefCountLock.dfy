/** The reference count under one lock: reads, tests and writes of the count are separate steps of the lock's owner. */
module RefCountLock {
  import opened Prelude
  import opened RefCount

  /** Where a thread is; everything from `Test` to `Unlock` happens while it holds the lock. */
  datatype Pc =
    | LockIdle
    | Wait(op: Op)
    | Test(op: Op)
    | Check
    | Load(op: Op)
    | Store(op: Op, value: nat)
    | Result
    | Unlock(op: Op, zero: bool)

  datatype LockThread = LockThread(held: nat, pc: Pc)

  datatype Locked = Locked(count: nat, owner: Option<nat>, threads: seq<LockThread>, results: seq<bool>, aborted: bool)

  datatype LockAction = LockBegin(t: nat, op: Op) | LockStep(t: nat)

  function SetPc(s: Locked, t: nat, pc: Pc): Locked
    requires t < |s.threads|
  {
    s.(threads := s.threads[t := s.threads[t].(pc := pc)])
  }

  /** The results are recorded when the count is written, which is when a decrement takes effect. */
  function LockAct(s: Locked, a: LockAction): Locked {
    if a.t >= |s.threads| then s
    else
      var th := s.threads[a.t];
      match a
      case LockBegin(t, op) =>
        if th.pc != LockIdle || th.held == 0 then s
        else s.(threads := s.threads[t := LockThread(if op == Dec then th.held - 1 else th.held, Wait(op))])
      case LockStep(t) =>
        match th.pc
        case LockIdle => s
        case Wait(op) => if s.owner == None then SetPc(s.(owner := Some(t)), t, Test(op)) else s
        case Test(op) =>
          if op == Inc then (if s.count < MAX then SetPc(s, t, Load(Inc)) else SetPc(s, t, Unlock(Inc, false)))
          else if s.count == 0 then s.(aborted := true)
          else SetPc(s, t, Check)
        case Check =>
          if s.count < MAX then SetPc(s, t, Load(Dec)) else SetPc(s.(results := s.results + [false]), t, Result)
        case Load(op) => SetPc(s, t, Store(op, s.count))
        case Store(op, v) =>
          if op == Inc then SetPc(s.(count := (v + 1) % (MAX + 1)), t, Unlock(Inc, false))
          else
            var less := (v + MAX) % (MAX + 1);
            SetPc(s.(count := less, results := s.results + [less == 0]), t, Result)
        case Result => SetPc(s, t, Unlock(Dec, s.count == 0))
        case Unlock(op, zero) =>
          s.(owner := None, threads := s.threads[t := LockThread(if op == Inc then th.held + 1 else th.held, LockIdle)])
  }

  function View(th: LockThread, count: nat): Thread {
    Thread(th.held, match th.pc
                    case LockIdle => Idle
                    case Wait(op) => Busy(op)
                    case Test(op) => Busy(op)
                    case Check => Busy(Dec)
                    case Load(op) => Busy(op)
                    case Store(op, _) => Busy(op)
                    case Result => Returning(Dec, count == 0)
                    case Unlock(op, zero) => Returning(op, zero))
  }

  function Abs(s: Locked): Counter {
    Counter(s.count, seq(|s.threads|, t requires 0 <= t < |s.threads| => View(s.threads[t], s.count)), s.results, s.aborted)
  }

  predicate Inside(pc: Pc) {
    pc.Test? || pc.Check? || pc.Load? || pc.Store? || pc.Result? || pc.Unlock?
  }

  /** Only the owner is inside, and what it has compared and read still holds. */
  predicate LockOk(s: Locked) {
    && (forall t :: 0 <= t < |s.threads| ==> (Inside(s.threads[t].pc) <==> s.owner == Some(t)))
    && (forall t :: 0 <= t < |s.threads| ==> OwnerKnows(s.threads[t].pc, s.count))
  }

  predicate OwnerKnows(pc: Pc, count: nat) {
    && (pc.Check? ==> count > 0)
    && (pc.Load? || pc.Store? ==> count < MAX)
    && (pc == Load(Dec) ==> count > 0)
    && (pc.Store? ==> pc.value == count && (pc.op == Dec ==> count > 0))
    && (pc.Unlock? && pc.op == Inc ==> !pc.zero)
  }

  /** What a step is in terms of the atomic counter. */
  function Means(s: Locked, a: LockAction): Option<Action> {
    if a.t >= |s.threads| then None
    else match a
      case LockBegin(t, op) => Some(Begin(t, op))
      case LockStep(t) =>
        match s.threads[t].pc
        case Test(op) => if op == Inc && s.count == MAX then Some(TakeEffect(t)) else None
        case Check => if s.count == MAX then Some(TakeEffect(t)) else None
        case Store(_, _) => Some(TakeEffect(t))
        case Unlock(_, _) => Some(Return(t))
        case _ => None
  }

  lemma Positive(s: Locked, t: nat)
    requires Good(Abs(s))
    ensures t < |s.threads| && s.threads[t].pc == Test(Dec) ==> s.count > 0
    ensures s.count <= MAX
  {
    hide Refs;
    if t < |s.threads| {
      RefsUpdate(Abs(s).threads, t, Abs(s).threads[t]);
    }
  }

  lemma Wrap(v: nat)
    requires v <= MAX
    ensures v < MAX ==> (v + 1) % (MAX + 1) == v + 1
    ensures v > 0 ==> (v + MAX) % (MAX + 1) == v - 1
  {
  }

  /** The moving thread knows what it needs, before and after, and writes the count only from inside. */
  lemma OwnKnows(s: Locked, a: LockAction)
    requires s.count <= MAX && a.t < |s.threads| && OwnerKnows(s.threads[a.t].pc, s.count)
    requires s.threads[a.t].pc == Test(Dec) ==> s.count > 0
    ensures |LockAct(s, a).threads| == |s.threads|
    ensures OwnerKnows(LockAct(s, a).threads[a.t].pc, LockAct(s, a).count)
    ensures LockAct(s, a).count != s.count ==> Inside(s.threads[a.t].pc)
    ensures forall t :: 0 <= t < |s.threads| && t != a.t ==> LockAct(s, a).threads[t] == s.threads[t]
  {
    Wrap(s.count);
  }

  /** Who is inside after a step: the thread that has just taken the lock, or the owner until it lets go. */
  lemma OwnInside(s: Locked, a: LockAction)
    requires a.t < |s.threads| && (Inside(s.threads[a.t].pc) <==> s.owner == Some(a.t))
    ensures var s' := LockAct(s, a);
            && |s'.threads| == |s.threads|
            && (Inside(s'.threads[a.t].pc) <==> s'.owner == Some(a.t))
            && (s'.owner != s.owner ==> s.owner == None || s.owner == Some(a.t))
            && (s'.owner != s.owner ==> s'.owner == None || s'.owner == Some(a.t))
  {
  }

  /** A step of one thread leaves the others where they are; if it writes the count, no other is inside. */
  lemma OthersKnow(s: Locked, a: LockAction)
    requires LockOk(s) && s.count <= MAX
    requires a.t < |s.threads| && s.threads[a.t].pc == Test(Dec) ==> s.count > 0
    ensures LockOk(LockAct(s, a))
    ensures LockAct(s, a).count != s.count ==> forall t :: 0 <= t < |s.threads| && t != a.t ==> !Inside(s.threads[t].pc)
  {
    hide LockAct;
    if a.t < |s.threads| {
      OwnKnows(s, a);
      OwnInside(s, a);
    } else {
      NoThread(s, a);
    }
  }

  lemma NoThread(s: Locked, a: LockAction)
    requires a.t >= |s.threads|
    ensures LockAct(s, a) == s
  {
  }

  /** The threads as the atomic counter sees them. */
  lemma SameThreads(s: Locked, a: LockAction)
    requires LockOk(s) && s.count <= MAX
    requires a.t < |s.threads| && s.threads[a.t].pc == Test(Dec) ==> s.count > 0
    ensures |Abs(LockAct(s, a)).threads| == |Done(Abs(s), Means(s, a)).threads|
    ensures forall t :: 0 <= t < |s.threads| && t != a.t ==> Abs(LockAct(s, a)).threads[t] == Abs(s).threads[t]
    ensures forall t :: 0 <= t < |s.threads| && t != a.t ==> Done(Abs(s), Means(s, a)).threads[t] == Abs(s).threads[t]
  {
    OthersKnow(s, a);
  }

  lemma OwnThread(s: Locked, a: LockAction)
    requires s.count <= MAX && a.t < |s.threads| && OwnerKnows(s.threads[a.t].pc, s.count)
    requires s.threads[a.t].pc == Test(Dec) ==> s.count > 0
    ensures |Abs(LockAct(s, a)).threads| == |s.threads| == |Done(Abs(s), Means(s, a)).threads|
    ensures Abs(LockAct(s, a)).threads[a.t] == Done(Abs(s), Means(s, a)).threads[a.t]
  {
    Wrap(s.count);
  }

  lemma OwnCount(s: Locked, a: LockAction)
    requires s.count <= MAX && a.t < |s.threads| && OwnerKnows(s.threads[a.t].pc, s.count)
    requires s.threads[a.t].pc == Test(Dec) ==> s.count > 0
    ensures var s', v' := LockAct(s, a), Done(Abs(s), Means(s, a));
            s'.count == v'.count && s'.results == v'.results && s'.aborted == v'.aborted
  {
    Wrap(s.count);
  }

  lemma ThreadKnows(s: Locked, t: nat)
    requires LockOk(s) && t < |s.threads|
    ensures OwnerKnows(s.threads[t].pc, s.count)
  {
  }

  /** The locked form refines the atomic counter in every interleaving. */
  lemma LockRefines(s: Locked, a: LockAction)
    requires LockOk(s) && Good(Abs(s))
    ensures LockOk(LockAct(s, a)) && Good(Abs(LockAct(s, a)))
    ensures Abs(LockAct(s, a)) == Done(Abs(s), Means(s, a))
  {
    hide Good, Refs, LockOk, View, Act;
    Positive(s, a.t);
    var v, v' := Abs(s), Done(Abs(s), Means(s, a));
    OthersKnow(s, a);
    if a.t < |s.threads| {
      SameThreads(s, a);
      ThreadKnows(s, a.t);
      OwnThread(s, a);
      OwnCount(s, a);
      assert Abs(LockAct(s, a)).threads == v'.threads;
    }
    if Means(s, a).Some? {
      ActGood(v, Means(s, a).value);
    }
  }

  function LockExec(s: Locked, actions: seq<LockAction>): Locked
    decreases |actions|
  {
    if actions == [] then s else LockExec(LockAct(s, actions[0]), actions[1..])
  }

  /** Every run under the lock is a run of the atomic counter. */
  lemma {:induction false} LockRuns(s: Locked, actions: seq<LockAction>) returns (atomic: seq<Action>)
    requires LockOk(s) && Good(Abs(s))
    ensures Abs(LockExec(s, actions)) == Exec(Abs(s), atomic)
    decreases |actions|
  {
    hide Good, LockOk, LockAct, Means, Abs, Act;
    if actions == [] {
      atomic := [];
    } else {
      LockRefines(s, actions[0]);
      var rest := LockRuns(LockAct(s, actions[0]), actions[1..]);
      var m := Means(s, actions[0]);
      if m.Some? {
        atomic := [m.value] + rest;
        assert atomic[1..] == rest;
      } else {
        atomic := rest;
      }
    }
  }

  /** All threads are between calls, and the lock is free. */
  predicate LockInitial(s: Locked) {
    && s.owner == None && Initial(Abs(s))
    && forall t :: 0 <= t < |s.threads| ==> s.threads[t].pc == LockIdle
  }

  /** So the lock form, too, never aborts, and lets only the very last decrement return one. */
  lemma LockOneZeroLast(s: Locked, actions: seq<LockAction>)
    requires LockInitial(s)
    ensures var r := LockExec(s, actions);
            && !r.aborted
            && (forall i :: 0 <= i < |r.results| && r.results[i] ==> i == |r.results| - 1)
            && (r.count < MAX ==> ((exists i :: 0 <= i < |r.results| && r.results[i]) <==> Refs(Abs(r).threads) == 0))
  {
    hide LockExec, Refs, Exec;
    var atomic := LockRuns(s, actions);
    OneZeroLast(Abs(s), atomic);
  }

  lemma LockSaturated(s: Locked, actions: seq<LockAction>)
    requires LockOk(s) && Good(Abs(s)) && s.count == MAX
    ensures var r := LockExec(s, actions);
            r.count == MAX && s.results <= r.results && forall i :: |s.results| <= i < |r.results| ==> !r.results[i]
  {
    hide LockExec, Exec, Good, LockOk;
    var atomic := LockRuns(s, actions);
    SaturatedForever(Abs(s), atomic);
  }

  /** A thread that goes on alone. */
  function Alone(s: Locked, t: nat, n: nat): Locked
    decreases n
  {
    if n == 0 then s else Alone(LockAct(s, LockStep(t)), t, n - 1)
  }

  /** The thread's call is over, has counted what it had not counted yet, and no other thread has moved. */
  predicate Ends(s: Locked, t: nat, r: Locked)
    requires t < |s.threads|
  {
    var th, pc := s.threads[t], View(s.threads[t], s.count).pc;
    && |r.threads| == |s.threads| && (forall u :: 0 <= u < |s.threads| && u != t ==> r.threads[u] == s.threads[u])
    && r.threads[t] == LockThread(th.held + (if pc == Busy(Inc) || (pc.Returning? && pc.op == Inc) then 1 else 0), LockIdle)
    && r.owner == None
    && if pc.Busy? then Counted(pc.op, s.count, s.results, r.count, r.results) else r.count == s.count && r.results == s.results
  }

  /** The steps that are left. */
  function StepsLeft(pc: Pc): nat {
    match pc
    case LockIdle => 0
    case Unlock(_, _) => 1
    case Result => 2
    case Store(_, _) => 3
    case Load(_) => 4
    case Check => 5
    case Test(_) => 6
    case Wait(_) => 7
  }

  lemma OneStep(s: Locked, t: nat)
    requires LockOk(s) && Good(Abs(s)) && t < |s.threads| && (s.owner == None || s.owner == Some(t))
    ensures var s' := LockAct(s, LockStep(t));
            && t < |s'.threads| && (s'.owner == None || s'.owner == Some(t))
            && (s.threads[t].pc == LockIdle || StepsLeft(s'.threads[t].pc) < StepsLeft(s.threads[t].pc))
            && (forall r :: Ends(s', t, r) ==> Ends(s, t, r))
            && (s.threads[t].pc == LockIdle ==> Ends(s, t, s) && s' == s)
  {
    hide Good, LockOk;
    Positive(s, t);
    ThreadKnows(s, t);
    InsideOwns(s, t);
    Wrap(s.count);
  }

  lemma InsideOwns(s: Locked, t: nat)
    requires LockOk(s) && t < |s.threads|
    ensures Inside(s.threads[t].pc) <==> s.owner == Some(t)
  {
  }

  /** Wherever a thread is in its call, seven steps end it, unless another thread has the lock. */
  lemma LockFinishes(s: Locked, t: nat, n: nat)
    requires LockOk(s) && Good(Abs(s)) && t < |s.threads| && (s.owner == None || s.owner == Some(t)) && n >= 7
    ensures Ends(s, t, Alone(s, t, n))
  {
    FinishesIn(s, t, n);
  }

  lemma {:induction false} FinishesIn(s: Locked, t: nat, n: nat)
    requires LockOk(s) && Good(Abs(s)) && t < |s.threads| && (s.owner == None || s.owner == Some(t))
    requires n >= StepsLeft(s.threads[t].pc)
    ensures Ends(s, t, Alone(s, t, n))
    decreases n
  {
    hide Good, LockOk, LockAct, Ends, Abs;
    OneStep(s, t);
    if n > 0 {
      LockRefines(s, LockStep(t));
      FinishesIn(LockAct(s, LockStep(t)), t, n - 1);
    }
  }
}
