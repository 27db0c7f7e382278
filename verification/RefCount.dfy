/**
 A saturating reference count as one atomic counter, used by any number of threads. What holds of it holds
 of both implementations, which refine it.
 */
module RefCount {
  import opened Prelude

  const MAX := 0xFFFF_FFFF

  datatype Op = Inc | Dec

  /** A thread is between calls, in a call that has not taken effect, or in one that has. */
  datatype Pc = Idle | Busy(op: Op) | Returning(op: Op, zero: bool)

  /** A thread and the references it holds. A reference being given up is no longer held. */
  datatype Thread = Thread(held: nat, pc: Pc)

  /** The count, the threads, and the results of all decrements in the order in which they took effect. */
  datatype Counter = Counter(count: nat, threads: seq<Thread>, results: seq<bool>, aborted: bool)

  datatype Action = Begin(t: nat, op: Op) | TakeEffect(t: nat) | Return(t: nat)

  function SetPc(s: Counter, t: nat, pc: Pc): Counter
    requires t < |s.threads|
  {
    s.(threads := s.threads[t := s.threads[t].(pc := pc)])
  }

  /** Only a holder calls: to take a further reference, or to give one up. An action that is not possible does nothing. */
  function Act(s: Counter, a: Action): Counter {
    if a.t >= |s.threads| then s
    else
      var th := s.threads[a.t];
      match a
      case Begin(t, op) =>
        if th.pc != Idle || th.held == 0 then s
        else s.(threads := s.threads[t := Thread(if op == Dec then th.held - 1 else th.held, Busy(op))])
      case TakeEffect(t) =>
        if !th.pc.Busy? then s
        else if th.pc.op == Inc then
          SetPc(s.(count := if s.count < MAX then s.count + 1 else s.count), t, Returning(Inc, false))
        else if s.count == 0 then s.(aborted := true)
        else if s.count == MAX then SetPc(s.(results := s.results + [false]), t, Returning(Dec, false))
        else SetPc(s.(count := s.count - 1, results := s.results + [s.count == 1]), t, Returning(Dec, s.count == 1))
      case Return(t) =>
        if !th.pc.Returning? then s
        else s.(threads := s.threads[t := Thread(if th.pc.op == Inc then th.held + 1 else th.held, Idle)])
  }

  /** The references a thread accounts for: held, being given up, or just taken. */
  function Weight(th: Thread): nat {
    th.held + (if th.pc == Busy(Dec) || (th.pc.Returning? && th.pc.op == Inc) then 1 else 0)
  }

  function Refs(ts: seq<Thread>): nat {
    if ts == [] then 0 else Weight(ts[0]) + Refs(ts[1..])
  }

  lemma {:induction false} RefsUpdate(ts: seq<Thread>, t: nat, th: Thread)
    requires t < |ts|
    ensures Weight(ts[t]) <= Refs(ts)
    ensures Refs(ts[t := th]) == Refs(ts) - Weight(ts[t]) + Weight(th)
    decreases |ts|
  {
    hide Weight;
    if t == 0 {
      assert ts[0 := th][1..] == ts[1..];
    } else {
      assert ts[t := th][1..] == ts[1..][t - 1 := th];
      RefsUpdate(ts[1..], t - 1, th);
    }
  }

  /** Until it saturates the count is the number of references, and only the last decrement has returned one. */
  ghost predicate Good(s: Counter) {
    && !s.aborted && s.count <= MAX
    && (s.count < MAX ==> s.count == Refs(s.threads))
    && (forall t :: 0 <= t < |s.threads| && s.threads[t].pc == Busy(Inc) ==> s.threads[t].held > 0)
    && (forall i :: 0 <= i < |s.results| && s.results[i] ==> i == |s.results| - 1 && s.count == 0)
    && (s.count == 0 ==> s.results != [] && s.results[|s.results| - 1])
  }

  lemma ActGood(s: Counter, a: Action)
    requires Good(s)
    ensures Good(Act(s, a))
  {
    hide Refs;
    if a.t < |s.threads| {
      RefsUpdate(s.threads, a.t, Act(s, a).threads[a.t]);
      var s' := Act(s, a);
      assert forall t :: 0 <= t < |s.threads| && t != a.t ==> s'.threads[t] == s.threads[t];
    }
  }

  function Exec(s: Counter, actions: seq<Action>): Counter
    decreases |actions|
  {
    if actions == [] then s else Exec(Act(s, actions[0]), actions[1..])
  }

  lemma {:induction false} ExecGood(s: Counter, actions: seq<Action>)
    requires Good(s)
    ensures Good(Exec(s, actions))
    decreases |actions|
  {
    hide Good, Act;
    if actions != [] {
      ActGood(s, actions[0]);
      ExecGood(Act(s, actions[0]), actions[1..]);
    }
  }

  /** Some threads hold references to begin with, and the count says how many. */
  predicate Initial(s: Counter) {
    && 0 < s.count < MAX && s.count == Refs(s.threads) && s.results == [] && !s.aborted
    && forall t :: 0 <= t < |s.threads| ==> s.threads[t].pc == Idle
  }

  /**
   In every interleaving: nothing aborts; a decrement returns one only if it is the last operation of all,
   leaving no references; and while the count has not saturated, one has returned one exactly when no
   references are left.
   */
  lemma OneZeroLast(s: Counter, actions: seq<Action>)
    requires Initial(s)
    ensures var r := Exec(s, actions);
            && !r.aborted
            && (forall i :: 0 <= i < |r.results| && r.results[i] ==> i == |r.results| - 1)
            && (r.count < 0xFFFF_FFFF ==> ((exists i :: 0 <= i < |r.results| && r.results[i]) <==> Refs(r.threads) == 0))
  {
    hide Exec, Refs;
    ExecGood(s, actions);
    var r := Exec(s, actions);
    if r.count == 0 {
      assert r.results[|r.results| - 1];
    }
  }

  /** With no references left, no thread is in a call that has yet to take effect, and none can begin one. */
  lemma NothingAfterZero(s: Counter, a: Action)
    requires Good(s) && s.count == 0
    ensures Act(s, a).results == s.results && Act(s, a).count == 0
  {
    hide Refs;
    if a.t < |s.threads| {
      RefsUpdate(s.threads, a.t, s.threads[a.t]);
    }
  }

  /** Once saturated the count never moves again, and no decrement returns one. */
  lemma {:induction false} SaturatedForever(s: Counter, actions: seq<Action>)
    requires s.count == 0xFFFF_FFFF
    ensures var r := Exec(s, actions);
            && r.count == 0xFFFF_FFFF && s.results <= r.results
            && forall i :: |s.results| <= i < |r.results| ==> !r.results[i]
    decreases |actions|
  {
    if actions != [] {
      SaturatedForever(Act(s, actions[0]), actions[1..]);
    }
  }

  // ---------------------------------------------------------------- compare and exchange

  /** Where a thread is in the compare-exchange loops; `expected` is what it last read. */
  datatype CasPc = CasIdle | IncLoad | IncLoop(expected: nat) | DecLoad | DecLoop(expected: nat) | CasReturn(op: Op, zero: bool)

  datatype CasThread = CasThread(held: nat, pc: CasPc)

  datatype Cas = Cas(count: nat, threads: seq<CasThread>, results: seq<bool>, aborted: bool)

  /** A thread begins a call, or takes one step of it; a weak exchange may fail for no reason. */
  datatype CasAction = CasBegin(t: nat, op: Op) | CasStep(t: nat, spurious: bool)

  function CasSetPc(s: Cas, t: nat, pc: CasPc): Cas
    requires t < |s.threads|
  {
    s.(threads := s.threads[t := s.threads[t].(pc := pc)])
  }

  function CasAct(s: Cas, a: CasAction): Cas {
    if a.t >= |s.threads| then s
    else
      var th := s.threads[a.t];
      match a
      case CasBegin(t, op) =>
        if th.pc != CasIdle || th.held == 0 then s
        else if op == Inc then CasSetPc(s, t, IncLoad)
        else s.(threads := s.threads[t := CasThread(th.held - 1, DecLoad)])
      case CasStep(t, spurious) =>
        match th.pc
        case CasIdle => s
        case IncLoad => CasSetPc(s, t, IncLoop(s.count))
        case IncLoop(e) =>
          if e == MAX then CasSetPc(s, t, CasReturn(Inc, false))
          else if !spurious && s.count == e then CasSetPc(s.(count := e + 1), t, CasReturn(Inc, false))
          else CasSetPc(s, t, IncLoop(s.count))
        case DecLoad => CasSetPc(s, t, DecLoop(s.count))
        case DecLoop(e) =>
          if e == 0 then s.(aborted := true)
          else if e == MAX then CasSetPc(s.(results := s.results + [false]), t, CasReturn(Dec, false))
          else if !spurious && s.count == e then
            CasSetPc(s.(count := e - 1, results := s.results + [e - 1 == 0]), t, CasReturn(Dec, e - 1 == 0))
          else CasSetPc(s, t, DecLoop(s.count))
        case CasReturn(op, zero) =>
          s.(threads := s.threads[t := CasThread(if op == Inc then th.held + 1 else th.held, CasIdle)])
  }

  function CasView(th: CasThread): Thread {
    Thread(th.held, match th.pc
                    case CasIdle => Idle
                    case IncLoad => Busy(Inc)
                    case IncLoop(_) => Busy(Inc)
                    case DecLoad => Busy(Dec)
                    case DecLoop(_) => Busy(Dec)
                    case CasReturn(op, zero) => Returning(op, zero))
  }

  function CasAbs(s: Cas): Counter {
    Counter(s.count, seq(|s.threads|, t requires 0 <= t < |s.threads| => CasView(s.threads[t])), s.results, s.aborted)
  }

  /** A remembered maximum is still there, and a decrement never read a zero. */
  predicate CasOk(s: Cas) {
    forall t :: 0 <= t < |s.threads| ==>
      && (s.threads[t].pc == IncLoop(MAX) || s.threads[t].pc == DecLoop(MAX) ==> s.count == MAX)
      && s.threads[t].pc != DecLoop(0)
  }

  /** What a step of the loop is in terms of the atomic counter: nothing, or one action. */
  function CasMeans(s: Cas, a: CasAction): Option<Action> {
    if a.t >= |s.threads| then None
    else match a
      case CasBegin(t, op) => Some(Begin(t, op))
      case CasStep(t, spurious) =>
        match s.threads[t].pc
        case IncLoop(e) => if e == MAX || (!spurious && s.count == e) then Some(TakeEffect(t)) else None
        case DecLoop(e) => if e == MAX || (!spurious && s.count == e) then Some(TakeEffect(t)) else None
        case CasReturn(_, _) => Some(Return(t))
        case _ => None
  }

  function Done(s: Counter, a: Option<Action>): Counter {
    match a case None => s case Some(b) => Act(s, b)
  }

  /** While a decrement is under way there is a reference to count. */
  lemma CasPositive(s: Cas, t: nat)
    requires Good(CasAbs(s))
    ensures t < |s.threads| && (s.threads[t].pc == DecLoad || s.threads[t].pc.DecLoop?) ==> s.count > 0
    ensures s.count <= MAX
  {
    hide Refs;
    if t < |s.threads| {
      RefsUpdate(CasAbs(s).threads, t, CasAbs(s).threads[t]);
    }
  }

  lemma CasKept(s: Cas, a: CasAction)
    requires CasOk(s) && (a.t < |s.threads| && (s.threads[a.t].pc == DecLoad || s.threads[a.t].pc.DecLoop?) ==> s.count > 0)
    requires s.count <= MAX
    ensures CasOk(CasAct(s, a))
  {
  }

  lemma CasSameThreads(s: Cas, a: CasAction)
    requires CasOk(s) && (a.t < |s.threads| && (s.threads[a.t].pc == DecLoad || s.threads[a.t].pc.DecLoop?) ==> s.count > 0)
    ensures CasAbs(CasAct(s, a)).threads == Done(CasAbs(s), CasMeans(s, a)).threads
  {
    assert |CasAbs(CasAct(s, a)).threads| == |Done(CasAbs(s), CasMeans(s, a)).threads|;
  }

  lemma CasSameCount(s: Cas, a: CasAction)
    requires CasOk(s) && (a.t < |s.threads| && (s.threads[a.t].pc == DecLoad || s.threads[a.t].pc.DecLoop?) ==> s.count > 0)
    requires s.count <= MAX
    ensures var v, v' := CasAbs(CasAct(s, a)), Done(CasAbs(s), CasMeans(s, a));
            v.count == v'.count && v.results == v'.results && v.aborted == v'.aborted
  {
  }

  /** The compare-exchange loops refine the atomic counter, whatever the interleaving and the spurious failures. */
  lemma CasRefines(s: Cas, a: CasAction)
    requires CasOk(s) && Good(CasAbs(s))
    ensures CasOk(CasAct(s, a)) && Good(CasAbs(CasAct(s, a)))
    ensures CasAbs(CasAct(s, a)) == Done(CasAbs(s), CasMeans(s, a))
  {
    hide Good, Refs, CasAct, CasMeans, CasOk, CasView, Act;
    CasPositive(s, a.t);
    CasKept(s, a);
    CasSameThreads(s, a);
    CasSameCount(s, a);
    if CasMeans(s, a).Some? {
      ActGood(CasAbs(s), CasMeans(s, a).value);
    }
  }

  function CasExec(s: Cas, actions: seq<CasAction>): Cas
    decreases |actions|
  {
    if actions == [] then s else CasExec(CasAct(s, actions[0]), actions[1..])
  }

  /** Every run of the loops is a run of the atomic counter. */
  lemma {:induction false} CasRuns(s: Cas, actions: seq<CasAction>) returns (atomic: seq<Action>)
    requires CasOk(s) && Good(CasAbs(s))
    ensures CasAbs(CasExec(s, actions)) == Exec(CasAbs(s), atomic)
    decreases |actions|
  {
    hide Good, CasOk, CasAct, CasMeans, CasAbs, Act;
    if actions == [] {
      atomic := [];
    } else {
      CasRefines(s, actions[0]);
      var rest := CasRuns(CasAct(s, actions[0]), actions[1..]);
      var m := CasMeans(s, actions[0]);
      if m.Some? {
        atomic := [m.value] + rest;
        assert atomic[1..] == rest;
      } else {
        atomic := rest;
      }
    }
  }

  /** All threads are between calls. */
  predicate CasInitial(s: Cas) {
    && Initial(CasAbs(s))
    && forall t :: 0 <= t < |s.threads| ==> s.threads[t].pc == CasIdle
  }

  /** So the loops never abort, and let only the very last decrement return one. */
  lemma CasOneZeroLast(s: Cas, actions: seq<CasAction>)
    requires CasInitial(s)
    ensures var r := CasExec(s, actions);
            && !r.aborted
            && (forall i :: 0 <= i < |r.results| && r.results[i] ==> i == |r.results| - 1)
            && (r.count < MAX ==> ((exists i :: 0 <= i < |r.results| && r.results[i]) <==> Refs(CasAbs(r).threads) == 0))
  {
    hide CasExec, Refs, Exec;
    var atomic := CasRuns(s, actions);
    OneZeroLast(CasAbs(s), atomic);
  }

  /** And once the count has saturated, the loops never let a decrement return one again. */
  lemma CasSaturated(s: Cas, actions: seq<CasAction>)
    requires CasOk(s) && Good(CasAbs(s)) && s.count == MAX
    ensures var r := CasExec(s, actions);
            r.count == MAX && s.results <= r.results && forall i :: |s.results| <= i < |r.results| ==> !r.results[i]
  {
    hide CasExec, Exec, Good, CasOk;
    var atomic := CasRuns(s, actions);
    SaturatedForever(CasAbs(s), atomic);
  }

  // ---------------------------------------------------------------- progress

  /** What a call has come to when it is over: one reference more or less, saturation apart, and the last is told. */
  predicate Counted(op: Op, count: nat, results: seq<bool>, count': nat, results': seq<bool>) {
    match op
    case Inc => count' == (if count == 0xFFFF_FFFF then count else count + 1) && results' == results
    case Dec => count' + 1 == (if count == 0xFFFF_FFFF then count + 1 else count) && results' == results + [count == 1]
  }

  function CasAlone(s: Cas, t: nat, n: nat): Cas
    decreases n
  {
    if n == 0 then s else CasAlone(CasAct(s, CasStep(t, false)), t, n - 1)
  }

  /** The thread's call is over, has counted what it had not counted yet, and no other thread has moved. */
  predicate CasEnds(s: Cas, t: nat, r: Cas)
    requires t < |s.threads|
  {
    var th, pc := s.threads[t], CasView(s.threads[t]).pc;
    && |r.threads| == |s.threads| && (forall u :: 0 <= u < |s.threads| && u != t ==> r.threads[u] == s.threads[u])
    && r.threads[t] == CasThread(th.held + (if pc == Busy(Inc) || (pc.Returning? && pc.op == Inc) then 1 else 0), CasIdle)
    && if pc.Busy? then Counted(pc.op, s.count, s.results, r.count, r.results) else r.count == s.count && r.results == s.results
  }

  /** The steps that are left. */
  function CasLeft(pc: CasPc, count: nat): nat {
    match pc
    case CasIdle => 0
    case CasReturn(_, _) => 1
    case IncLoop(e) => if e == count then 2 else 3
    case DecLoop(e) => if e == count then 2 else 3
    case _ => 3
  }

  lemma CasOneStep(s: Cas, t: nat)
    requires CasOk(s) && Good(CasAbs(s)) && t < |s.threads|
    ensures var s' := CasAct(s, CasStep(t, false));
            && t < |s'.threads|
            && (s.threads[t].pc == CasIdle || CasLeft(s'.threads[t].pc, s'.count) < CasLeft(s.threads[t].pc, s.count))
            && (forall r :: CasEnds(s', t, r) ==> CasEnds(s, t, r))
            && (s.threads[t].pc == CasIdle ==> CasEnds(s, t, s) && s' == s)
  {
    hide Good;
    CasPositive(s, t);
  }

  /**
   Wherever a thread is in its call, three steps end it if nobody else moves meanwhile and no exchange fails for no
   reason: an exchange that is lost to another thread is tried again with what is there now.
   */
  lemma {:induction false} CasFinishes(s: Cas, t: nat, n: nat)
    requires CasOk(s) && Good(CasAbs(s)) && t < |s.threads| && n >= 3
    ensures CasEnds(s, t, CasAlone(s, t, n))
  {
    CasFinishesIn(s, t, n);
  }

  lemma {:induction false} CasFinishesIn(s: Cas, t: nat, n: nat)
    requires CasOk(s) && Good(CasAbs(s)) && t < |s.threads| && n >= CasLeft(s.threads[t].pc, s.count)
    ensures CasEnds(s, t, CasAlone(s, t, n))
    decreases n
  {
    hide Good, CasOk, CasAct, CasEnds, CasAbs;
    CasOneStep(s, t);
    if n > 0 {
      CasRefines(s, CasStep(t, false));
      CasFinishesIn(CasAct(s, CasStep(t, false)), t, n - 1);
    }
  }
}
