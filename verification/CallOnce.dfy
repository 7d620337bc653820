/** One-time initialisation, include/protobuf/absl/base/call_once.h, as a protocol of any number of
    threads over one control word. Every read, compare-exchange, exchange, sleep and wake is one
    step; steps of different threads interleave freely. */
module CallOnce {

  /** The control word: kOnceInit, kOnceRunning, kOnceWaiter, kOnceDone. */
  datatype Word = Init | Running | Waiter | Done

  /** How far a thread is in its call. */
  datatype Pc =
    | Idle           // has not called yet
    | Called         // about to read the control word in call_once
    | FirstTry       // about to compare-exchange Init to Running in CallOnceImpl
    | Spin           // in SpinLockWait, about to read the control word
    | Move(from: Word) // has read `from`, about to apply the transition for it
    | Delay          // has read Waiter, about to wait
    | Asleep         // waits to be woken
    | Chosen         // won the word, about to start the function
    | Inside         // the function runs
    | Leaving        // the function has finished, about to exchange the word for Done
    | Owing          // the word was Waiter, about to wake the waiters
    | Returned

  type Tid = nat

  /** started and finished count the starts and the ends of the function. */
  datatype State = State(word: Word, pc: map<Tid, Pc>, started: nat, finished: nat)

  ghost predicate Start(s: State) {
    s.word == Init && s.started == 0 && s.finished == 0 && forall t :: t in s.pc ==> s.pc[t] == Idle
  }

  /** The table of SpinLockWait transitions: what a word becomes, and whether the wait is then over. */
  function Target(from: Word): Word
    requires from == Init || from == Running
  {
    if from == Init then Running else Waiter
  }

  function Awake(pc: map<Tid, Pc>): map<Tid, Pc> {
    map t | t in pc :: if pc[t] == Asleep then Spin else pc[t]
  }

  /** One step of thread t. */
  ghost predicate Step(s: State, s': State, t: Tid) {
    && t in s.pc
    && var Goto := (p: Pc) => s.(pc := s.pc[t := p]);
    match s.pc[t]
    case Idle => s' == Goto(Called)
    case Called => s' == if s.word == Done then Goto(Returned) else Goto(FirstTry)
    case FirstTry => s' == if s.word == Init then Goto(Chosen).(word := Running) else Goto(Spin)
    case Spin =>
      s' == (match s.word
             case Done => Goto(Returned)
             case Waiter => Goto(Delay)
             case w => Goto(Move(w)))
    case Move(from) =>
      (from == Init || from == Running) &&
      s' == if s.word != from then Goto(Spin)
            else Goto(if from == Init then Chosen else Spin).(word := Target(from))
    case Delay => s' == Goto(Spin) || (s.word == Waiter && s' == Goto(Asleep))
    case Asleep => s' == Goto(Spin) // a wake-up nobody asked for
    case Chosen => s' == Goto(Inside).(started := s.started + 1)
    case Inside => s' == Goto(Leaving).(finished := s.finished + 1)
    case Leaving => s' == Goto(if s.word == Waiter then Owing else Returned).(word := Done)
    case Owing => s' == s.(pc := Awake(s.pc)[t := Returned])
    case Returned => false
  }

  ghost predicate Next(s: State, s': State) {
    exists t :: Step(s, s', t)
  }

  /** A run: any interleaving of any number of steps, from a flag that nobody has used. */
  ghost predicate Run(r: seq<State>) {
    r != [] && Start(r[0]) && forall i :: 0 <= i < |r| - 1 ==> Next(r[i], r[i + 1])
  }

  predicate Holds(p: Pc) {
    p == Chosen || p == Inside || p == Leaving
  }

  ghost predicate Someone(s: State, p: Pc) {
    exists t :: t in s.pc && s.pc[t] == p
  }

  /** What every step keeps. */
  ghost predicate Inv(s: State) {
    && (forall t, u :: t in s.pc && u in s.pc && Holds(s.pc[t]) && Holds(s.pc[u]) ==> t == u)
    && (forall t :: t in s.pc ==> At(s, s.pc[t]))
    && (s.word == Running || s.word == Waiter ==> exists t :: t in s.pc && Holds(s.pc[t]))
    && (forall t, u :: t in s.pc && u in s.pc && s.pc[t] == s.pc[u] == Owing ==> t == u)
    && (s.word == Init ==> s.started == 0 && s.finished == 0)
    && (s.word == Done ==> s.started == 1 && s.finished == 1)
    && (Someone(s, Asleep) ==> s.word == Waiter || Someone(s, Owing))
  }

  /** What the place of a thread says about the state. */
  ghost predicate At(s: State, p: Pc) {
    && (Holds(p) ==>
         && (s.word == Running || s.word == Waiter)
         && s.started == (if p == Chosen then 0 else 1) && s.finished == (if p == Leaving then 1 else 0))
    && (p == Owing || p == Returned ==> s.word == Done)
    && (p.Move? ==> p.from == Init || p.from == Running)
  }

  /** A step changes its own thread, and wakes sleepers when a wake-up was owed. */
  lemma OthersStay(s: State, s': State, t: Tid, u: Tid)
    requires Step(s, s', t) && u in s'.pc && u != t
    ensures u in s.pc && (s'.pc[u] == s.pc[u] || (s.pc[u] == Asleep && s'.pc[u] == Spin))
  {
  }

  lemma NewHolder(s: State, s': State, t: Tid)
    requires Step(s, s', t) && At(s, s.pc[t])
    ensures t in s'.pc && (Holds(s'.pc[t]) ==> Holds(s.pc[t]) || s.word == Init)
    ensures s'.pc[t] == Owing ==> Holds(s.pc[t])
  {
  }

  lemma StepKeepsOneHolder(s: State, s': State, t: Tid)
    requires Inv(s) && Step(s, s', t)
    ensures forall u, v :: u in s'.pc && v in s'.pc && Holds(s'.pc[u]) && Holds(s'.pc[v]) ==> u == v
  {
    assert At(s, s.pc[t]);
    NewHolder(s, s', t);
    forall u | u in s'.pc && Holds(s'.pc[u]) && u != t ensures u in s.pc && Holds(s.pc[u]) && s.word != Init {
      OthersStay(s, s', t, u);
      assert At(s, s.pc[u]);
    }
    hide Someone, Step;
  }

  lemma StepKeepsHolder(s: State, s': State, t: Tid)
    requires Inv(s) && Step(s, s', t) && (s'.word == Running || s'.word == Waiter)
    ensures exists u :: u in s'.pc && Holds(s'.pc[u])
  {
    assert At(s, s.pc[t]);
    if s.word == Init {
      assert Holds(s'.pc[t]);
    } else {
      var u :| u in s.pc && Holds(s.pc[u]);
      assert u in s'.pc && Holds(s'.pc[u]);
    }
  }

  lemma StepKeepsOwing(s: State, s': State, t: Tid)
    requires Inv(s) && Step(s, s', t)
    ensures forall u, v :: u in s'.pc && v in s'.pc && s'.pc[u] == s'.pc[v] == Owing ==> u == v
  {
    assert At(s, s.pc[t]);
    NewHolder(s, s', t);
    forall u | u in s'.pc && s'.pc[u] == Owing && u != t ensures u in s.pc && s.pc[u] == Owing && s.word == Done {
      OthersStay(s, s', t, u);
      assert At(s, s.pc[u]);
    }
    hide Someone;
  }

  lemma StepperAt(s: State, s': State, t: Tid)
    requires Step(s, s', t) && At(s, s.pc[t])
    requires s.word == Init ==> s.started == 0 && s.finished == 0
    ensures t in s'.pc && At(s', s'.pc[t])
  {
  }

  lemma CountsKept(s: State, s': State, t: Tid)
    requires Step(s, s', t) && At(s, s.pc[t])
    requires s.word == Init ==> s.started == 0 && s.finished == 0
    requires s.word == Done ==> s.started == 1 && s.finished == 1
    ensures s'.word == Init ==> s'.started == 0 && s'.finished == 0
    ensures s'.word == Done ==> s'.started == 1 && s'.finished == 1
  {
  }

  lemma OtherAt(s: State, s': State, t: Tid, u: Tid)
    requires Inv(s) && Step(s, s', t) && u in s.pc && u != t
    ensures At(s', s.pc[u])
  {
    hide Someone;
    assert At(s, s.pc[t]) && At(s, s.pc[u]);
  }

  lemma StepKeepsPlaces(s: State, s': State, t: Tid)
    requires Inv(s) && Step(s, s', t)
    ensures forall u :: u in s'.pc ==> At(s', s'.pc[u])
    ensures s'.word == Init ==> s'.started == 0 && s'.finished == 0
    ensures s'.word == Done ==> s'.started == 1 && s'.finished == 1
  {
    assert At(s, s.pc[t]);
    StepperAt(s, s', t);
    CountsKept(s, s', t);
    hide Step, Someone;
    forall u | u in s'.pc ensures At(s', s'.pc[u]) {
      if u != t {
        OthersStay(s, s', t, u);
        OtherAt(s, s', t, u);
      }
    }
  }

  /** No lost wake-up: who sleeps when the word leaves Waiter is owed a wake-up. */
  lemma StepKeepsSleepers(s: State, s': State, t: Tid)
    requires Inv(s) && Step(s, s', t) && Someone(s', Asleep)
    ensures s'.word == Waiter || Someone(s', Owing)
  {
    var u :| u in s'.pc && s'.pc[u] == Asleep;
    if u != t {
      OthersStay(s, s', t, u);
      SleeperOwed(s, s', t);
    }
  }

  lemma SleeperOwed(s: State, s': State, t: Tid)
    requires Step(s, s', t) && Someone(s', Asleep) && (s.word == Waiter || Someone(s, Owing))
    ensures s'.word == Waiter || Someone(s', Owing)
  {
    if s.word == Waiter {
      assert s.pc[t] == Leaving ==> s'.pc[t] == Owing;
    } else {
      var o :| o in s.pc && s.pc[o] == Owing;
      if o != t {
        assert s'.pc[o] == Owing;
      }
    }
  }

  lemma StepKeeps(s: State, s': State, t: Tid)
    requires Inv(s) && Step(s, s', t)
    ensures Inv(s')
  {
    StepKeepsOneHolder(s, s', t);
    if s'.word == Running || s'.word == Waiter {
      StepKeepsHolder(s, s', t);
    }
    StepKeepsOwing(s, s', t);
    StepKeepsPlaces(s, s', t);
    if Someone(s', Asleep) {
      StepKeepsSleepers(s, s', t);
    }
  }

  lemma {:induction false} RunKeeps(r: seq<State>, i: nat)
    requires Run(r) && i < |r|
    ensures Inv(r[i])
    decreases i
  {
    if i > 0 {
      RunKeeps(r, i - 1);
      assert Next(r[i - 1], r[i - 1 + 1]);
      var t :| Step(r[i - 1], r[i], t);
      StepKeeps(r[i - 1], r[i], t);
    }
  }

  /** In every interleaving the function starts at most once, and nobody returns before it is done. */
  lemma AtMostOnce(r: seq<State>, i: nat)
    requires Run(r) && i < |r|
    ensures r[i].finished <= r[i].started <= 1
    ensures Someone(r[i], Returned) ==> r[i].started == r[i].finished == 1
  {
    RunKeeps(r, i);
    var s := r[i];
    if t :| t in s.pc && Holds(s.pc[t]) {
      assert At(s, s.pc[t]);
    }
    if t :| t in s.pc && s.pc[t] == Returned {
      assert At(s, s.pc[t]);
    }
  }

  /** Whoever sleeps will be woken: the word still says so, or the runner has yet to wake. Once the
      word is Done and no wake-up is owed, nobody sleeps. */
  lemma NoLostWakeUp(r: seq<State>, i: nat)
    requires Run(r) && i < |r| && Someone(r[i], Asleep)
    ensures r[i].word == Waiter || Someone(r[i], Owing)
    ensures r[i].word == Waiter ==> exists t :: t in r[i].pc && Holds(r[i].pc[t])
  {
    RunKeeps(r, i);
  }

  /** Thread t has run, or runs, the function, and nobody else does or ever did. */
  ghost predicate Runner(s: State, t: Tid) {
    && t in s.pc && s.word != Init
    && (Holds(s.pc[t]) || s.pc[t] == Owing || s.pc[t] == Returned)
    && (s.pc[t] == Returned ==> s.word == Done)
    && forall u :: u in s.pc && u != t ==> !Holds(s.pc[u]) && s.pc[u] != Owing
  }

  lemma RunnerStays(s: State, s': State, t: Tid, u: Tid)
    requires Inv(s) && Runner(s, t) && Step(s, s', u)
    ensures Runner(s', t)
  {
    assert At(s, s.pc[t]) && At(s, s.pc[u]);
    NewHolder(s, s', u);
    hide Someone, Inv;
    forall v | v in s'.pc && v != t ensures !Holds(s'.pc[v]) && s'.pc[v] != Owing {
      if v != u {
        OthersStay(s, s', u, v);
      }
    }
  }

  lemma HolderRuns(s: State, t: Tid)
    requires Inv(s) && t in s.pc && Holds(s.pc[t])
    ensures Runner(s, t)
  {
    hide Someone;
    assert At(s, s.pc[t]);
    forall u | u in s.pc && u != t ensures !Holds(s.pc[u]) && s.pc[u] != Owing {
      assert At(s, s.pc[u]);
    }
  }

  lemma {:induction false} RunnerRemains(r: seq<State>, i: nat, j: nat, t: Tid)
    requires Run(r) && i <= j < |r| && t in r[i].pc && Holds(r[i].pc[t])
    ensures Runner(r[j], t)
    decreases j
  {
    hide Step, Inv, Start, Runner;
    if i == j {
      RunKeeps(r, i);
      HolderRuns(r[i], t);
    } else {
      RunnerRemains(r, i, j - 1, t);
      RunKeeps(r, j - 1);
      assert Next(r[j - 1], r[j - 1 + 1]);
      var u :| Step(r[j - 1], r[j], u);
      RunnerStays(r[j - 1], r[j], t, u);
    }
  }

  /** Once the thread that ran the function has returned from its call, nobody sleeps any more. */
  lemma {:induction false} NobodyLeftAsleep(r: seq<State>, i: nat, j: nat, t: Tid)
    requires Run(r) && i <= j < |r| && t in r[i].pc && r[i].pc[t] == Inside
    requires t in r[j].pc && r[j].pc[t] == Returned
    ensures !Someone(r[j], Asleep)
  {
    RunKeeps(r, j);
    RunnerRemains(r, i, j, t);
  }

  lemma StepIsFinal(s: State, s': State, t: Tid)
    requires Inv(s) && Step(s, s', t)
    ensures s.word == Done ==> s'.word == Done
    ensures s.pc.Keys == s'.pc.Keys
    ensures forall u :: u in s.pc && s.pc[u] == Returned ==> s'.pc[u] == Returned
  {
    assert At(s, s.pc[t]);
  }

  /** Done is never left, and neither is the end of a call. */
  lemma {:induction false} DoneStays(r: seq<State>, i: nat, j: nat)
    requires Run(r) && i <= j < |r|
    ensures r[i].word == Done ==> r[j].word == Done
    ensures r[i].pc.Keys == r[j].pc.Keys
    ensures forall t :: t in r[i].pc && r[i].pc[t] == Returned ==> r[j].pc[t] == Returned
    decreases j
  {
    hide Step, Inv, Start;
    if i < j {
      DoneStays(r, i, j - 1);
      RunKeeps(r, j - 1);
      assert Next(r[j - 1], r[j - 1 + 1]);
      var t :| Step(r[j - 1], r[j], t);
      StepIsFinal(r[j - 1], r[j], t);
    }
  }

  /** A step a thread can always take by itself, unless it has returned or sleeps. */
  function Advance(s: State, t: Tid): State
    requires t in s.pc && s.pc[t] != Returned && s.pc[t] != Asleep
  {
    var Goto := (p: Pc) => s.(pc := s.pc[t := p]);
    match s.pc[t]
    case Idle => Goto(Called)
    case Called => if s.word == Done then Goto(Returned) else Goto(FirstTry)
    case FirstTry => if s.word == Init then Goto(Chosen).(word := Running) else Goto(Spin)
    case Spin => (match s.word case Done => Goto(Returned) case Waiter => Goto(Delay) case w => Goto(Move(w)))
    case Move(from) =>
      if s.word != from then Goto(Spin)
      else if from == Init then Goto(Chosen).(word := Running)
      else Goto(Spin).(word := Waiter)
    case Delay => Goto(Spin)
    case Chosen => Goto(Inside).(started := s.started + 1)
    case Inside => Goto(Leaving).(finished := s.finished + 1)
    case Leaving => Goto(if s.word == Waiter then Owing else Returned).(word := Done)
    case Owing => s.(pc := Awake(s.pc)[t := Returned])
  }

  lemma AdvanceSteps(s: State, t: Tid)
    requires Inv(s) && t in s.pc && s.pc[t] != Returned && s.pc[t] != Asleep
    ensures Step(s, Advance(s, t), t) && Inv(Advance(s, t))
  {
    assert At(s, s.pc[t]);
    StepKeeps(s, Advance(s, t), t);
  }

  /** The thread whose steps bring thread t closer to its return. */
  ghost predicate Drives(s: State, t: Tid, u: Tid) {
    u in s.pc &&
    if s.word == Init then u == t
    else if s.word != Done then Holds(s.pc[u])
    else if Someone(s, Owing) then s.pc[u] == Owing
    else u == t
  }

  /** How far thread t is from its return: the phase of the flag, and the steps left in it. */
  ghost function Phase(s: State): nat {
    if s.word == Init then 3 else if s.word != Done then 2 else if Someone(s, Owing) then 1 else 0
  }

  function StepsLeft(w: Word, p: Pc): nat {
    match p
    case Idle => 8
    case Called => 7
    case FirstTry => 6
    case Delay => 5
    case Asleep => 6
    case Move(from) => if w == from then 3 else 5
    case Spin => 4
    case Chosen => 3
    case Inside => 2
    case Leaving => 1
    case Owing => 1
    case Returned => 0
  }

  /** Whoever sleeps is not the one to wait for: a runner is there, or it owes the wake-up. */
  lemma DriverAwake(s: State, t: Tid, u: Tid)
    requires Inv(s) && Drives(s, t, u)
    ensures s.pc[u] != Asleep
  {
    OwingIsDone(s);
    assert s.pc[u] == Asleep ==> Someone(s, Asleep);
  }

  lemma OwingIsDone(s: State)
    requires Inv(s)
    ensures Someone(s, Owing) ==> s.word == Done
  {
    if t :| t in s.pc && s.pc[t] == Owing {
      assert At(s, s.pc[t]);
    }
  }

  /** The phase before Done: a step of a driver leaves less to do. */
  lemma AdvanceBefore(s: State, t: Tid, u: Tid)
    requires Inv(s) && t in s.pc && s.pc[t] != Returned && Drives(s, t, u) && s.pc[u] != Returned && s.word != Done
    requires s.pc[u] != Asleep
    ensures Phase(Advance(s, u)) < Phase(s) || (Drives(Advance(s, u), t, u) && Phase(Advance(s, u)) == Phase(s))
    ensures Phase(Advance(s, u)) == Phase(s) ==>
      StepsLeft(Advance(s, u).word, Advance(s, u).pc[u]) < StepsLeft(s.word, s.pc[u])
  {
    assert At(s, s.pc[u]);
  }

  lemma AdvanceAfter(s: State, t: Tid, u: Tid)
    requires Inv(s) && t in s.pc && s.pc[t] != Returned && Drives(s, t, u) && s.pc[u] != Returned && s.word == Done
    requires s.pc[u] != Asleep
    ensures Phase(Advance(s, u)) < Phase(s) || (Drives(Advance(s, u), t, u) && Phase(Advance(s, u)) == Phase(s))
    ensures Phase(Advance(s, u)) == Phase(s) ==>
      StepsLeft(Advance(s, u).word, Advance(s, u).pc[u]) < StepsLeft(s.word, s.pc[u])
  {
    assert At(s, s.pc[u]);
  }

  lemma FindDriver(s: State, t: Tid) returns (u: Tid)
    requires Inv(s) && t in s.pc && s.pc[t] != Returned
    ensures Drives(s, t, u) && s.pc[u] != Returned
  {
    if s.word == Init {
      u := t;
    } else if s.word != Done {
      u :| u in s.pc && Holds(s.pc[u]);
    } else if Someone(s, Owing) {
      u :| u in s.pc && s.pc[u] == Owing;
    } else {
      u := t;
    }
  }

  /** A step of a thread that is awake. */
  ghost predicate AwakeNext(s: State, s': State) {
    exists t :: Step(s, s', t) && s.pc[t] != Asleep
  }

  /** A continuation in which nobody wakes up unasked: a sleeper goes on only when a runner wakes it. */
  ghost predicate Path(r: seq<State>) {
    r != [] && forall i :: 0 <= i < |r| - 1 ==> AwakeNext(r[i], r[i + 1])
  }

  /** From every state of a run every caller can still return, a sleeper by being woken. */
  lemma {:induction false} CanReturn(s: State, t: Tid, u: Tid) returns (r: seq<State>)
    requires Inv(s) && t in s.pc && (s.pc[t] != Returned ==> Drives(s, t, u) && s.pc[u] != Returned)
    ensures Path(r) && r[0] == s && t in r[|r| - 1].pc && r[|r| - 1].pc[t] == Returned
    decreases Phase(s), if u in s.pc then StepsLeft(s.word, s.pc[u]) else 0
  {
    if s.pc[t] == Returned {
      return [s];
    }
    DriverAwake(s, t, u);
    hide Step, Inv, Advance, AwakeNext;
    var s' := Advance(s, u);
    AdvanceSteps(s, u);
    if s.word == Done { AdvanceAfter(s, t, u); } else { AdvanceBefore(s, t, u); }
    var v := u;
    if s'.pc[t] != Returned && !(Drives(s', t, u) && s'.pc[u] != Returned) {
      v := FindDriver(s', t);
    }
    var rest := CanReturn(s', t, v);
    r := [s] + rest;
    PathFrom(s, rest, u);
  }

  lemma PathFrom(s: State, rest: seq<State>, u: Tid)
    requires Path(rest) && Step(s, rest[0], u) && s.pc[u] != Asleep
    ensures Path([s] + rest)
  {
    hide Step;
    var r := [s] + rest;
    forall i | 0 <= i < |r| - 1 ensures AwakeNext(r[i], r[i + 1]) {
      if i > 0 {
        assert r[i] == rest[i - 1] && r[i + 1] == rest[i - 1 + 1];
      }
    }
  }

  lemma EveryCallerCanReturn(r: seq<State>, i: nat, t: Tid) returns (p: seq<State>)
    requires Run(r) && i < |r| && t in r[i].pc
    ensures Path(p) && p[0] == r[i] && t in p[|p| - 1].pc && p[|p| - 1].pc[t] == Returned
  {
    RunKeeps(r, i);
    var u := t;
    if r[i].pc[t] != Returned {
      u := FindDriver(r[i], t);
    }
    p := CanReturn(r[i], t, u);
  }
}
