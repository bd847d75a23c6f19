/** The monitor thread and the calls that start and stop it (MySQLQueryMonitor/MySQLQueryThread.cpp).
    `gbRun` and `gbStop` are shared without a lock; each read or write of one is a step of its own, and
    the steps of the controlling thread and of every worker interleave freely. */
module QueryMonitor {
  import opened Bytes

  /** Where a worker thread stands: the action it performs next. `start` and `end` are the tick counts around the query
      and its message, `left` counts the remaining sleeps. */
  datatype Worker =
    | Spawned              // gbRun = true
    | Setup                // read the configuration, connect
    | SendError            // SendMessage of a setup or connect error
    | Test                 // while( gbStop == false )
    | Query(start: nat)              // the query and the list insert
    | SendRefresh(start: nat)        // SendMessage( PARAM_REFRESH )
    | Measure(start: nat, end: nat)  // compute iSleepSecond
    | For(left: int)       // i < iSleepSecond
    | Sleeping(left: int)  // Sleep( 1000 )
    | Check(left: int)     // if( gbStop ) break
    | Close                // clsDB.Close()
    | Leave                // mysql_thread_end, mysql_library_end
    | ClearRun             // gbRun = false
    | Exited

  /** Where the controlling thread stands. */
  datatype Controller =
    | Idle
    | StartTest   // if( gbRun ) return true
    | StartSpawn  // StartThread
    | StopTest    // if( gbRun )
    | StopSet     // gbStop = true
    | StopWait    // while( gbRun )
    | StopClear   // gbStop = false

  /** `period` is the monitor period of the setup file. */
  datatype State = State(run: bool, stop: bool, workers: seq<Worker>, ctrl: Controller, period: int)

  datatype Label = Control | Thread(index: nat)

  predicate Init(s: State) {
    s.run == s.stop == false && s.workers == [] && s.ctrl == Idle
  }

  function ToInt(v: int): int {
    var u := v % U32;
    if u < 0x8000_0000 then u else u - U32
  }

  /** `iSleepSecond`: int minus DWORD is unsigned, then converted back to int. */
  function SleepSeconds(period: int, start: nat, end: nat): int {
    ToInt(period - ((end - start) % U32) / 1000)
  }

  predicate WorkerMove(w: Worker, stop: bool, period: int, w': Worker) {
    match w
    case Spawned => w' == Setup
    case Setup => w' == SendError || w' == Test
    case SendError => w' == Leave
    case Test => if stop then w' == Close else w'.Query?
    case Query(start) => w' == SendRefresh(start)
    case SendRefresh(start) => w'.Measure? && w'.start == start
    case Measure(start, end) => w' == For(SleepSeconds(period, start, end))
    case For(n) => w' == if n > 0 then Sleeping(n) else Test
    case Sleeping(n) => w' == Check(n)
    case Check(n) => w' == if stop then Test else For(n - 1)
    case Close => w' == Leave
    case Leave => w' == ClearRun
    case ClearRun => w' == Exited
    case Exited => false
  }

  predicate Sends(w: Worker) {
    w.SendError? || w.SendRefresh?
  }

  /** `windowThread`: the controller is the thread that owns the window, so a SendMessage returns only while
      it is not inside Start or Stop. Otherwise window calls simply return. */
  predicate ThreadStep(s: State, i: nat, s': State, windowThread: bool) {
    && i < |s.workers|
    && (windowThread && Sends(s.workers[i]) ==> s.ctrl == Idle)
    && |s'.workers| == |s.workers|
    && WorkerMove(s.workers[i], s.stop, s.period, s'.workers[i])
    && (s'.period == s.period || s.workers[i].Setup?)
    && s' == s.(workers := s.workers[i := s'.workers[i]], period := s'.period,
                run := if s.workers[i].Spawned? then true else if s.workers[i].ClearRun? then false else s.run)
  }

  predicate ControlStep(s: State, s': State) {
    match s.ctrl
    case Idle => s' == s.(ctrl := StartTest) || s' == s.(ctrl := StopTest)
    case StartTest => s' == s.(ctrl := if s.run then Idle else StartSpawn)
    case StartSpawn => s' == s.(ctrl := Idle) || s' == s.(ctrl := Idle, workers := s.workers + [Spawned])
    case StopTest => s' == s.(ctrl := if s.run then StopSet else Idle)
    case StopSet => s' == s.(ctrl := StopWait, stop := true)
    case StopWait => s' == s.(ctrl := if s.run then StopWait else StopClear)
    case StopClear => s' == s.(ctrl := Idle, stop := false)
  }

  predicate Step(s: State, l: Label, s': State, windowThread: bool) {
    match l
    case Control => ControlStep(s, s')
    case Thread(i) => ThreadStep(s, i, s', windowThread)
  }

  /** Start and Stop are not called between a spawn and the worker's first step. */
  predicate Prompt(s: State, l: Label) {
    l == Control && s.ctrl == Idle ==> Spawned !in s.workers
  }

  /** A run: `states[k + 1]` follows `states[k]` by `labels[k]`. */
  predicate Run(states: seq<State>, labels: seq<Label>, windowThread: bool) {
    && |states| == |labels| + 1
    && forall k | 0 <= k < |labels| :: Step(states[k], labels[k], states[k + 1], windowThread)
  }

  predicate PromptRun(states: seq<State>, labels: seq<Label>, windowThread: bool) {
    && Run(states, labels, windowThread)
    && forall k | 0 <= k < |labels| :: Prompt(states[k], labels[k])
  }

  /** Some run, a prompt one if asked for, leads from `s` to `t`. */
  ghost predicate Reaches(s: State, t: State, windowThread: bool, prompt: bool) {
    exists states, labels :: Connects(states, labels, s, t, windowThread, prompt)
  }

  predicate Connects(states: seq<State>, labels: seq<Label>, s: State, t: State, windowThread: bool, prompt: bool) {
    && Run(states, labels, windowThread)
    && (prompt ==> PromptRun(states, labels, windowThread))
    && states[0] == s && states[|labels|] == t
  }

  lemma ReachesItself(s: State, windowThread: bool)
    ensures Reaches(s, s, windowThread, true)
  {
    assert Connects([s], [], s, s, windowThread, true);
  }

  lemma ReachStep(s: State, t: State, l: Label, t': State, windowThread: bool, prompt: bool)
    requires Reaches(s, t, windowThread, prompt)
    requires Step(t, l, t', windowThread) && (prompt ==> Prompt(t, l))
    ensures Reaches(s, t', windowThread, prompt)
  {
    var states, labels :| Connects(states, labels, s, t, windowThread, prompt);
    hide Step, Prompt;
    var longer, more := states + [t'], labels + [l];
    forall k | 0 <= k < |more| ensures Step(longer[k], more[k], longer[k + 1], windowThread)
                               ensures prompt ==> Prompt(longer[k], more[k])
    {
      if k < |labels| {
        assert Step(states[k], labels[k], states[k + 1], windowThread);
      }
    }
    assert Connects(longer, more, s, t', windowThread, prompt);
  }

  // ----- Safety over every interleaving --------------------------------------------------------

  predicate AtMostOneLive(ws: seq<Worker>) {
    forall i, j | 0 <= i < j < |ws| :: ws[i].Exited? || ws[j].Exited?
  }

  predicate NoneLive(ws: seq<Worker>) {
    forall i | 0 <= i < |ws| :: ws[i].Exited?
  }

  /** Between its first write of `gbRun` and its last. */
  predicate Active(w: Worker) {
    !w.Spawned? && !w.Exited?
  }

  predicate SomeActive(ws: seq<Worker>) {
    exists i :: 0 <= i < |ws| && Active(ws[i])
  }

  predicate Safe(s: State) {
    && AtMostOneLive(s.workers)
    && (s.run <==> SomeActive(s.workers))
    && (s.stop <==> s.ctrl == StopWait || s.ctrl == StopClear)
    && (s.ctrl == StartSpawn || s.ctrl == StopClear ==> NoneLive(s.workers))
    && (s.ctrl != Idle ==> Spawned !in s.workers)
  }

  lemma ThreadStepKeepsSafe(s: State, i: nat, s': State, windowThread: bool)
    requires Safe(s) && ThreadStep(s, i, s', windowThread)
    ensures Safe(s')
  {
    var w, w' := s.workers[i], s'.workers[i];
    assert forall j | 0 <= j < |s.workers| && j != i :: s.workers[j].Exited? && s'.workers[j] == s.workers[j];
    assert w'.Exited? || (Active(w') && SomeActive(s'.workers));
    assert s.ctrl != Idle ==> w in s.workers && !w.Spawned?;
  }

  lemma ControlStepKeepsSafe(s: State, s': State)
    requires Safe(s) && ControlStep(s, s') && Prompt(s, Control)
    ensures Safe(s')
  {
    if s.ctrl == StartTest || s.ctrl == StopWait {
      if !s.run {
        assert forall i | 0 <= i < |s.workers| :: s.workers[i] in s.workers && !Active(s.workers[i]);
        assert NoneLive(s.workers);
      }
    } else if s.ctrl == StartSpawn && s'.workers != s.workers {
      assert forall i | 0 <= i < |s'.workers| - 1 :: s'.workers[i] == s.workers[i];
    }
  }

  lemma StepKeepsSafe(s: State, l: Label, s': State, windowThread: bool)
    requires Safe(s) && Step(s, l, s', windowThread) && Prompt(s, l)
    ensures Safe(s')
  {
    match l
    case Control => ControlStepKeepsSafe(s, s');
    case Thread(i) => ThreadStepKeepsSafe(s, i, s', windowThread);
  }

  /** Every state of every run keeps the flags and the workers in step. */
  lemma {:induction false} RunsAreSafe(states: seq<State>, labels: seq<Label>, windowThread: bool)
    requires PromptRun(states, labels, windowThread) && Init(states[0])
    ensures forall k | 0 <= k < |states| :: Safe(states[k])
    decreases |labels|
  {
    if labels != [] {
      var n := |labels| - 1;
      hide Safe, Step, Prompt;
      RunsAreSafe(states[..n + 1], labels[..n], windowThread);
      assert forall k | 0 <= k < n + 1 :: states[k] == states[..n + 1][k];
      StepKeepsSafe(states[n], labels[n], states[n + 1], windowThread);
    }
  }

  /** The wait of a Stop ends exactly when every worker has made its last write; both flags are then false. */
  lemma StopReturnsClean(s: State, s': State)
    requires Safe(s) && ControlStep(s, s')
    ensures s.ctrl == StopClear ==> s'.ctrl == Idle && !s'.run && !s'.stop && NoneLive(s'.workers)
    ensures s.ctrl == StopWait ==> (s'.ctrl == StopClear <==> NoneLive(s.workers))
  {
    if s.ctrl == StopWait && !s.run {
      assert forall i | 0 <= i < |s.workers| :: s.workers[i] in s.workers && !Active(s.workers[i]);
    }
  }

  // ----- Calls made too early ------------------------------------------------------------------

  /** A Start or Stop call run to its next wait or return without interruption. */
  function StartAlone(s: State): State {
    if s.run then s else s.(workers := s.workers + [Spawned])
  }

  function StopAlone(s: State): State {
    if s.run then s.(stop := true, ctrl := StopWait) else s
  }

  lemma AloneIsARun(s: State, windowThread: bool)
    requires s.ctrl == Idle
    ensures Reaches(s, StartAlone(s), windowThread, false)
    ensures Reaches(s, StopAlone(s), windowThread, false)
  {
    ReachesItself(s, windowThread);
    var a, b := s.(ctrl := StartTest), s.(ctrl := StopTest);
    hide Reaches;
    assert Reaches(s, s, windowThread, false) by {
      NotOnlyPrompt(s, s, windowThread);
    }
    ReachStep(s, s, Control, a, windowThread, false);
    ReachStep(s, s, Control, b, windowThread, false);
    if s.run {
      ReachStep(s, a, Control, s, windowThread, false);
      ReachStep(s, b, Control, s.(ctrl := StopSet), windowThread, false);
      ReachStep(s, s.(ctrl := StopSet), Control, StopAlone(s), windowThread, false);
    } else {
      ReachStep(s, a, Control, s.(ctrl := StartSpawn), windowThread, false);
      ReachStep(s, s.(ctrl := StartSpawn), Control, StartAlone(s), windowThread, false);
    }
  }

  lemma NotOnlyPrompt(s: State, t: State, windowThread: bool)
    requires Reaches(s, t, windowThread, true)
    ensures Reaches(s, t, windowThread, false)
  {
    var states, labels :| Connects(states, labels, s, t, windowThread, true);
    assert Connects(states, labels, s, t, windowThread, false);
  }

  /** Two Starts in a row make two live workers. */
  lemma TwoWorkersExample(windowThread: bool)
    ensures var init, two := State(false, false, [], Idle, 0), State(false, false, [Spawned, Spawned], Idle, 0);
            Init(init) && Reaches(init, two, windowThread, false) && !AtMostOneLive(two.workers)
  {
    var init := State(false, false, [], Idle, 0);
    AloneIsARun(init, windowThread);
    var one := StartAlone(init);
    AloneIsARun(one, windowThread);
    Concatenate(init, one, StartAlone(one), windowThread);
    var two := StartAlone(one);
    assert two.workers == [Spawned, Spawned] && !two.workers[0].Exited? && !two.workers[1].Exited?;
  }

  lemma Concatenate(s: State, t: State, u: State, windowThread: bool)
    requires Reaches(s, t, windowThread, false) && Reaches(t, u, windowThread, false)
    ensures Reaches(s, u, windowThread, false)
  {
    var a, la :| Connects(a, la, s, t, windowThread, false);
    var b, lb :| Connects(b, lb, t, u, windowThread, false);
    hide Step;
    var states, labels := a + b[1..], la + lb;
    forall k | 0 <= k < |labels| ensures Step(states[k], labels[k], states[k + 1], windowThread) {
      if k < |la| {
        assert Step(a[k], la[k], a[k + 1], windowThread);
      } else {
        assert Step(b[k - |la|], lb[k - |la|], b[k - |la| + 1], windowThread);
      }
    }
    assert Connects(states, labels, s, u, windowThread, false);
  }

  /** Without `Prompt` the guarantees fail, and only there: a Start yields two live workers, and a Stop leaves
      a live worker untouched, exactly when the last worker has not made its first step. */
  lemma EarlyCalls(s: State)
    requires Safe(s) && s.ctrl == Idle
    ensures !AtMostOneLive(StartAlone(s).workers) <==> Spawned in s.workers
    ensures StopAlone(s) == s && !NoneLive(s.workers) <==> Spawned in s.workers
  {
    if Spawned in s.workers {
      var i :| 0 <= i < |s.workers| && s.workers[i] == Spawned;
      assert forall j | 0 <= j < |s.workers| && j != i :: s.workers[j].Exited?;
      assert !SomeActive(s.workers);
      assert StartAlone(s).workers[i] == Spawned && StartAlone(s).workers[|s.workers|] == Spawned;
    } else {
      assert forall i | 0 <= i < |s.workers| :: s.workers[i] in s.workers;
      if !s.run {
        assert forall i | 0 <= i < |s.workers| :: !Active(s.workers[i]);
      }
    }
  }

  // ----- Shutdown ------------------------------------------------------------------------------

  /** Steps a worker can still make once `gbStop` is true, whatever the sleep count. */
  function Rank(w: Worker): nat {
    match w
    case Spawned => 12
    case Setup => 11
    case Query(_) => 10
    case SendRefresh(_) => 9
    case Measure(_, _) => 8
    case For(_) => 7
    case Sleeping(_) => 6
    case Check(_) => 5
    case Test => 4
    case SendError => 3
    case Close => 3
    case Leave => 2
    case ClearRun => 1
    case Exited => 0
  }

  function Queries(w: Worker): nat {
    if w.Query? then 1 else 0
  }

  function Sleeps(w: Worker): nat {
    if w.Sleeping? then 1 else 0
  }

  function SleepsLeft(w: Worker): nat {
    if w.Query? || w.SendRefresh? || w.Measure? || w.For? || w.Sleeping? then 1 else 0
  }

  /** How often worker `i` moved during a run, and how often the move was a query or a sleep. */
  function Moves(states: seq<State>, labels: seq<Label>, i: nat, weight: Worker -> nat): nat
    requires |states| == |labels| + 1
    requires forall k | 0 <= k < |states| :: i < |states[k].workers|
  {
    if labels == [] then 0
    else
      var n := |labels| - 1;
      assert forall k | 0 <= k < n + 1 :: states[..n + 1][k] == states[k];
      Moves(states[..n + 1], labels[..n], i, weight)
      + (if labels[n] == Thread(i) then weight(states[n].workers[i]) else 0)
  }

  lemma StoppingStep(s: State, l: Label, s': State, i: nat, windowThread: bool)
    requires Step(s, l, s', windowThread) && s.stop && i < |s.workers| && i < |s'.workers|
    ensures var w, w' := s.workers[i], s'.workers[i];
            if l == Thread(i)
            then Rank(w') < Rank(w) && Queries(w') == 0 && SleepsLeft(w') + Sleeps(w) <= SleepsLeft(w)
            else w' == w
  {
  }

  /** While `gbStop` is true a worker moves at most twelve times, makes at most one more query and at most one
      more one-second sleep, from any position and in any interleaving. */
  lemma {:induction false} ShutdownIsBounded(states: seq<State>, labels: seq<Label>, i: nat, windowThread: bool)
    requires Run(states, labels, windowThread)
    requires forall k | 0 <= k < |states| :: states[k].stop && i < |states[k].workers|
    ensures var first, last := states[0].workers[i], states[|labels|].workers[i];
            && Moves(states, labels, i, w => 1) + Rank(last) <= Rank(first) <= 12
            && Moves(states, labels, i, Queries) + Queries(last) <= Queries(first) <= 1
            && Moves(states, labels, i, Sleeps) + SleepsLeft(last) <= SleepsLeft(first) <= 1
    decreases |labels|
  {
    if labels != [] {
      var n := |labels| - 1;
      assert forall k | 0 <= k < n + 1 :: states[..n + 1][k] == states[k];
      ShutdownIsBounded(states[..n + 1], labels[..n], i, windowThread);
      StoppingStep(states[n], labels[n], states[n + 1], i, windowThread);
    }
  }

  /** A move the worker can make; while stopping, the one that leads to its exit. */
  function NextMove(w: Worker, stop: bool, period: int): Worker {
    match w
    case Spawned => Setup
    case Setup => Test
    case SendError => Leave
    case Test => if stop then Close else Query(0)
    case Query(start) => SendRefresh(start)
    case SendRefresh(start) => Measure(start, start)
    case Measure(start, end) => For(SleepSeconds(period, start, end))
    case For(n) => if n > 0 then Sleeping(n) else Test
    case Sleeping(n) => Check(n)
    case Check(n) => if stop then Test else For(n - 1)
    case Close => Leave
    case Leave => ClearRun
    case ClearRun => Exited
    case Exited => Exited
  }

  lemma LiveWorkerCanMove(w: Worker, stop: bool, period: int)
    ensures !w.Exited? <==> exists w' :: WorkerMove(w, stop, period, w')
  {
    assert !w.Exited? ==> WorkerMove(w, stop, period, NextMove(w, stop, period));
  }

  function TotalRank(ws: seq<Worker>): nat {
    if ws == [] then 0 else Rank(ws[0]) + TotalRank(ws[1..])
  }

  lemma {:induction false} TotalRankUpdate(ws: seq<Worker>, i: nat, w: Worker)
    requires i < |ws|
    ensures TotalRank(ws[i := w]) == TotalRank(ws) - Rank(ws[i]) + Rank(w)
  {
    if i > 0 {
      assert ws[i := w][1..] == ws[1..][i - 1 := w];
      TotalRankUpdate(ws[1..], i - 1, w);
    } else {
      assert ws[i := w][1..] == ws[1..];
    }
  }

  lemma {:induction false} TotalRankOfOne(ws: seq<Worker>)
    requires AtMostOneLive(ws)
    ensures TotalRank(ws) <= 12
    ensures TotalRank(ws) == 0 <==> NoneLive(ws)
  {
    if ws != [] {
      TotalRankOfOne(ws[1..]);
      if !ws[0].Exited? {
        assert forall j | 0 <= j < |ws| - 1 :: ws[1..][j] == ws[j + 1] && ws[j + 1].Exited?;
      } else {
        assert NoneLive(ws) <==> NoneLive(ws[1..]) by {
          assert forall j | 0 <= j < |ws| - 1 :: ws[1..][j] == ws[j + 1];
          if NoneLive(ws[1..]) {
            assert forall j | 1 <= j < |ws| :: ws[j] == ws[1..][j - 1];
          }
        }
      }
    }
  }

  function ThreadMoves(labels: seq<Label>): nat {
    if labels == [] then 0 else ThreadMoves(labels[..|labels| - 1]) + (if labels[|labels| - 1].Thread? then 1 else 0)
  }

  lemma {:induction false} WaitIsBounded(states: seq<State>, labels: seq<Label>, windowThread: bool)
    requires Run(states, labels, windowThread)
    requires forall k | 0 <= k < |states| :: states[k].ctrl == StopWait && states[k].stop
    ensures ThreadMoves(labels) + TotalRank(states[|labels|].workers) <= TotalRank(states[0].workers)
    decreases |labels|
  {
    if labels != [] {
      var n := |labels| - 1;
      assert forall k | 0 <= k < n + 1 :: states[..n + 1][k] == states[k];
      WaitIsBounded(states[..n + 1], labels[..n], windowThread);
      assert Step(states[n], labels[n], states[n + 1], windowThread);
      match labels[n]
      case Control =>
      case Thread(i) =>
        StoppingStep(states[n], labels[n], states[n + 1], i, windowThread);
        TotalRankUpdate(states[n].workers, i, states[n + 1].workers[i]);
    }
  }

  /** In any prompt run, from any point of a Stop's wait: the workers make at most twelve moves in all; the wait is
      over at the controller's next look exactly when none of these moves is left; and while one is left, and window
      calls return, a worker can make it. */
  lemma StopEnds(states: seq<State>, labels: seq<Label>, from: nat, to: nat, windowThread: bool)
    requires PromptRun(states, labels, windowThread) && Init(states[0])
    requires from <= to <= |labels| && forall k | from <= k <= to :: states[k].ctrl == StopWait
    ensures var first, last := states[from], states[to];
            && ThreadMoves(labels[from..to]) + TotalRank(last.workers) <= TotalRank(first.workers) <= 12
            && (forall s' | ControlStep(last, s') :: s'.ctrl == StopClear <==> TotalRank(last.workers) == 0)
            && (TotalRank(last.workers) > 0 && !windowThread ==>
                  exists i, s' :: ThreadStep(last, i, s', windowThread))
  {
    RunsAreSafe(states, labels, windowThread);
    SegmentIsBounded(states, labels, from, to, windowThread);
    TotalRankOfOne(states[from].workers);
    TotalRankOfOne(states[to].workers);
    hide TotalRank, ThreadMoves, Run, Step, ThreadStep;
    forall s' | ControlStep(states[to], s') {
      StopReturnsClean(states[to], s');
    }
    if !NoneLive(states[to].workers) && !windowThread {
      var i: nat :| i < |states[to].workers| && !states[to].workers[i].Exited?;
      WorkerCanStep(states[to], i, windowThread);
    }
  }

  lemma SegmentIsBounded(states: seq<State>, labels: seq<Label>, from: nat, to: nat, windowThread: bool)
    requires Run(states, labels, windowThread) && forall k | 0 <= k < |states| :: Safe(states[k])
    requires from <= to <= |labels| && forall k | from <= k <= to :: states[k].ctrl == StopWait
    ensures ThreadMoves(labels[from..to]) + TotalRank(states[to].workers) <= TotalRank(states[from].workers)
  {
    var part, steps := states[from..to + 1], labels[from..to];
    hide Step;
    forall k | 0 <= k < |steps| ensures Step(part[k], steps[k], part[k + 1], windowThread) {
      assert Step(states[from + k], labels[from + k], states[from + k + 1], windowThread);
    }
    forall k | 0 <= k < |part| ensures part[k].ctrl == StopWait && part[k].stop {
      assert part[k] == states[from + k] && Safe(states[from + k]);
    }
    WaitIsBounded(part, steps, windowThread);
  }

  /** The state after worker `i` makes its next move. */
  function Advance(s: State, i: nat): State
    requires i < |s.workers|
  {
    var w := s.workers[i];
    s.(workers := s.workers[i := NextMove(w, s.stop, s.period)],
       run := if w.Spawned? then true else if w.ClearRun? then false else s.run)
  }

  lemma WorkerCanStep(s: State, i: nat, windowThread: bool)
    requires i < |s.workers| && !s.workers[i].Exited? && (windowThread && Sends(s.workers[i]) ==> s.ctrl == Idle)
    ensures ThreadStep(s, i, Advance(s, i), windowThread)
  {
  }

  // ----- Stop on the window's own thread -------------------------------------------------------

  /** The dialog calls Stop on the window's own thread. A worker that must still send then never gets past the
      send, and the Stop never returns, in any continuation. */
  lemma {:induction false} WindowThreadStopHangs(states: seq<State>, labels: seq<Label>, i: nat)
    requires Run(states, labels, true) && Safe(states[0])
    requires states[0].ctrl == StopWait && i < |states[0].workers|
    requires states[0].workers[i].Query? || Sends(states[0].workers[i])
    ensures forall k | 0 <= k < |states| :: states[k].ctrl == StopWait && Safe(states[k])
    ensures i < |states[|labels|].workers|
    ensures states[|labels|].workers[i].Query? || Sends(states[|labels|].workers[i])
    decreases |labels|
  {
    if labels != [] {
      var n := |labels| - 1;
      WindowThreadStopHangs(states[..n + 1], labels[..n], i);
      assert states[..n + 1][n] == states[n];
      assert forall k | 0 <= k < n + 1 :: states[k] == states[..n + 1][k];
      assert Step(states[n], labels[n], states[n + 1], true);
      match labels[n]
      case Control =>
        assert Active(states[n].workers[i]);
        ControlStepKeepsSafe(states[n], states[n + 1]);
      case Thread(j) =>
        ThreadStepKeepsSafe(states[n], j, states[n + 1], true);
    }
  }

  /** A worker that will send before it leaves. */
  predicate Doomed(w: Worker) {
    w.Query? || Sends(w)
  }

  predicate Returned(s: State) {
    s.ctrl == Idle && !s.run && !s.stop
  }

  /** Draining the only live worker and letting the controller look again. */
  lemma {:induction false} Drain(s: State, i: nat)
    requires Safe(s) && s.ctrl == StopWait
    requires i < |s.workers| && forall j | 0 <= j < |s.workers| && j != i :: s.workers[j].Exited?
    requires !Doomed(s.workers[i])
    ensures exists t :: Returned(t) && Reaches(s, t, true, false)
    decreases Rank(s.workers[i])
  {
    if s.workers[i].Exited? {
      NoWorkerLeft(s);
    } else {
      var s' := Advance(s, i);
      assert s.workers[i] in s.workers;
      WorkerCanStep(s, i, true);
      ThreadStepKeepsSafe(s, i, s', true);
      Drain(s', i);
      var t :| Returned(t) && Reaches(s', t, true, false);
      OneStep(s, Thread(i), s', true);
      Concatenate(s, s', t, true);
    }
  }

  lemma OneStep(s: State, l: Label, s': State, windowThread: bool)
    requires Step(s, l, s', windowThread)
    ensures Reaches(s, s', windowThread, false)
  {
    ReachesItself(s, windowThread);
    NotOnlyPrompt(s, s, windowThread);
    ReachStep(s, s, l, s', windowThread, false);
  }

  lemma NoWorkerLeft(s: State)
    requires Safe(s) && s.ctrl == StopWait && NoneLive(s.workers)
    ensures exists t :: Returned(t) && Reaches(s, t, true, false)
  {
    var c := s.(ctrl := StopClear);
    var t := c.(ctrl := Idle, stop := false);
    assert !s.run;
    OneStep(s, Control, c, true);
    OneStep(c, Control, t, true);
    Concatenate(s, c, t, true);
    assert Returned(t);
  }

  /** A Stop called on the window's own thread can return, with both flags false, exactly when no worker is at its
      query or at a SendMessage. */
  lemma WindowThreadStopReturns(s: State)
    requires Safe(s) && s.ctrl == StopWait
    ensures (exists t :: Returned(t) && Reaches(s, t, true, false)) <==> forall w | w in s.workers :: !Doomed(w)
  {
    if w :| w in s.workers && Doomed(w) {
      var i: nat :| i < |s.workers| && s.workers[i] == w;
      forall t | Reaches(s, t, true, false) ensures !Returned(t) {
        var states, labels :| Connects(states, labels, s, t, true, false);
        WindowThreadStopHangs(states, labels, i);
      }
    } else if NoneLive(s.workers) {
      NoWorkerLeft(s);
    } else {
      var i: nat :| i < |s.workers| && !s.workers[i].Exited?;
      assert s.workers[i] in s.workers;
      Drain(s, i);
    }
  }

  /** A worker past its sends needs the window no more. */
  predicate PastSends(w: Worker) {
    !w.Spawned? && !w.Setup? && !w.Query? && !Sends(w)
  }

  ghost predicate CanMove(s: State, i: nat) {
    exists s' :: ThreadStep(s, i, s', true)
  }

  /** Worker `i` is out, or on its way out while the Stop waits. */
  predicate OnItsWay(s: State, i: nat) {
    i < |s.workers| && (s.workers[i].Exited? || (Safe(s) && s.ctrl == StopWait && PastSends(s.workers[i])))
  }

  lemma StepKeepsOnItsWay(s: State, l: Label, s': State, i: nat)
    requires OnItsWay(s, i) && Step(s, l, s', true)
    ensures OnItsWay(s', i)
    ensures if l == Thread(i) then Rank(s'.workers[i]) < Rank(s.workers[i]) else s'.workers[i] == s.workers[i]
  {
    if !s.workers[i].Exited? {
      assert Active(s.workers[i]);
      StepKeepsSafe(s, l, s', true);
    }
  }

  lemma {:induction false} RunsKeepOnItsWay(states: seq<State>, labels: seq<Label>, i: nat)
    requires Run(states, labels, true) && OnItsWay(states[0], i)
    ensures forall k | 0 <= k < |states| :: OnItsWay(states[k], i)
    ensures forall k | 0 <= k < |states| :: i < |states[k].workers|
    ensures Moves(states, labels, i, w => 1) + Rank(states[|labels|].workers[i]) <= Rank(states[0].workers[i])
    decreases |labels|
  {
    if labels != [] {
      var n := |labels| - 1;
      assert forall k | 0 <= k < n + 1 :: states[..n + 1][k] == states[k];
      RunsKeepOnItsWay(states[..n + 1], labels[..n], i);
      assert Step(states[n], labels[n], states[n + 1], true);
      assert OnItsWay(states[..n + 1][n], i);
      StepKeepsOnItsWay(states[n], labels[n], states[n + 1], i);
      hide Step, OnItsWay, Rank;
    }
  }

  lemma StuckSendExists(s: State, i: nat)
    requires Safe(s) && s.ctrl == StopWait && i < |s.workers| && Active(s.workers[i]) && !PastSends(s.workers[i])
    ensures exists t :: Reaches(s, t, true, false) && i < |t.workers| && !t.workers[i].Exited? && !CanMove(t, i)
  {
    var w := s.workers[i];
    if Sends(w) {
      ReachesItself(s, true);
      NotOnlyPrompt(s, s, true);
      assert !CanMove(s, i);
    } else {
      var w' := if w.Setup? then SendError else SendRefresh(w.start);
      var t := s.(workers := s.workers[i := w']);
      OneStep(s, Thread(i), t, true);
      assert !CanMove(t, i);
    }
  }

  /** While the window's own thread waits in Stop: whatever happens next, a live worker can always move until it is
      out, exactly when it is past its sends. */
  lemma WindowThreadStopProceeds(s: State, i: nat)
    requires Safe(s) && s.ctrl == StopWait && i < |s.workers| && Active(s.workers[i])
    ensures PastSends(s.workers[i]) <==>
            forall t | Reaches(s, t, true, false) :: i < |t.workers| && (t.workers[i].Exited? || CanMove(t, i))
  {
    if PastSends(s.workers[i]) {
      forall t | Reaches(s, t, true, false) ensures i < |t.workers| && (t.workers[i].Exited? || CanMove(t, i)) {
        var states, labels :| Connects(states, labels, s, t, true, false);
        RunsKeepOnItsWay(states, labels, i);
        assert OnItsWay(states[|labels|], i);
        if !t.workers[i].Exited? {
          WorkerCanStep(t, i, true);
        }
      }
    } else {
      StuckSendExists(s, i);
    }
  }

  /** It then leaves within as many moves as its rank, eight at most, in every continuation. */
  lemma WindowThreadStopIsBounded(states: seq<State>, labels: seq<Label>, i: nat)
    requires Run(states, labels, true) && Safe(states[0]) && states[0].ctrl == StopWait
    requires i < |states[0].workers| && PastSends(states[0].workers[i])
    ensures forall k | 0 <= k < |states| :: i < |states[k].workers|
    ensures Moves(states, labels, i, w => 1) + Rank(states[|labels|].workers[i]) <= Rank(states[0].workers[i]) <= 8
    ensures Rank(states[|labels|].workers[i]) == 0 <==> states[|labels|].workers[i].Exited?
  {
    RunsKeepOnItsWay(states, labels, i);
    forall k | 0 <= k < |states| ensures i < |states[k].workers| {
      assert OnItsWay(states[k], i);
    }
  }

  /** With one more worker, at `w`. */
  function Started(s: State, w: Worker, period: int): State {
    s.(run := !w.Spawned?, workers := s.workers + [w], period := period)
  }

  lemma StartedMoves(s: State, w: Worker, period: int, w': Worker, period': int, windowThread: bool)
    requires s.ctrl == Idle && !w.ClearRun? && w' != Spawned && WorkerMove(w, s.stop, period, w')
    requires period' == period || w.Setup?
    ensures ThreadStep(Started(s, w, period), |s.workers|, Started(s, w', period'), windowThread)
  {
    hide WorkerMove;
    assert (s.workers + [w])[|s.workers| := w'] == s.workers + [w'];
  }

  lemma StartIsPrompt(s: State, l: Label)
    requires NoneLive(s.workers)
    ensures Prompt(s, l)
  {
    assert forall w | w in s.workers :: w.Exited?;
  }

  /** A Start without a live worker leads to a query, with any period its setup file may hold and at any tick, or to the
      message of an error; or the spawn fails, and nothing has changed. */
  lemma StartOutcomes(s: State, period: int, start: nat, windowThread: bool)
    requires s.ctrl == Idle && !s.run && !s.stop && NoneLive(s.workers)
    ensures Reaches(s, Started(s, Query(start), period), windowThread, true)
    ensures Reaches(s, Started(s, SendError, period), windowThread, true)
    ensures Step(s, Control, s.(ctrl := StartTest), windowThread)
    ensures Step(s.(ctrl := StartTest), Control, s.(ctrl := StartSpawn), windowThread)
    ensures Step(s.(ctrl := StartSpawn), Control, s, windowThread)
  {
    var n := Thread(|s.workers|);
    StartIsPrompt(s, Control);
    StartIsPrompt(s.(ctrl := StartTest), Control);
    StartIsPrompt(s.(ctrl := StartSpawn), Control);
    ReachesItself(s, windowThread);
    StartedMoves(s, Spawned, s.period, Setup, s.period, windowThread);
    StartedMoves(s, Setup, s.period, Test, period, windowThread);
    StartedMoves(s, Setup, s.period, SendError, period, windowThread);
    StartedMoves(s, Test, period, Query(start), period, windowThread);
    assert s.(ctrl := StartSpawn).(ctrl := Idle) == s;
    assert Started(s, Spawned, s.period) == s.(workers := s.workers + [Spawned]);
    hide Reaches, ThreadStep, Started, NoneLive;
    ReachStep(s, s, Control, s.(ctrl := StartTest), windowThread, true);
    ReachStep(s, s.(ctrl := StartTest), Control, s.(ctrl := StartSpawn), windowThread, true);
    ReachStep(s, s.(ctrl := StartSpawn), Control, Started(s, Spawned, s.period), windowThread, true);
    ReachStep(s, Started(s, Spawned, s.period), n, Started(s, Setup, s.period), windowThread, true);
    ReachStep(s, Started(s, Setup, s.period), n, Started(s, Test, period), windowThread, true);
    ReachStep(s, Started(s, Setup, s.period), n, Started(s, SendError, period), windowThread, true);
    ReachStep(s, Started(s, Test, period), n, Started(s, Query(start), period), windowThread, true);
  }

  /** Such a wait is reached without any early call: Start, three steps of the worker, Stop. */
  lemma StopHangsExample()
    ensures var init, s := State(false, false, [], Idle, 5), State(true, true, [Query(0)], StopWait, 5);
            Init(init) && Reaches(init, s, true, true) && Doomed(s.workers[0])
  {
    var init := State(false, false, [], Idle, 5);
    var query := State(true, false, [Query(0)], Idle, 5);
    StartOutcomes(init, 5, 0, true);
    assert Started(init, Query(0), 5) == query;
    hide Reaches;
    ReachStep(init, query, Control, query.(ctrl := StopTest), true, true);
    ReachStep(init, query.(ctrl := StopTest), Control, query.(ctrl := StopSet), true, true);
    ReachStep(init, query.(ctrl := StopSet), Control, State(true, true, [Query(0)], StopWait, 5), true, true);
  }

  // ----- The sleep between two queries ---------------------------------------------------------

  /** The tick counter wraps at 2^32 ms; the result is exact precisely when less than one wrap has gone by. */
  lemma SleepSecondsIsExact(period: int, start: nat, elapsed: nat)
    requires 0 <= period < 0x8000_0000 && start < U32
    ensures SleepSeconds(period, start, (start + elapsed) % U32) == period - elapsed / 1000 <==> elapsed < U32
  {
    var end := (start + elapsed) % U32;
    var wraps := (start + elapsed) / U32;
    assert end - start == elapsed - wraps * U32;
    var e := elapsed % U32;
    var k := elapsed / U32;
    assert (end - start) % U32 == e;
    InRangeIsKept(period - e / 1000);
    hide SleepSeconds, ToInt;
    SleepSecondsByTicks(period, start, end);
    assert k >= 1 ==> elapsed >= e + U32;
  }

  lemma InRangeIsKept(v: int)
    requires -0x8000_0000 <= v < 0x8000_0000
    ensures ToInt(v) == v
  {
  }

  lemma SleepSecondsByTicks(period: int, start: nat, end: nat)
    ensures SleepSeconds(period, start, end) == ToInt(period - (end - start) % U32 / 1000)
  {
  }

  /** The 32-bit tick count `elapsed` milliseconds after `start`. */
  function TicksAfter(start: nat, elapsed: nat): nat {
    (start + elapsed) % U32
  }

  /** Milliseconds from one query to the next: the measured work, then whole seconds of sleep. */
  function CycleTime(period: int, start: nat, elapsed: nat): nat {
    var n := SleepSeconds(period, start, TicksAfter(start, elapsed));
    elapsed + (if n > 0 then 1000 * n else 0)
  }

  lemma CycleTimeBounds(period: int, start: nat, elapsed: nat)
    requires 0 <= period < 0x8000_0000 && start < U32 && elapsed < U32
    ensures elapsed < 1000 * period ==> 1000 * period <= CycleTime(period, start, elapsed) <= 1000 * period + 999
    ensures elapsed >= 1000 * period ==> CycleTime(period, start, elapsed) == elapsed
  {
    SleepSecondsIsExact(period, start, elapsed);
  }
  // ----- One round of the loop -----------------------------------------------------------------

  function Positive(n: int): nat {
    if n > 0 then n else 0
  }

  /** Between the query's message and the next test. */
  predicate Pausing(w: Worker) {
    w.Measure? || w.For? || (w.Sleeping? && w.left > 0) || (w.Check? && w.left > 0)
  }

  function SleepsToCome(w: Worker, period: int): nat {
    match w
    case Measure(start, end) => Positive(SleepSeconds(period, start, end))
    case For(n) => Positive(n)
    case Sleeping(n) => Positive(n)
    case Check(n) => Positive(n - 1)
    case _ => 0
  }

  lemma PausingStep(w: Worker, period: int, w': Worker)
    requires Pausing(w) && WorkerMove(w, false, period, w')
    ensures Pausing(w') || w' == Test
    ensures !w'.Measure?
    ensures Sleeps(w) + SleepsToCome(w', period) == SleepsToCome(w, period)
  {
    hide SleepSeconds;
  }

  /** A run in which worker `i` works out its pause with the first step, is never asked to stop, and does not test again
      before the end. */
  predicate PauseRun(states: seq<State>, labels: seq<Label>, i: nat, windowThread: bool) {
    && Run(states, labels, windowThread)
    && labels != [] && labels[0] == Thread(i)
    && (forall k | 0 <= k < |states| :: !states[k].stop && i < |states[k].workers|)
    && states[0].workers[i].Measure?
    && (forall k | 0 < k < |labels| :: !states[k].workers[i].Test?)
  }

  /** Such a run up to the next test. */
  predicate FullPause(s: State, states: seq<State>, labels: seq<Label>, i: nat, windowThread: bool) {
    PauseRun(states, labels, i, windowThread) && states[0] == s && states[|labels|].workers[i] == Test
  }

  /** A step either moves worker `i` or leaves it where it is. */
  lemma StepOfWorker(s: State, l: Label, s': State, i: nat, windowThread: bool)
    requires Step(s, l, s', windowThread) && i < |s.workers| && i < |s'.workers|
    ensures if l == Thread(i) then WorkerMove(s.workers[i], s.stop, s.period, s'.workers[i])
            else s'.workers[i] == s.workers[i]
  {
  }

  lemma {:induction false} PauseCountsDown(states: seq<State>, labels: seq<Label>, i: nat, windowThread: bool)
    requires PauseRun(states, labels, i, windowThread)
    ensures var last, first := states[|labels|].workers[i], states[0].workers[i];
            && (Pausing(last) || last == Test) && !last.Measure?
            && Moves(states, labels, i, Sleeps) + SleepsToCome(last, 0) ==
               Positive(SleepSeconds(states[0].period, first.start, first.end))
    decreases |labels|
  {
    var n := |labels| - 1;
    var w, w' := states[n].workers[i], states[n + 1].workers[i];
    assert forall k | 0 <= k < n + 1 :: states[..n + 1][k] == states[k];
    assert Step(states[n], labels[n], states[n + 1], windowThread);
    StepOfWorker(states[n], labels[n], states[n + 1], i, windowThread);
    hide SleepSeconds, Run, Step, WorkerMove;
    if n == 0 {
      assert Moves(states[..1], labels[..0], i, Sleeps) == 0;
      PausingStep(w, states[0].period, w');
      assert SleepsToCome(w', 0) == SleepsToCome(w', states[0].period);
    } else {
      ShorterPause(states, labels, i, windowThread);
      PauseCountsDown(states[..n + 1], labels[..n], i, windowThread);
      if labels[n] == Thread(i) {
        PausingStep(w, states[n].period, w');
        assert SleepsToCome(w, 0) == SleepsToCome(w, states[n].period);
        assert SleepsToCome(w', 0) == SleepsToCome(w', states[n].period);
      }
    }
  }

  lemma ShorterPause(states: seq<State>, labels: seq<Label>, i: nat, windowThread: bool)
    requires PauseRun(states, labels, i, windowThread) && |labels| > 1
    ensures PauseRun(states[..|labels|], labels[..|labels| - 1], i, windowThread)
  {
    hide Step;
  }

  /** Undisturbed, a worker that measures makes exactly as many one-second sleeps before its next test as the period
      leaves whole seconds, none if it leaves none, in every interleaving. */
  lemma SleepsPerRound(states: seq<State>, labels: seq<Label>, i: nat, windowThread: bool)
    requires PauseRun(states, labels, i, windowThread) && states[|labels|].workers[i] == Test
    ensures var w := states[0].workers[i];
            Moves(states, labels, i, Sleeps) == Positive(SleepSeconds(states[0].period, w.start, w.end))
  {
    PauseCountsDown(states, labels, i, windowThread);
    hide *;
    NoSleepsAtTest();
  }

  /** So a round takes the measured work and those sleeps. */
  lemma RoundTime(states: seq<State>, labels: seq<Label>, i: nat, elapsed: nat, windowThread: bool)
    requires PauseRun(states, labels, i, windowThread) && states[|labels|].workers[i] == Test
    requires states[0].workers[i].end == TicksAfter(states[0].workers[i].start, elapsed)
    ensures CycleTime(states[0].period, states[0].workers[i].start, elapsed) ==
            elapsed + 1000 * Moves(states, labels, i, Sleeps)
  {
    hide Step, SleepSeconds, TicksAfter, Moves, CycleTime;
    SleepsPerRound(states, labels, i, windowThread);
    CycleTimeIs(states[0].period, states[0].workers[i].start, elapsed);
  }

  lemma NoSleepsAtTest()
    ensures SleepsToCome(Test, 0) == 0
  {
  }

  lemma CycleTimeIs(period: int, start: nat, elapsed: nat)
    ensures CycleTime(period, start, elapsed) ==
            elapsed + 1000 * Positive(SleepSeconds(period, start, TicksAfter(start, elapsed)))
  {
    hide SleepSeconds;
  }

  function PauseRank(w: Worker): nat {
    match w
    case For(n) => 3 * Positive(n) + 1
    case Sleeping(n) => 3 * Positive(n)
    case Check(n) => 3 * Positive(n - 1) + 2
    case _ => 0
  }

  lemma ExtendPause(states: seq<State>, labels: seq<Label>, i: nat, windowThread: bool)
    requires PauseRun(states, labels, i, windowThread) && Pausing(states[|labels|].workers[i])
    ensures PauseRun(states + [Advance(states[|labels|], i)], labels + [Thread(i)], i, windowThread)
  {
    var n := |labels|;
    var s' := Advance(states[n], i);
    WorkerCanStep(states[n], i, windowThread);
    assert !states[n].workers[i].Test?;
    hide Step, Advance, WorkerMove;
    var longer, more := states + [s'], labels + [Thread(i)];
    forall k | 0 <= k < |more| ensures Step(longer[k], more[k], longer[k + 1], windowThread) {
      if k < n {
        assert Step(states[k], labels[k], states[k + 1], windowThread);
      } else {
        assert Step(states[n], Thread(i), s', windowThread) by {
          StepOfThread(states[n], i, s', windowThread);
        }
      }
    }
    AdvanceKeepsStop(states[n], i);
  }

  lemma StepOfThread(s: State, i: nat, s': State, windowThread: bool)
    requires ThreadStep(s, i, s', windowThread)
    ensures Step(s, Thread(i), s', windowThread)
  {
  }

  lemma AdvanceKeepsStop(s: State, i: nat)
    requires i < |s.workers|
    ensures Advance(s, i).stop == s.stop && i < |Advance(s, i).workers|
    ensures Advance(s, i).workers[i] == NextMove(s.workers[i], s.stop, s.period)
  {
  }

  lemma {:induction false} FinishPause(states: seq<State>, labels: seq<Label>, i: nat, windowThread: bool)
    requires PauseRun(states, labels, i, windowThread)
    ensures exists states', labels' :: FullPause(states[0], states', labels', i, windowThread)
    decreases PauseRank(states[|labels|].workers[i])
  {
    var w := states[|labels|].workers[i];
    PauseCountsDown(states, labels, i, windowThread);
    if w != Test {
      ExtendPause(states, labels, i, windowThread);
      AdvanceKeepsStop(states[|labels|], i);
      var s' := Advance(states[|labels|], i);
      assert !states[|labels|].stop;
      hide Run, Moves, Advance;
      assert (states + [s'])[|labels + [Thread(i)]|] == s' && (states + [s'])[0] == states[0];
      FinishPause(states + [s'], labels + [Thread(i)], i, windowThread);
    } else {
      assert FullPause(states[0], states, labels, i, windowThread);
    }
  }

  /** And such a round exists from every measurement, so every number of sleeps happens. */
  lemma PauseHappens(s: State, i: nat, windowThread: bool)
    requires !s.stop && i < |s.workers| && s.workers[i].Measure?
    ensures exists states, labels :: FullPause(s, states, labels, i, windowThread) &&
              Moves(states, labels, i, Sleeps) ==
              Positive(SleepSeconds(s.period, s.workers[i].start, s.workers[i].end))
  {
    var s' := Advance(s, i);
    WorkerCanStep(s, i, windowThread);
    AdvanceKeepsStop(s, i);
    hide Advance, SleepSeconds;
    StepOfThread(s, i, s', windowThread);
    assert PauseRun([s, s'], [Thread(i)], i, windowThread);
    FinishPause([s, s'], [Thread(i)], i, windowThread);
    var states, labels :| FullPause(s, states, labels, i, windowThread);
    SleepsPerRound(states, labels, i, windowThread);
  }

  function Refreshes(w: Worker): nat {
    if w.SendRefresh? then 1 else 0
  }

  /** In one round, from the query to the next test. */
  predicate InRound(w: Worker, start: nat) {
    (Pausing(w) && (w.Measure? ==> w.start == start)) || w == Query(start) || w == SendRefresh(start) || w == Test
  }

  function RefreshesToCome(w: Worker): nat {
    if w.Query? || w.SendRefresh? then 1 else 0
  }

  /** A test without a stop leads to a query, and nothing else does. */
  lemma TestLeadsToQuery(w: Worker, stop: bool, period: int, w': Worker)
    requires WorkerMove(w, stop, period, w')
    ensures w'.Query? <==> w == Test && !stop
    ensures w'.Close? <==> w == Test && stop
  {
  }

  /** A round makes exactly one query and sends exactly one refresh, and what it measures from is the query's start. */
  lemma {:induction false} OneQueryPerRound(states: seq<State>, labels: seq<Label>, i: nat, start: nat,
                                            windowThread: bool)
    requires Run(states, labels, windowThread)
    requires forall k | 0 <= k < |states| :: !states[k].stop && i < |states[k].workers|
    requires states[0].workers[i] == Query(start)
    requires forall k | 0 <= k < |labels| :: !states[k].workers[i].Test?
    ensures forall k | 0 <= k < |states| :: InRound(states[k].workers[i], start)
    ensures var last := states[|labels|].workers[i];
            && Moves(states, labels, i, Queries) + Queries(last) == 1
            && Moves(states, labels, i, Refreshes) + RefreshesToCome(last) == 1
    decreases |labels|
  {
    if labels != [] {
      var n := |labels| - 1;
      assert forall k | 0 <= k < n + 1 :: states[..n + 1][k] == states[k];
      OneQueryPerRound(states[..n + 1], labels[..n], i, start, windowThread);
      assert InRound(states[..n + 1][n].workers[i], start);
      assert Step(states[n], labels[n], states[n + 1], windowThread);
      StepOfWorker(states[n], labels[n], states[n + 1], i, windowThread);
      hide Step, Run, SleepSeconds;
      forall k | 0 <= k < |states| ensures InRound(states[k].workers[i], start) {
        if k <= n {
          assert InRound(states[..n + 1][k].workers[i], start);
        }
      }
    }
  }

  function Closes(w: Worker): nat {
    if w.Close? then 1 else 0
  }

  function Leaves(w: Worker): nat {
    if w.Leave? then 1 else 0
  }

  function LeavesToCome(w: Worker): nat {
    if w.Close? || w.SendError? || w.Leave? then 1 else 0
  }

  predicate Leaving(w: Worker) {
    w.Close? || w.SendError? || w.Leave? || w.ClearRun? || w.Exited?
  }

  lemma LeavingStep(w: Worker, stop: bool, period: int, w': Worker)
    ensures Leaving(w) && WorkerMove(w, stop, period, w') ==>
              Leaving(w') && Rank(w') + 1 == Rank(w) && !w'.Close? && LeavesToCome(w') + Leaves(w) == LeavesToCome(w)
  {
  }

  /** A worker on its way out closes its connection if it has one, ends the library once, and only then clears `gbRun`:
      three moves to the exit. */
  lemma {:induction false} LeavesInOrder(states: seq<State>, labels: seq<Label>, i: nat, windowThread: bool)
    requires Run(states, labels, windowThread)
    requires forall k | 0 <= k < |states| :: i < |states[k].workers|
    requires Leaving(states[0].workers[i])
    ensures var first, last := states[0].workers[i], states[|labels|].workers[i];
            && Leaving(last)
            && Moves(states, labels, i, w => 1) + Rank(last) == Rank(first)
            && Moves(states, labels, i, Closes) + Closes(last) == Closes(first)
            && Moves(states, labels, i, Leaves) + LeavesToCome(last) == LeavesToCome(first)
    decreases |labels|
  {
    if labels != [] {
      var n := |labels| - 1;
      assert forall k | 0 <= k < n + 1 :: states[..n + 1][k] == states[k];
      LeavesInOrder(states[..n + 1], labels[..n], i, windowThread);
      assert Step(states[n], labels[n], states[n + 1], windowThread);
      StepOfWorker(states[n], labels[n], states[n + 1], i, windowThread);
      LeavingStep(states[n].workers[i], states[n].stop, states[n].period, states[n + 1].workers[i]);
      hide Step, Run, SleepSeconds, WorkerMove, Rank, Leaving;
    }
  }
}
