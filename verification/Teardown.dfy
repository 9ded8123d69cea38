// For exactly which configurations a teardown that has begun always ends.
module Teardown {
  import opened Session
  import opened SessionRuns
  import opened SessionPanics
  import opened SessionRaces

  // Even with every caller past the length test at once there is room for the sentinel.
  predicate Roomy(c: Config) {
    c.limit + c.senders <= c.cap
  }

  // The session is closed, by its reader or by a Close; the end callback has not run yet.
  predicate Ending(s: State) {
    s.connector.Serving? && s.closeInt && !s.waiter.WaiterGone?
  }

  // The reader has set the flag; the end callback has not run yet.
  predicate Unwinding(s: State) {
    s.connector.Serving? && PastFlag(s) && !s.waiter.WaiterGone?
  }

  predicate Finished(s: State) {
    s.connector.Serving? && s.waiter.WaiterGone?
  }

  // All that a teardown does was done, and done once: the channel and the connection are
  // closed and the session manager has let go of the session.
  predicate Complete(s: State) {
    Finished(s) && Quiet(s) && s.shut && !s.link.up && !s.listed
    && s.tally.sentinels == s.tally.events == s.tally.closes == s.tally.ends == 1
  }

  // ---- every step brings the end closer --------------------------------------------

  function ReaderLeft(r: Reader): nat {
    match r
    case Reading => 7
    case ReadFailed => 7
    case Flagged => 6
    case Pushed => 2
    case Emitted => 1
    case ReaderGone => 0
    case ReaderDead => 7
  }

  function WriterLeft(w: Writer): nat {
    match w
    case Taking => 3
    case Sending => 5
    case Writing => 4
    case Leaving => 2
    case Left => 1
    case WriterGone => 0
    case WriterDead => 0
  }

  function WaiterLeft(w: Waiter): nat {
    match w
    case Waiting => 4
    case Woken => 3
    case Closed => 2
    case Removed => 1
    case WaiterGone => 0
  }

  function Distance(s: State): nat {
    ReaderLeft(s.reader) + WriterLeft(s.writer) + WaiterLeft(s.waiter) + 3 * |s.queue|
    + 6 * s.checked + 5 * s.ready + 4 * s.blocked
    + 2 * s.closing + s.holding + s.stale + if s.link.stalled then 0 else 1
  }

  // The end callback ran, or it is strictly nearer.
  predicate Nearer(s: State, t: State) {
    Finished(t) || (Unwinding(t) && Distance(t) < Distance(s))
  }

  lemma {:induction false} ReaderCloser(c: Config, s: State, a: ReaderStep)
    requires Unwinding(s) && ReaderMay(c, s, a)
    ensures Nearer(s, ReaderDo(s, a))
  {
  }

  lemma {:induction false} TakeCloser(c: Config, s: State)
    requires Unwinding(s) && WriterMay(c, s, Take)
    ensures Nearer(s, WriterDo(s, Take))
  {
    var t := WriterDo(s, Take);
    assert |t.queue| == |s.queue| - 1 && t.reader == s.reader && t.waiter == s.waiter;
  }

  lemma {:induction false} WriterCloser(c: Config, s: State, a: WriterStep)
    requires Unwinding(s) && WriterMay(c, s, a)
    ensures Nearer(s, WriterDo(s, a))
  {
    if a.Take? {
      TakeCloser(c, s);
    }
  }

  lemma {:induction false} WaiterCloser(c: Config, s: State, a: WaiterStep)
    requires Unwinding(s) && WaiterMay(s, a)
    ensures Nearer(s, WaiterDo(s, a))
  {
  }

  lemma {:induction false} CallerCloser(c: Config, s: State, a: CallerStep)
    requires Unwinding(s) && s.closeInt && CallerMay(c, s, a)
    ensures Nearer(s, CallerDo(c, s, a))
  {
  }

  // Every step anybody can take brings the end closer.
  lemma Closer(c: Config, s: State, a: Action)
    requires InService(s) && Unwinding(s) && Enabled(c, s, a)
    ensures Nearer(s, Do(c, s, a))
  {
    hide Counters, ReaderMay, WriterMay, WaiterMay, CallerMay, ReaderDo, WriterDo, WaiterDo, CallerDo;
    match a
    case Dial(d) => assert false;
    case Read(r) => ReaderCloser(c, s, r);
    case Write(w) => WriterCloser(c, s, w);
    case Wait(w) => WaiterCloser(c, s, w);
    case Call(k) => CallerCloser(c, s, k);
    case PeerStalls =>
  }

  lemma FinishedIsComplete(c: Config, s: State)
    requires Inv(c, s) && Finished(s)
    ensures Complete(s)
  {
    hide Flow;
  }

  // ---- no run avoids it --------------------------------------------------------------

  lemma {:induction false} Prefix(c: Config, s: State, acts: seq<Action>, i: nat, r: Rules)
    requires Legal(c, s, acts) && Settled(c, s, acts, r) && i <= |acts|
    ensures Legal(c, s, acts[..i]) && Settled(c, s, acts[..i], r)
    decreases i
  {
    hide Do, Enabled, Polite;
    if i == 0 {
      assert acts[..0] == [];
    } else {
      Prefix(c, Do(c, s, acts[0]), acts[1..], i - 1, r);
      assert acts[..i][0] == acts[0] && acts[..i][1..] == acts[1..][..i - 1];
    }
  }

  // Somewhere along the run the teardown is complete.
  ghost predicate Completes(c: Config, s: State, acts: seq<Action>) {
    exists i :: 0 <= i <= |acts| && Legal(c, s, acts[..i]) && Complete(Exec(c, s, acts[..i]))
  }

  // A run this long has met the end, whatever its steps were.
  lemma {:induction false} EndMet(c: Config, s: State, acts: seq<Action>)
    requires c.limit >= 1 && Inv(c, s) && (Unwinding(s) || Finished(s))
    requires Legal(c, s, acts) && (Finished(s) || |acts| > Distance(s))
    ensures Completes(c, s, acts)
    decreases |acts|
  {
    hide InService, Flow, Do, Enabled, Distance, Finished, Unwinding, Complete, Next;
    if Finished(s) {
      FinishedIsComplete(c, s);
      assert acts[..0] == [];
      assert Legal(c, s, acts[..0]);
    } else {
      UnwindingInService(s);
      Closer(c, s, acts[0]);
      StepKeeps(c, s, acts[0]);
      var t := Do(c, s, acts[0]);
      EndMet(c, t, acts[1..]);
      var i :| 0 <= i <= |acts[1..]| && Legal(c, t, acts[1..][..i]) && Complete(Exec(c, t, acts[1..][..i]));
      assert acts[..i + 1][1..] == acts[1..][..i] && acts[..i + 1][0] == acts[0];
    }
  }

  lemma UnwindingInService(s: State)
    requires Phases(s) && Unwinding(s)
    ensures InService(s)
  {
  }

  // ---- and some step is always possible ----------------------------------------------

  // The step the protocol itself can take next.
  function Next(s: State): Action {
    if s.reader.Flagged? then Read(PushSentinel)
    else if s.reader.Pushed? then Read(EmitClosed)
    else if s.reader.Emitted? then Read(ReaderDone)
    else match s.writer
      case Taking => Write(Take)
      case Sending => Write(SendError)
      case Writing => Write(WriteFail)
      case Leaving => Write(WriterClose)
      case Left => Write(WriterDone)
      case _ =>
        match s.waiter
        case Waiting => Wait(Wake)
        case Woken => Wait(CloseQueue)
        case Closed => Wait(Deregister)
        case _ => Wait(EndCallback)
  }

  lemma {:induction false} RoomForSentinel(c: Config, s: State)
    requires Inv(c, s) && Roomy(c) && s.reader.Flagged?
    ensures |s.queue| < c.cap
  {
    hide Messages, Sentinels, After, Leftover;
  }

  lemma {:induction false} NextEnabled(c: Config, s: State)
    requires Inv(c, s) && Unwinding(s) && (s.reader.Flagged? ==> |s.queue| < c.cap)
    requires c.deadline && !c.badSends
    ensures Enabled(c, s, Next(s))
  {
    hide Messages, After, Leftover;
  }

  // With room for the sentinel, a deadline on writes and no writer that dies, a teardown that
  // the reader has begun can always go on, and every run, panics of callers included, that
  // goes on long enough completes it.
  lemma TeardownEnds(c: Config, s: State)
    requires c.limit >= 1 && Roomy(c) && c.deadline && !c.badSends && Reachable(c, s) && Unwinding(s)
    ensures Enabled(c, s, Next(s))
    ensures forall acts :: Legal(c, s, acts) && |acts| > Distance(s) ==> Completes(c, s, acts)
  {
    hide Distance, Completes, Enabled, Unwinding;
    ReachableInv(c, s);
    NextReady(c, s);
    forall acts | Legal(c, s, acts) && |acts| > Distance(s) ensures Completes(c, s, acts) {
      EndMet(c, s, acts);
    }
  }

  lemma NextReady(c: Config, s: State)
    requires Inv(c, s) && Roomy(c) && c.deadline && !c.badSends && Unwinding(s)
    ensures Enabled(c, s, Next(s))
  {
    hide Phases, Flow, Enabled;
    if s.reader.Flagged? {
      RoomForSentinel(c, s);
    }
    NextEnabled(c, s);
  }

  // Under the two conditions on callers it completes without a single panic.
  lemma TeardownEndsCalmly(c: Config, s: State, acts: seq<Action>)
    requires c.limit >= 1 && Inv(c, s) && Outside(c, s) && Unwinding(s)
    requires Legal(c, s, acts) && Settled(c, s, acts, Rules(true, true)) && |acts| > Distance(s)
    ensures exists i :: 0 <= i <= |acts| && Legal(c, s, acts[..i]) && Complete(Exec(c, s, acts[..i]))
                        && Exec(c, s, acts[..i]).panics == s.panics
  {
    hide Phases, Flow, Do, Enabled, Distance, Unwinding, Complete, Outside;
    EndMet(c, s, acts);
    var i :| 0 <= i <= |acts| && Legal(c, s, acts[..i]) && Complete(Exec(c, s, acts[..i]));
    Prefix(c, s, acts, i, Rules(true, true));
    SettledNeverPanics(c, s, acts[..i]);
  }

  // ---- from the failed read ------------------------------------------------------------

  lemma {:induction false} FlagWaitsStep(c: Config, s: State, a: Action)
    requires Phases(s) && s.reader.ReadFailed? && Enabled(c, s, a) && a != Read(StoreFlag)
    ensures Do(c, s, a).reader.ReadFailed?
  {
    hide InService, OutOfService, CallerMay, CallerDo;
    if a.Call? {
      CallerLeavesReader(c, s, a.caller);
    }
  }

  lemma CallerLeavesReader(c: Config, s: State, a: CallerStep)
    requires CallerMay(c, s, a)
    ensures CallerDo(c, s, a).reader == s.reader
  {
  }

  // After a failed read the reader can always set the flag, for as long as it has not.
  lemma {:induction false} FlagWaits(c: Config, s: State, acts: seq<Action>)
    requires c.limit >= 1 && Inv(c, s) && s.reader.ReadFailed? && Legal(c, s, acts) && Read(StoreFlag) !in acts
    ensures Enabled(c, Exec(c, s, acts), Read(StoreFlag))
    ensures Inv(c, Exec(c, s, acts)) && Exec(c, s, acts).reader.ReadFailed?
    decreases |acts|
  {
    hide Inv, Do;
    if acts == [] {
    } else {
      StepKeeps(c, s, acts[0]);
      assert Do(c, s, acts[0]).reader.ReadFailed? by {
        InvPhases(c, s);
        FlagWaitsStep(c, s, acts[0]);
      }
      FlagWaits(c, Do(c, s, acts[0]), acts[1..]);
    }
  }

  lemma InvPhases(c: Config, s: State)
    requires Inv(c, s)
    ensures Phases(s)
  {
  }

  lemma FailureEnds(c: Config, s: State, before: seq<Action>, after: seq<Action>)
    requires c.limit >= 1 && Inv(c, s) && s.reader.ReadFailed?
    requires Legal(c, s, before) && Read(StoreFlag) !in before
    ensures Enabled(c, Exec(c, s, before), Read(StoreFlag))
    ensures var t := Do(c, Exec(c, s, before), Read(StoreFlag));
            Legal(c, t, after) && |after| > Distance(t) ==> Completes(c, t, after)
  {
    hide Distance, Completes, Flow, Exec;
    FlagWaits(c, s, before);
    var u := Exec(c, s, before);
    StepKeeps(c, u, Read(StoreFlag));
    var t := Do(c, u, Read(StoreFlag));
    OnlyInService(c, u, Read(StoreFlag));
    if Legal(c, t, after) && |after| > Distance(t) {
      EndMet(c, t, after);
    }
  }

  // So a failed read leads to the complete teardown in every run that lets the reader set
  // the flag at some time and then goes on long enough.
  lemma ReadFailureEnds(c: Config, s: State, before: seq<Action>, after: seq<Action>)
    requires c.limit >= 1 && Reachable(c, s) && s.reader.ReadFailed?
    requires Legal(c, s, before) && Read(StoreFlag) !in before
    ensures Enabled(c, Exec(c, s, before), Read(StoreFlag))
    ensures var t := Do(c, Exec(c, s, before), Read(StoreFlag));
            Legal(c, t, after) && |after| > Distance(t) ==> Completes(c, t, after)
  {
    hide Distance, Completes, Inv, Exec, Do, Enabled;
    ReachableInv(c, s);
    FailureEnds(c, s, before, after);
  }

  // ---- from a Close ----------------------------------------------------------------------

  lemma {:induction false} ReadWaitsStep(c: Config, s: State, a: Action)
    requires Phases(s) && s.reader.Reading? && Enabled(c, s, a) && a != Read(ReadError) && a != Read(ReadPanic)
    ensures Do(c, s, a).reader.Reading? && (s.closeInt ==> Do(c, s, a).closeInt)
  {
    hide Phases, CallerMay, CallerDo;
    ReadingServes(s);
    if a.Call? {
      CallerLeavesReader(c, s, a.caller);
      CallerLeavesFlag(c, s, a.caller);
    }
  }

  lemma ReadingServes(s: State)
    requires Phases(s) && s.reader.Reading?
    ensures s.connector.Serving?
  {
  }

  lemma CallerLeavesFlag(c: Config, s: State, a: CallerStep)
    requires CallerMay(c, s, a)
    ensures s.closeInt ==> CallerDo(c, s, a).closeInt
  {
  }

  // A reader that has not failed can always fail.
  lemma {:induction false} ReadWaits(c: Config, s: State, acts: seq<Action>)
    requires c.limit >= 1 && Inv(c, s) && s.reader.Reading? && Legal(c, s, acts)
    requires Read(ReadError) !in acts && Read(ReadPanic) !in acts
    ensures Inv(c, Exec(c, s, acts)) && Exec(c, s, acts).reader.Reading?
    ensures s.closeInt ==> Exec(c, s, acts).closeInt
    decreases |acts|
  {
    hide Inv, Do;
    if acts == [] {
    } else {
      StepKeeps(c, s, acts[0]);
      assert Do(c, s, acts[0]).reader.Reading? && (s.closeInt ==> Do(c, s, acts[0]).closeInt) by {
        InvPhases(c, s);
        ReadWaitsStep(c, s, acts[0]);
      }
      ReadWaits(c, Do(c, s, acts[0]), acts[1..]);
    }
  }

  lemma ReadingCanFail(c: Config, s: State)
    requires Inv(c, s) && s.reader.Reading?
    ensures Enabled(c, s, Read(ReadError)) && Do(c, s, Read(ReadError)).reader.ReadFailed?
    ensures s.closeInt ==> !s.link.up || Enabled(c, s, Call(CloseGet)) || Enabled(c, s, Call(CloseConn))
  {
    hide Flow;
  }

  // While a Close has the flag up and the reader reads on, the connection is down or some
  // Close can still bring it down. The reader can fail all the while, and every run that lets
  // it fail and set the flag at some time and then goes on long enough completes the teardown.
  lemma CloseEnds(c: Config, s: State, first: seq<Action>, second: seq<Action>, after: seq<Action>)
    requires c.limit >= 1 && Reachable(c, s) && s.reader.Reading? && s.closeInt
    requires Legal(c, s, first) && Read(ReadError) !in first && Read(ReadPanic) !in first
    ensures var u := Exec(c, s, first);
            && u.closeInt && (!u.link.up || Enabled(c, u, Call(CloseGet)) || Enabled(c, u, Call(CloseConn)))
            && Enabled(c, u, Read(ReadError))
    ensures var f := Do(c, Exec(c, s, first), Read(ReadError));
            Legal(c, f, second) && Read(StoreFlag) !in second ==>
              && Enabled(c, Exec(c, f, second), Read(StoreFlag))
              && var t := Do(c, Exec(c, f, second), Read(StoreFlag));
                 Legal(c, t, after) && |after| > Distance(t) ==> Completes(c, t, after)
  {
    hide Distance, Completes, Inv, Exec, Do, Enabled;
    ReachableInv(c, s);
    ReadWaits(c, s, first);
    var u := Exec(c, s, first);
    ReadingCanFail(c, u);
    StepKeeps(c, u, Read(ReadError));
    var f := Do(c, u, Read(ReadError));
    if Legal(c, f, second) && Read(StoreFlag) !in second {
      FailureEnds(c, f, second, after);
    }
  }

  // ---- hanging -------------------------------------------------------------------------

  // A closed session that no run from here ends.
  ghost predicate Hung(c: Config, s: State) {
    Ending(s) && forall acts :: Legal(c, s, acts) ==> Ending(Exec(c, s, acts))
  }

  ghost predicate CanHang(c: Config) {
    exists s :: Reachable(c, s) && Hung(c, s)
  }

  predicate Safe(c: Config) {
    Roomy(c) && c.deadline && !c.badFrames && !c.badSends
  }

  // The step that ends a closed session next.
  function NextToEnd(s: State): Action {
    match s.reader
    case Reading => Read(ReadError)
    case ReadFailed => Read(StoreFlag)
    case _ => Next(s)
  }

  function ToEnd(s: State): nat {
    match s.reader
    case Reading => 2
    case ReadFailed => 1
    case _ => 0
  }

  lemma {:induction false} EndingGoesOn(c: Config, s: State)
    requires c.limit >= 1 && Safe(c) && Inv(c, s) && Ending(s)
    ensures Enabled(c, s, NextToEnd(s))
    ensures var t := Do(c, s, NextToEnd(s));
            Finished(t) || (Ending(t) && (ToEnd(t) < ToEnd(s) || (ToEnd(t) == ToEnd(s) && Distance(t) < Distance(s))))
  {
    hide Flow, Distance, WriterMay, WaiterMay, CallerMay, WriterDo, WaiterDo, CallerDo, Next;
    NoneDead(c, s);
    if Unwinding(s) {
      NextReady(c, s);
      Closer(c, s, Next(s));
      StepKeeps(c, s, Next(s));
    }
  }

  lemma NoneDead(c: Config, s: State)
    requires Inv(c, s) && !c.badFrames && !c.badSends
    ensures !s.reader.ReaderDead? && !s.writer.WriterDead?
  {
  }

  // With room, a deadline and no loop that dies, some run ends it.
  lemma {:induction false} RunOn(c: Config, s: State) returns (acts: seq<Action>)
    requires c.limit >= 1 && Safe(c) && Inv(c, s) && (Ending(s) || Finished(s))
    ensures Legal(c, s, acts) && Finished(Exec(c, s, acts))
    decreases !Finished(s), ToEnd(s), Distance(s)
  {
    hide Inv, Do, Enabled, Distance, Ending, Finished, NextToEnd, ToEnd;
    if Finished(s) {
      acts := [];
    } else {
      var a := NextToEnd(s);
      EndingGoesOn(c, s);
      StepKeeps(c, s, a);
      var rest := RunOn(c, Do(c, s, a));
      acts := [a] + rest;
      OneMore(c, s, a, rest);
    }
  }

  // ---- no room ---------------------------------------------------------------------------

  // The writer is gone and the channel is full: the reader cannot push its sentinel, and
  // nobody will ever take from the channel.
  predicate Stuck(c: Config, s: State) {
    && s.connector.Serving? && s.reader.Flagged? && s.writer.WriterGone? && s.waiter.Waiting?
    && s.closeInt && |s.queue| >= c.cap && !s.shut && s.wg == 1 && s.exitWg == 1
  }

  lemma {:induction false} StuckStep(c: Config, s: State, a: Action)
    requires Stuck(c, s) && Enabled(c, s, a)
    ensures Stuck(c, Do(c, s, a))
  {
  }

  lemma {:induction false} StuckForever(c: Config, s: State, acts: seq<Action>)
    requires Stuck(c, s) && Legal(c, s, acts)
    ensures Stuck(c, Exec(c, s, acts))
    decreases |acts|
  {
    hide Stuck, Do, Enabled;
    if acts == [] {
    } else {
      StuckStep(c, s, acts[0]);
      StuckForever(c, Do(c, s, acts[0]), acts[1..]);
    }
  }

  // The writer is gone, the reader still reads, and callers fill the channel.
  predicate Filling(s: State, n: nat, checked: nat, ready: nat) {
    && s.connector.Serving? && s.reader.Reading? && s.writer.WriterGone? && s.waiter.Waiting?
    && !s.closeInt && !s.link.missing && |s.queue| == n && !s.shut && s.wg == 1 && s.exitWg == 1 && s.tally.gen == 1
    && s.checked == checked && s.ready == ready && s.blocked == 0
  }

  const ANY := Rules(false, false)

  lemma Sent(c: Config, s0: State, acts: seq<Action>, s: State) returns (acts': seq<Action>, s': State)
    requires Run(c, s0, acts, s, ANY) && JustServing(s) && c.limit >= 1 && c.cap >= 1 && c.senders >= 1
    ensures Run(c, s0, acts', s', ANY) && s'.queue == [Msg(0)] && JustServing(s'.(queue := []))
  {
    hide Run;
    acts', s' := Add(c, s0, acts, s, Call(TestFlag), ANY);
    acts', s' := Add(c, s0, acts', s', Call(TestLenOk), ANY);
    acts', s' := Add(c, s0, acts', s', Call(Push(0)), ANY);
  }

  lemma WriterDies(c: Config, s0: State, acts: seq<Action>, s: State) returns (acts': seq<Action>, s': State)
    requires Run(c, s0, acts, s, ANY) && s.queue == [Msg(0)] && JustServing(s.(queue := []))
    ensures Run(c, s0, acts', s', ANY) && Filling(s', 0, 0, 0)
  {
    hide Run;
    acts', s' := Add(c, s0, acts, s, Write(Take), ANY);
    acts', s' := Add(c, s0, acts', s', Write(SendError), ANY);
    acts', s' := Add(c, s0, acts', s', Write(WriterClose), ANY);
    acts', s' := Add(c, s0, acts', s', Write(WriterDone), ANY);
  }

  lemma FillOne(c: Config, s0: State, acts: seq<Action>, s: State, n: nat) returns (acts': seq<Action>, s': State)
    requires Run(c, s0, acts, s, ANY) && Filling(s, n, 0, 0) && n < c.limit && n < c.cap && c.senders >= 1
    ensures Run(c, s0, acts', s', ANY) && Filling(s', n + 1, 0, 0)
  {
    hide Run;
    acts', s' := Add(c, s0, acts, s, Call(TestFlag), ANY);
    acts', s' := Add(c, s0, acts', s', Call(TestLenOk), ANY);
    acts', s' := Add(c, s0, acts', s', Call(Push(0)), ANY);
  }

  lemma {:induction false} Filled(c: Config, s0: State, acts: seq<Action>, s: State, n: nat, target: nat)
    returns (acts': seq<Action>, s': State)
    requires Run(c, s0, acts, s, ANY) && Filling(s, n, 0, 0)
    requires n <= target && target <= c.limit && target <= c.cap && c.senders >= 1
    ensures Run(c, s0, acts', s', ANY) && Filling(s', target, 0, 0)
    decreases target - n
  {
    hide Run, Filling;
    acts', s' := acts, s;
    if n < target {
      acts', s' := FillOne(c, s0, acts, s, n);
      acts', s' := Filled(c, s0, acts', s', n + 1, target);
    }
  }

  // m callers pass the flag test, then all of them the length test, then all push.
  lemma {:induction false} AllTest(c: Config, s0: State, acts: seq<Action>, s: State, n: nat, j: nat, m: nat)
    returns (acts': seq<Action>, s': State)
    requires Run(c, s0, acts, s, ANY) && Filling(s, n, j, 0) && j <= m <= c.senders
    ensures Run(c, s0, acts', s', ANY) && Filling(s', n, m, 0)
    decreases m - j
  {
    hide Run;
    acts', s' := acts, s;
    if j < m {
      acts', s' := Add(c, s0, acts, s, Call(TestFlag), ANY);
      acts', s' := AllTest(c, s0, acts', s', n, j + 1, m);
    }
  }

  lemma {:induction false} AllPass(c: Config, s0: State, acts: seq<Action>, s: State, n: nat, j: nat, m: nat)
    returns (acts': seq<Action>, s': State)
    requires Run(c, s0, acts, s, ANY) && j <= m && Filling(s, n, m - j, j) && n < c.limit
    ensures Run(c, s0, acts', s', ANY) && Filling(s', n, 0, m)
    decreases m - j
  {
    hide Run;
    acts', s' := acts, s;
    if j < m {
      acts', s' := Add(c, s0, acts, s, Call(TestLenOk), ANY);
      acts', s' := AllPass(c, s0, acts', s', n, j + 1, m);
    }
  }

  lemma {:induction false} AllPush(c: Config, s0: State, acts: seq<Action>, s: State, n: nat, m: nat)
    returns (acts': seq<Action>, s': State)
    requires Run(c, s0, acts, s, ANY) && Filling(s, n, 0, m) && n + m <= c.cap
    ensures Run(c, s0, acts', s', ANY) && Filling(s', n + m, 0, 0)
    decreases m
  {
    hide Run;
    acts', s' := acts, s;
    if m == 0 {
    } else {
      acts', s' := Add(c, s0, acts, s, Call(Push(0)), ANY);
      acts', s' := AllPush(c, s0, acts', s', n + 1, m - 1);
    }
  }

  // Callers can fill the channel of a session whose writer is gone up to any number within
  // the capacity and limit - 1 + senders.
  lemma FilledTo(c: Config, n: nat) returns (s0: State, acts: seq<Action>, s: State)
    requires c.limit >= 1 && c.cap >= 1 && c.senders >= 1 && n <= c.cap && n <= c.limit - 1 + c.senders
    ensures Initial(s0) && Run(c, s0, acts, s, ANY) && Filling(s, n, 0, 0)
  {
    hide JustServing, Filling;
    s0, acts, s := Served(c, ANY);
    acts, s := Sent(c, s0, acts, s);
    acts, s := WriterDies(c, s0, acts, s);
    if n <= c.limit {
      acts, s := Filled(c, s0, acts, s, 0, n);
    } else {
      var m := n - (c.limit - 1);
      acts, s := Filled(c, s0, acts, s, 0, c.limit - 1);
      acts, s := AllTest(c, s0, acts, s, c.limit - 1, 0, m);
      acts, s := AllPass(c, s0, acts, s, c.limit - 1, 0, m);
      acts, s := AllPush(c, s0, acts, s, c.limit - 1, m);
    }
  }

  ghost predicate CanFill(c: Config, n: nat) {
    exists s :: Reachable(c, s) && s.tally.sentinels == 0 && |s.queue| == n
  }

  // So that is exactly how full it can be before the sentinel.
  lemma QueueFillsExactly(c: Config, n: nat)
    requires c.limit >= 1 && c.cap >= 1 && c.senders >= 1
    ensures CanFill(c, n) <==> n <= c.cap && n <= c.limit - 1 + c.senders
  {
    hide Reachable, Run;
    forall s | Reachable(c, s) && s.tally.sentinels == 0 && |s.queue| == n
      ensures n <= c.cap && n <= c.limit - 1 + c.senders
    {
      Conserved(c, s);
    }
    if n <= c.cap && n <= c.limit - 1 + c.senders {
      var s0, acts, s := FilledTo(c, n);
      RunReaches(c, s0, acts, s, ANY);
      ReachableInv(c, s);
    }
  }

  lemma Jammed(c: Config, s0: State, acts: seq<Action>, s: State) returns (acts': seq<Action>, s': State)
    requires Run(c, s0, acts, s, ANY) && Filling(s, c.cap, 0, 0)
    ensures Run(c, s0, acts', s', ANY) && Stuck(c, s')
  {
    hide Run;
    acts', s' := Add(c, s0, acts, s, Read(ReadError), ANY);
    acts', s' := Add(c, s0, acts', s', Read(StoreFlag), ANY);
  }

  // Without room, a run to a reader that is stuck on its sentinel, for every configuration.
  lemma NoRoomHangs(c: Config) returns (s: State)
    requires c.limit >= 1 && c.cap >= 1 && c.senders >= 1 && !Roomy(c)
    ensures Reachable(c, s) && Stuck(c, s)
  {
    hide Filling, Stuck;
    var s0, acts, t := FilledTo(c, c.cap);
    acts, s := Jammed(c, s0, acts, t);
  }

  // ---- no deadline -----------------------------------------------------------------------

  // The writer is inside a write that only the peer could end, since the flag keeps every
  // caller of Close from closing the connection.
  predicate StuckInWrite(c: Config, s: State) {
    && s.connector.Serving? && PastFlag(s) && s.writer.Writing? && s.waiter.Waiting? && s.closeInt
    && s.link.up && s.link.stalled && s.closing == s.holding == 0 && !c.deadline
    && s.wg == 1 && s.exitWg == 1 + if s.reader.ReaderGone? then 0 else 1
  }

  lemma {:induction false} StuckInWriteCaller(c: Config, s: State, a: CallerStep)
    requires StuckInWrite(c, s) && CallerMay(c, s, a)
    ensures StuckInWrite(c, CallerDo(c, s, a))
  {
  }

  lemma {:induction false} StuckInWriteStep(c: Config, s: State, a: Action)
    requires StuckInWrite(c, s) && Enabled(c, s, a)
    ensures StuckInWrite(c, Do(c, s, a))
  {
    hide CallerMay, CallerDo;
    if a.Call? {
      StuckInWriteCaller(c, s, a.caller);
    }
  }

  lemma {:induction false} StuckInWriteForever(c: Config, s: State, acts: seq<Action>)
    requires StuckInWrite(c, s) && Legal(c, s, acts)
    ensures StuckInWrite(c, Exec(c, s, acts))
    decreases |acts|
  {
    hide StuckInWrite, Do, Enabled;
    if acts == [] {
    } else {
      StuckInWriteStep(c, s, acts[0]);
      StuckInWriteForever(c, Do(c, s, acts[0]), acts[1..]);
    }
  }

  // Without a deadline, a run to such a write, for every configuration: the peer stops
  // reading and then sends something that cannot be read.
  lemma NoDeadlineHangs(c: Config) returns (s: State)
    requires c.limit >= 1 && c.cap >= 1 && c.senders >= 1 && !c.deadline
    ensures Reachable(c, s) && StuckInWrite(c, s)
  {
    hide Run;
    var s0, acts, t := Served(c, ANY);
    acts, t := Sent(c, s0, acts, t);
    acts, t := Add(c, s0, acts, t, Write(Take), ANY);
    acts, t := Add(c, s0, acts, t, Write(StartWrite), ANY);
    acts, t := Add(c, s0, acts, t, PeerStalls, ANY);
    acts, t := Add(c, s0, acts, t, Read(ReadError), ANY);
    acts, s := Add(c, s0, acts, t, Read(StoreFlag), ANY);
    RunReaches(c, s0, acts, s, ANY);
  }

  lemma RunReaches(c: Config, s0: State, acts: seq<Action>, s: State, r: Rules)
    requires Initial(s0) && Run(c, s0, acts, s, r)
    ensures Reachable(c, s)
  {
  }

  // ---- a dead loop -------------------------------------------------------------------------

  // A loop was recovered from a panic and returned, so the waiter waits for good.
  predicate LoopDead(s: State) {
    && s.connector.Serving? && (s.reader.ReaderDead? || s.writer.WriterDead?)
    && s.waiter.Waiting? && s.wg == 1
    && s.exitWg == (if s.reader.ReaderGone? then 0 else 1) + (if s.writer.WriterGone? then 0 else 1)
  }

  lemma {:induction false} LoopDeadCaller(c: Config, s: State, a: CallerStep)
    requires LoopDead(s) && CallerMay(c, s, a)
    ensures LoopDead(CallerDo(c, s, a)) && (s.closeInt ==> CallerDo(c, s, a).closeInt)
  {
  }

  lemma {:induction false} LoopDeadReader(c: Config, s: State, a: ReaderStep)
    requires LoopDead(s) && ReaderMay(c, s, a)
    ensures LoopDead(ReaderDo(s, a)) && (s.closeInt ==> ReaderDo(s, a).closeInt)
  {
  }

  lemma {:induction false} LoopDeadWriter(c: Config, s: State, a: WriterStep)
    requires LoopDead(s) && WriterMay(c, s, a)
    ensures LoopDead(WriterDo(s, a)) && (s.closeInt ==> WriterDo(s, a).closeInt)
  {
  }

  lemma LoopDeadStep(c: Config, s: State, a: Action)
    requires LoopDead(s) && Enabled(c, s, a)
    ensures LoopDead(Do(c, s, a)) && (s.closeInt ==> Do(c, s, a).closeInt)
  {
    hide ReaderMay, WriterMay, CallerMay, ReaderDo, WriterDo, CallerDo;
    match a
    case Dial(d) => assert false;
    case Read(r) => LoopDeadReader(c, s, r);
    case Write(w) => LoopDeadWriter(c, s, w);
    case Wait(w) => assert false;
    case Call(k) => LoopDeadCaller(c, s, k);
    case PeerStalls =>
  }

  // Nobody ever ends such a session: not its other loop, and not a Close.
  lemma {:induction false} LoopDeadForever(c: Config, s: State, acts: seq<Action>)
    requires LoopDead(s) && Legal(c, s, acts)
    ensures LoopDead(Exec(c, s, acts)) && (s.closeInt ==> Exec(c, s, acts).closeInt)
    decreases |acts|
  {
    hide LoopDead, Do, Enabled;
    if acts == [] {
    } else {
      LoopDeadStep(c, s, acts[0]);
      LoopDeadForever(c, Do(c, s, acts[0]), acts[1..]);
    }
  }

  // A run to a dead reader, for every configuration: one frame of the peer. Then a Close sets
  // the flag and takes the connection down, nobody is inside Send, and it does not help.
  lemma BadFrameHangs(c: Config) returns (s: State)
    requires c.badFrames
    ensures Reachable(c, s) && LoopDead(s) && s.reader.ReaderDead? && s.closeInt && !s.link.up && Inside(s) == 0
  {
    hide Run;
    var s0, acts, t := Served(c, ANY);
    acts, t := Add(c, s0, acts, t, Read(ReadPanic), ANY);
    acts, t := Add(c, s0, acts, t, Call(CloseSwap), ANY);
    acts, t := Add(c, s0, acts, t, Call(CloseGet), ANY);
    acts, s := Add(c, s0, acts, t, Call(CloseConn), ANY);
    RunReaches(c, s0, acts, s, ANY);
  }

  // And a run to a dead writer: one message of a caller.
  lemma BadSendHangs(c: Config) returns (s: State)
    requires c.limit >= 1 && c.cap >= 1 && c.senders >= 1 && c.badSends
    ensures Reachable(c, s) && LoopDead(s) && s.writer.WriterDead? && s.closeInt && !s.link.up && Inside(s) == 0
  {
    hide Run;
    var s0, acts, t := Served(c, ANY);
    acts, t := Sent(c, s0, acts, t);
    acts, t := Add(c, s0, acts, t, Write(Take), ANY);
    acts, t := Add(c, s0, acts, t, Write(SendPanic), ANY);
    acts, t := Add(c, s0, acts, t, Call(CloseSwap), ANY);
    acts, t := Add(c, s0, acts, t, Call(CloseGet), ANY);
    acts, s := Add(c, s0, acts, t, Call(CloseConn), ANY);
    RunReaches(c, s0, acts, s, ANY);
  }

  // ---- exactly when ------------------------------------------------------------------------

  // A closed session can hang for ever if and only if limit - 1 + senders reaches the
  // capacity, writes have no deadline, or one of its loops can die of a panic.
  lemma HangsExactly(c: Config)
    requires c.limit >= 1 && c.cap >= 1 && c.senders >= 1
    ensures CanHang(c) <==> c.limit - 1 + c.senders >= c.cap || !c.deadline || c.badFrames || c.badSends
  {
    hide Reachable, Inv, Distance, Hung;
    if Safe(c) {
      forall s | Reachable(c, s) ensures !Hung(c, s) {
        ReachableInv(c, s);
        SafeEnds(c, s);
      }
    } else {
      var s := SomeHung(c);
      assert Reachable(c, s) && Hung(c, s);
    }
  }

  lemma SafeEnds(c: Config, s: State)
    requires c.limit >= 1 && Safe(c) && Inv(c, s)
    ensures !Hung(c, s)
  {
    if Ending(s) {
      var acts := RunOn(c, s);
    }
  }

  lemma SomeHung(c: Config) returns (s: State)
    requires c.limit >= 1 && c.cap >= 1 && c.senders >= 1 && !Safe(c)
    ensures Reachable(c, s) && Hung(c, s)
  {
    hide Reachable, Legal, Exec;
    if c.badFrames || c.badSends {
      if c.badFrames {
        s := BadFrameHangs(c);
      } else {
        s := BadSendHangs(c);
      }
      forall acts | Legal(c, s, acts) ensures Ending(Exec(c, s, acts)) {
        LoopDeadForever(c, s, acts);
      }
    } else if !c.deadline {
      s := NoDeadlineHangs(c);
      forall acts | Legal(c, s, acts) ensures Ending(Exec(c, s, acts)) {
        StuckInWriteForever(c, s, acts);
      }
    } else {
      s := NoRoomHangs(c);
      forall acts | Legal(c, s, acts) ensures Ending(Exec(c, s, acts)) {
        StuckForever(c, s, acts);
      }
    }
  }

  // The limit Send tests is the package's 2000 for every node; the capacity Start gives the
  // channel is one more than 2000, or than 200 on a node named "gate".
  const SEND_QUEUE_MAX_LEN := 2000

  function NodeConfig(name: string, senders: nat, deadline: bool, badFrames: bool, badSends: bool): Config {
    Config(SEND_QUEUE_MAX_LEN, (if name == "gate" then 200 else SEND_QUEUE_MAX_LEN) + 1, senders, deadline, badFrames, badSends)
  }

  // Before the sentinel one sender fills the channel of a gate up to 201 messages and that of
  // another node up to 2000.
  lemma NodeFillsExactly(name: string, deadline: bool, badFrames: bool, badSends: bool, n: nat)
    ensures CanFill(NodeConfig(name, 1, deadline, badFrames, badSends), n) <==> n <= if name == "gate" then 201 else 2000
  {
    QueueFillsExactly(NodeConfig(name, 1, deadline, badFrames, badSends), n);
  }

  // Only a single sender on a node that is no gate, with a write deadline, which is not the
  // default, with a peer that never sends a frame that panics, and with no message that
  // panics, can never meet a session that hangs.
  lemma NodeHangsExactly(name: string, senders: nat, deadline: bool, badFrames: bool, badSends: bool)
    requires senders >= 1
    ensures CanHang(NodeConfig(name, senders, deadline, badFrames, badSends))
       <==> name == "gate" || senders >= 2 || !deadline || badFrames || badSends
  {
    HangsExactly(NodeConfig(name, senders, deadline, badFrames, badSends));
  }
}
