// Exactly which steps let a caller of Send meet a closed channel.
module SessionPanics {
  import opened Session

  // ---- two conditions ----------------------------------------------------------------

  datatype Rules = Rules(atClose: bool, atStart: bool)

  // Nobody is inside Send when the waiter closes the channel (if `atClose`). Nobody enters
  // it between the reset of the flag and the new channel, unless the closed channel is so
  // full that Send turns back (if `atStart`).
  predicate Polite(c: Config, s: State, a: Action, r: Rules) {
    && (r.atClose && a == Wait(CloseQueue) ==> Inside(s) == 0)
    && (r.atStart && a == Call(TestFlag) && s.connector.Unflagged? ==> |s.queue| >= c.limit)
  }

  ghost predicate Settled(c: Config, s: State, acts: seq<Action>, r: Rules)
    requires Legal(c, s, acts)
    decreases |acts|
  {
    acts == [] || (Polite(c, s, acts[0], r) && Settled(c, Do(c, s, acts[0]), acts[1..], r))
  }

  // While the channel is closed nobody is inside Send, or is only about to be turned back.
  predicate Outside(c: Config, s: State) {
    s.shut ==>
      if s.connector.Unflagged? then s.ready == 0 && (s.checked > 0 ==> |s.queue| >= c.limit)
      else Inside(s) == 0
  }

  // What the phases say about the flag and the closed channel.
  lemma {:induction false} ShutTells(s: State)
    requires Phases(s)
    ensures s.shut ==> s.tally.gen > 0 && s.blocked == 0 && (s.closeInt || s.connector.Unflagged?)
    ensures s.shut ==> s.reader.ReaderGone? && s.writer.WriterGone?
    ensures s.link.missing ==> s.shut || Inside(s) == 0
    ensures s.waiter.Woken? ==> s.connector.Serving? && !s.shut && s.closeInt
    ensures s.connector.Unflagged? ==> !s.link.missing && (s.tally.gen > 0 ==> s.shut)
    ensures s.shut ==> !s.connector.Requeued? && !s.connector.Expecting?
  {
  }

  lemma {:induction false} OutsideCaller(c: Config, s: State, a: CallerStep)
    requires Phases(s) && CallerMay(c, s, a) && Outside(c, s) && Polite(c, s, Call(a), Rules(true, true))
    ensures CallerDo(c, s, a).panics == s.panics && Outside(c, CallerDo(c, s, a))
  {
    hide Phases;
    ShutTells(s);
  }

  lemma {:induction false} OutsideConnector(c: Config, s: State, a: ConnectorStep)
    requires Phases(s) && ConnectorMay(s, a) && Outside(c, s)
    ensures ConnectorDo(s, a).panics == s.panics && Outside(c, ConnectorDo(s, a))
  {
    hide Phases;
    ShutTells(s);
  }

  lemma {:induction false} OutsideWaiter(c: Config, s: State, a: WaiterStep)
    requires Phases(s) && WaiterMay(s, a) && Outside(c, s) && Polite(c, s, Wait(a), Rules(true, true))
    ensures WaiterDo(s, a).panics == s.panics && Outside(c, WaiterDo(s, a))
  {
    hide Phases;
    ShutTells(s);
  }

  lemma {:induction false} OutsideOther(c: Config, s: State, a: Action)
    requires Phases(s) && Enabled(c, s, a) && (a.Read? || a.Write? || a.PeerStalls?) && Outside(c, s)
    ensures Do(c, s, a).panics == s.panics && Outside(c, Do(c, s, a))
  {
    hide Phases;
    ShutTells(s);
  }

  lemma OutsideStep(c: Config, s: State, a: Action)
    requires Phases(s) && Enabled(c, s, a) && Outside(c, s) && Polite(c, s, a, Rules(true, true))
    ensures Do(c, s, a).panics == s.panics && Outside(c, Do(c, s, a))
  {
    hide Phases, Outside, Polite, ConnectorMay, ReaderMay, WriterMay, WaiterMay, CallerMay;
    hide ConnectorDo, ReaderDo, WriterDo, WaiterDo, CallerDo;
    match a
    case Dial(d) => OutsideConnector(c, s, d);
    case Wait(w) => OutsideWaiter(c, s, w);
    case Call(k) => OutsideCaller(c, s, k);
    case _ => OutsideOther(c, s, a);
  }

  // Under these conditions no run ever sends on a closed channel or closes one twice.
  lemma {:induction false} SettledNeverPanics(c: Config, s: State, acts: seq<Action>)
    requires c.limit >= 1 && Inv(c, s) && Outside(c, s)
    requires Legal(c, s, acts) && Settled(c, s, acts, Rules(true, true))
    ensures Exec(c, s, acts).panics == s.panics
    ensures Inv(c, Exec(c, s, acts)) && Outside(c, Exec(c, s, acts))
    decreases |acts|
  {
    hide Phases, Flow, Do, Outside, Enabled;
    if acts == [] {
    } else {
      StepKeeps(c, s, acts[0]);
      OutsideStep(c, s, acts[0]);
      SettledNeverPanics(c, Do(c, s, acts[0]), acts[1..]);
    }
  }

  lemma NoPanicFromStart(c: Config, s: State, acts: seq<Action>)
    requires c.limit >= 1 && Initial(s) && Legal(c, s, acts) && Settled(c, s, acts, Rules(true, true))
    ensures Exec(c, s, acts).panics == 0
    ensures Inv(c, Exec(c, s, acts)) && Outside(c, Exec(c, s, acts))
  {
    hide Phases, Flow, Do, Enabled;
    InvInit(c, s);
    SettledNeverPanics(c, s, acts);
  }

  // ---- runs under construction -------------------------------------------------------

  ghost predicate Run(c: Config, s0: State, acts: seq<Action>, s: State, r: Rules) {
    Legal(c, s0, acts) && Exec(c, s0, acts) == s && Settled(c, s0, acts, r)
  }

  lemma {:induction false} SettledAppend(c: Config, s: State, acts: seq<Action>, a: Action, r: Rules)
    requires Legal(c, s, acts) && Settled(c, s, acts, r)
    requires Enabled(c, Exec(c, s, acts), a) && Polite(c, Exec(c, s, acts), a, r)
    ensures Legal(c, s, acts + [a]) && Exec(c, s, acts + [a]) == Do(c, Exec(c, s, acts), a)
    ensures Settled(c, s, acts + [a], r)
    decreases |acts|
  {
    hide Do, Enabled, Polite;
    if acts == [] {
      assert acts + [a] == [a] && [a][1..] == [];
    } else {
      assert (acts + [a])[1..] == acts[1..] + [a];
      SettledAppend(c, Do(c, s, acts[0]), acts[1..], a, r);
    }
  }

  lemma Add(c: Config, s0: State, acts: seq<Action>, s: State, a: Action, r: Rules)
    returns (acts': seq<Action>, s': State)
    requires Run(c, s0, acts, s, r) && Enabled(c, s, a) && Polite(c, s, a, r)
    ensures s' == Do(c, s, a) && acts' == acts + [a] && Run(c, s0, acts', s', r)
  {
    hide Do, Enabled, Polite;
    SettledAppend(c, s0, acts, a, r);
    acts', s' := acts + [a], Do(c, s, a);
  }

  lemma Started(c: Config, s0: State, r: Rules)
    ensures Run(c, s0, [], s0, r)
  {
  }

  // ---- no weaker condition will do ---------------------------------------------------

  // A caller on its way to push meets the closed channel.
  lemma PushShut(c: Config, s: State) returns (acts: seq<Action>, s': State)
    requires s.shut && (s.ready > 0 || (s.checked > 0 && |s.queue| < c.limit))
    ensures Run(c, s, acts, s', Rules(true, true)) && s'.panics > s.panics
    ensures Dial(ResetFlag) !in acts && Dial(MakeQueue) !in acts
  {
    hide Run;
    var r := Rules(true, true);
    Started(c, s, r);
    acts, s' := [], s;
    if s.ready == 0 {
      acts, s' := Add(c, s, acts, s', Call(TestLenOk), r);
    }
    acts, s' := Add(c, s, acts, s', Call(Push(0)), r);
  }

  // A caller that finds a full channel complains about it when the connection is gone.
  lemma TurnedBack(c: Config, s: State) returns (acts: seq<Action>, s': State)
    requires s.connector.Serving? && s.waiter.Closed? && s.wg == 1 && s.checked > 0 && |s.queue| >= c.limit
    ensures Run(c, s, acts, s', Rules(true, true)) && s'.panics > s.panics
    ensures Dial(ResetFlag) !in acts && Dial(MakeQueue) !in acts
  {
    hide Run;
    var r := Rules(true, true);
    Started(c, s, r);
    acts, s' := Add(c, s, [], s, Wait(Deregister), r);
    acts, s' := Add(c, s, acts, s', Wait(EndCallback), r);
    acts, s' := Add(c, s, acts, s', Dial(SeeEnd), r);
    acts, s' := Add(c, s, acts, s', Call(TestLenFull), r);
  }

  // A step that breaks a condition leads to a panic, even if the run breaks none after it.
  lemma ImpolitePanics(c: Config, s: State, a: Action) returns (acts: seq<Action>)
    requires Phases(s) && Enabled(c, s, a) && !Polite(c, s, a, Rules(true, true))
    ensures var t := Do(c, s, a);
            && Legal(c, t, acts) && Settled(c, t, acts, Rules(true, true)) && Exec(c, t, acts).panics > s.panics
            && Dial(ResetFlag) !in acts && Dial(MakeQueue) !in acts
  {
    var t, u := Do(c, s, a), s;
    if t.ready > 0 || (t.checked > 0 && |t.queue| < c.limit) {
      acts, u := PushShut(c, t);
    } else if t.panics > s.panics {
      acts := [];
    } else {
      acts, u := TurnedBack(c, t);
    }
  }

  // Of the steps that can follow a run that kept the conditions, exactly those that keep
  // them are safe: no run that goes on from there and keeps them panics.
  lemma PoliteExactly(c: Config, s: State, a: Action)
    requires c.limit >= 1 && Inv(c, s) && Outside(c, s) && Enabled(c, s, a)
    ensures Polite(c, s, a, Rules(true, true))
       <==> forall acts :: Legal(c, Do(c, s, a), acts) && Settled(c, Do(c, s, a), acts, Rules(true, true)) ==>
              Exec(c, Do(c, s, a), acts).panics == s.panics
  {
    hide Phases, Flow, Do, Outside, Enabled, Polite;
    var t := Do(c, s, a);
    if Polite(c, s, a, Rules(true, true)) {
      OutsideStep(c, s, a);
      StepKeeps(c, s, a);
      forall acts | Legal(c, t, acts) && Settled(c, t, acts, Rules(true, true)) ensures Exec(c, t, acts).panics == s.panics {
        SettledNeverPanics(c, t, acts);
      }
    } else {
      var acts := ImpolitePanics(c, s, a);
    }
  }

  lemma OneMore(c: Config, s: State, a: Action, acts: seq<Action>)
    requires Enabled(c, s, a) && Legal(c, Do(c, s, a), acts)
    ensures Legal(c, s, [a] + acts) && Exec(c, s, [a] + acts) == Exec(c, Do(c, s, a), acts)
  {
    assert ([a] + acts)[1..] == acts;
  }

  // Some run from here panics before it takes the given step.
  ghost predicate CanPanic(c: Config, s: State, before: Action) {
    exists acts :: Legal(c, s, acts) && before !in acts && Exec(c, s, acts).panics > s.panics
  }

  // From the end of both loops to the next reset of the flag: nobody inside Send, the flag up.
  predicate Cleared(s: State) {
    && Inside(s) == 0 && s.closeInt
    && match s.connector
       case Serving => !s.waiter.Waiting?
       case Unflagged | Requeued | Expecting => false
       case _ => true
  }

  lemma {:induction false} ClearedCaller(c: Config, s: State, a: CallerStep)
    requires Phases(s) && Cleared(s) && CallerMay(c, s, a)
    ensures CallerDo(c, s, a).panics == s.panics && Cleared(CallerDo(c, s, a))
  {
    hide Phases;
    ShutTells(s);
  }

  lemma {:induction false} ClearedConnector(c: Config, s: State, a: ConnectorStep)
    requires Phases(s) && Cleared(s) && ConnectorMay(s, a) && a != ResetFlag
    ensures ConnectorDo(s, a).panics == s.panics && Cleared(ConnectorDo(s, a))
  {
    hide Phases;
    ShutTells(s);
  }

  lemma {:induction false} ClearedWaiter(c: Config, s: State, a: WaiterStep)
    requires Phases(s) && Cleared(s) && WaiterMay(s, a)
    ensures WaiterDo(s, a).panics == s.panics && Cleared(WaiterDo(s, a))
  {
    hide Phases;
    ShutTells(s);
  }

  lemma {:induction false} ClearedReader(c: Config, s: State, a: ReaderStep)
    requires Cleared(s) && ReaderMay(c, s, a)
    ensures ReaderDo(s, a).panics == s.panics && Cleared(ReaderDo(s, a))
  {
  }

  lemma {:induction false} ClearedWriter(c: Config, s: State, a: WriterStep)
    requires Cleared(s) && WriterMay(c, s, a)
    ensures WriterDo(s, a).panics == s.panics && Cleared(WriterDo(s, a))
  {
  }

  lemma {:induction false} ClearedStep(c: Config, s: State, a: Action)
    requires Phases(s) && Cleared(s) && Enabled(c, s, a) && a != Dial(ResetFlag)
    ensures Do(c, s, a).panics == s.panics && Cleared(Do(c, s, a))
  {
    hide Phases, CallerMay, CallerDo, ConnectorMay, ConnectorDo, WaiterMay, WaiterDo;
    hide ReaderMay, ReaderDo, WriterMay, WriterDo;
    match a
    case Call(k) => ClearedCaller(c, s, k);
    case Dial(d) => ClearedConnector(c, s, d);
    case Wait(w) => ClearedWaiter(c, s, w);
    case Read(r) => ClearedReader(c, s, r);
    case Write(w) => ClearedWriter(c, s, w);
    case PeerStalls =>
  }

  lemma {:induction false} ClearedRun(c: Config, s: State, acts: seq<Action>)
    requires c.limit >= 1 && Inv(c, s) && Cleared(s) && Legal(c, s, acts) && Dial(ResetFlag) !in acts
    ensures Exec(c, s, acts).panics == s.panics
    decreases |acts|
  {
    hide Phases, Flow, Do, Enabled, Cleared;
    if acts == [] {
    } else {
      StepKeeps(c, s, acts[0]);
      ClearedStep(c, s, acts[0]);
      ClearedRun(c, Do(c, s, acts[0]), acts[1..]);
    }
  }

  // When the waiter is about to close the channel, a caller can panic before the flag is
  // reset if and only if somebody is inside Send.
  lemma ClosingExactly(c: Config, s: State)
    requires c.limit >= 1 && Inv(c, s) && s.waiter.Woken?
    ensures CanPanic(c, s, Dial(ResetFlag)) <==> Inside(s) > 0
  {
    hide Flow, Do;
    ShutTells(s);
    if Inside(s) > 0 {
      var acts := ImpolitePanics(c, s, Wait(CloseQueue));
      OneMore(c, s, Wait(CloseQueue), acts);
    } else {
      forall acts | Legal(c, s, acts) && Dial(ResetFlag) !in acts ensures Exec(c, s, acts).panics == s.panics {
        ClearedRun(c, s, acts);
      }
    }
  }

  // Between the reset of the flag and the new channel: who is inside Send will be turned
  // back, or nobody is and nobody can enter.
  predicate Harmless(c: Config, s: State) {
    && s.connector.Unflagged? && s.ready == 0
    && (|s.queue| >= c.limit || (s.checked == 0 && (s.closeInt || Inside(s) >= c.senders)))
  }

  lemma {:induction false} HarmlessStep(c: Config, s: State, a: Action)
    requires Phases(s) && s.tally.gen > 0 && Harmless(c, s) && Enabled(c, s, a) && a != Dial(MakeQueue)
    ensures Do(c, s, a).panics == s.panics && Harmless(c, Do(c, s, a)) && Do(c, s, a).tally.gen == s.tally.gen
  {
    hide Phases;
    ShutTells(s);
  }

  lemma {:induction false} HarmlessRun(c: Config, s: State, acts: seq<Action>)
    requires c.limit >= 1 && Inv(c, s) && s.tally.gen > 0 && Harmless(c, s) && Legal(c, s, acts) && Dial(MakeQueue) !in acts
    ensures Exec(c, s, acts).panics == s.panics
    decreases |acts|
  {
    hide Phases, Flow, Do, Enabled, Harmless;
    if acts == [] {
    } else {
      StepKeeps(c, s, acts[0]);
      HarmlessStep(c, s, acts[0]);
      HarmlessRun(c, Do(c, s, acts[0]), acts[1..]);
    }
  }

  // When a later Start has reset the flag, a caller can panic before the channel is replaced
  // if and only if one is past its tests, or the closed channel lets one pass that is inside
  // Send or can still enter it.
  lemma UnflaggedExactly(c: Config, s: State)
    requires c.limit >= 1 && Inv(c, s) && s.connector.Unflagged? && s.tally.gen > 0
    ensures CanPanic(c, s, Dial(MakeQueue))
       <==> s.ready > 0
            || (|s.queue| < c.limit && (s.checked > 0 || (!s.closeInt && Inside(s) < c.senders)))
  {
    hide Flow, Do, Phases, Legal;
    ShutTells(s);
    if Harmless(c, s) {
      forall acts | Legal(c, s, acts) && Dial(MakeQueue) !in acts ensures Exec(c, s, acts).panics == s.panics {
        HarmlessRun(c, s, acts);
      }
    } else if s.ready > 0 || s.checked > 0 {
      var acts, t := PushShut(c, s);
    } else {
      var acts := ImpolitePanics(c, s, Call(TestFlag));
      OneMore(c, s, Call(TestFlag), acts);
    }
  }
}
