// Runs from the start of a connector that break one of the two conditions and panic.
module SessionRaces {
  import opened Session
  import opened SessionPanics

  // ---- pieces of runs ----------------------------------------------------------------

  lemma FirstState() returns (s0: State)
    ensures Initial(s0)
  {
    s0 := State(Dialing, ReaderGone, WriterGone, WaiterGone, false, Link(false, true, false), [], false,
                0, 0, 0, 0, 0, 0, false, 0, 0, Tally(0, [], [], 0, 0, 0, 0, false, 0), 0);
  }

  // The first connection, up to the reset of the flag.
  lemma Unstarted(c: Config, r: Rules) returns (s0: State, acts: seq<Action>, s: State)
    ensures Initial(s0) && Run(c, s0, acts, s, r) && s.connector.Unflagged?
    ensures !s.closeInt && Open(s) && s.tally.gen == 0 && s.wg == 1 && s.exitWg == 0
    ensures Callers(s, 0, 0, 0) && s.panics == 0
  {
    hide Run;
    s0 := FirstState();
    Started(c, s0, r);
    acts, s := Add(c, s0, [], s0, Dial(DialOk), r);
    acts, s := Add(c, s0, acts, s, Dial(SetConn), r);
    acts, s := Add(c, s0, acts, s, Dial(ResetFlag), r);
  }

  // Connected, with no Close under way.
  predicate Open(s: State) {
    s.link.up && !s.link.missing && !s.link.stalled && s.closing == s.holding == 0
  }

  predicate JustServing(s: State) {
    && s.connector.Serving? && s.reader.Reading? && s.writer.Taking? && s.waiter.Waiting?
    && !s.closeInt && Open(s) && |s.queue| == 0 && !s.shut
    && Callers(s, 0, 0, 0) && s.wg == 1 && s.exitWg == 2 && s.tally.gen == 1 && s.panics == 0
  }

  // A first generation up to its wait, with every goroutine started.
  lemma Served(c: Config, r: Rules) returns (s0: State, acts: seq<Action>, s: State)
    ensures Initial(s0) && Run(c, s0, acts, s, r) && JustServing(s)
  {
    hide Run;
    s0, acts, s := Unstarted(c, r);
    acts, s := Add(c, s0, acts, s, Dial(MakeQueue), r);
    acts, s := Add(c, s0, acts, s, Dial(ExpectTwo), r);
    acts, s := Add(c, s0, acts, s, Dial(Spawn), r);
  }

  predicate Callers(s: State, checked: nat, ready: nat, blocked: nat) {
    s.checked == checked && s.ready == ready && s.blocked == blocked
  }

  predicate SameCallers(s: State, t: State) {
    t.checked == s.checked && t.ready == s.ready && t.blocked == s.blocked && t.panics == s.panics
  }

  // What the loops leave alone.
  predicate OnlyLoops(s: State, t: State) {
    && t.connector == s.connector && t.tally.gen == s.tally.gen && t.wg == s.wg && t.shut == s.shut
    && SameCallers(s, t)
  }

  // A failed read puts the sentinel on an empty channel.
  lemma SentinelQueued(c: Config, s0: State, acts: seq<Action>, s: State, r: Rules) returns (acts': seq<Action>, s': State)
    requires c.cap >= 1 && Run(c, s0, acts, s, r)
    requires s.reader.Reading? && !s.link.missing && |s.queue| == 0
    ensures Run(c, s0, acts', s', r) && OnlyLoops(s, s')
    ensures s'.reader.Pushed? && s'.writer == s.writer && s'.waiter == s.waiter && s'.exitWg == s.exitWg
    ensures s'.closeInt && |s'.queue| == 1 && s'.queue[0] == Sentinel
  {
    hide Run;
    acts', s' := Add(c, s0, acts, s, Read(ReadError), r);
    acts', s' := Add(c, s0, acts', s', Read(StoreFlag), r);
    acts', s' := Add(c, s0, acts', s', Read(PushSentinel), r);
  }

  lemma WriterEnds(c: Config, s0: State, acts: seq<Action>, s: State, r: Rules) returns (acts': seq<Action>, s': State)
    requires Run(c, s0, acts, s, r) && s.writer.Taking? && |s.queue| == 1 && s.queue[0] == Sentinel
    ensures Run(c, s0, acts', s', r) && OnlyLoops(s, s')
    ensures s'.reader == s.reader && s'.waiter == s.waiter && s'.exitWg == s.exitWg - 1 && s'.closeInt == s.closeInt
    ensures |s'.queue| == 0
  {
    hide Run;
    acts', s' := Add(c, s0, acts, s, Write(Take), r);
    acts', s' := Add(c, s0, acts', s', Write(WriterClose), r);
    acts', s' := Add(c, s0, acts', s', Write(WriterDone), r);
  }

  // Both loops end: the writer on the sentinel, the reader after its event.
  lemma LoopsEnd(c: Config, s0: State, acts: seq<Action>, s: State, r: Rules) returns (acts': seq<Action>, s': State)
    requires Run(c, s0, acts, s, r) && s.exitWg == 2
    requires s.reader.Pushed? && s.writer.Taking? && |s.queue| == 1 && s.queue[0] == Sentinel
    ensures Run(c, s0, acts', s', r) && OnlyLoops(s, s')
    ensures s'.waiter == s.waiter && s'.exitWg == 0 && s'.closeInt == s.closeInt && |s'.queue| == 0
  {
    hide Run;
    acts', s' := WriterEnds(c, s0, acts, s, r);
    acts', s' := Add(c, s0, acts', s', Read(EmitClosed), r);
    acts', s' := Add(c, s0, acts', s', Read(ReaderDone), r);
  }

  // From a failed read to the closed channel, with `late` callers past the length test.
  lemma TornDown(c: Config, s0: State, acts: seq<Action>, s: State, late: nat, r: Rules)
    returns (acts': seq<Action>, s': State)
    requires c.cap >= 1 && Run(c, s0, acts, s, r) && (r.atClose ==> late == 0)
    requires JustServing(s.(ready := 0)) && Callers(s, 0, late, 0)
    ensures Run(c, s0, acts', s', r) && s'.connector.Serving? && s'.waiter.Closed? && s'.shut && s'.closeInt
    ensures Callers(s', 0, late, 0) && |s'.queue| == 0 && s'.wg == 1 && s'.tally.gen == 1 && s'.panics == 0
  {
    hide Run;
    acts', s' := SentinelQueued(c, s0, acts, s, r);
    acts', s' := LoopsEnd(c, s0, acts', s', r);
    acts', s' := Add(c, s0, acts', s', Wait(Wake), r);
    acts', s' := Add(c, s0, acts', s', Wait(CloseQueue), r);
  }

  lemma WaitEnds(c: Config, s0: State, acts: seq<Action>, s: State, r: Rules) returns (acts': seq<Action>, s': State)
    requires Run(c, s0, acts, s, r) && s.connector.Serving? && s.waiter.Closed? && s.wg == 1
    ensures Run(c, s0, acts', s', r) && s'.connector.Dialing? && s'.shut == s.shut && s'.queue == s.queue
    ensures s'.tally.gen == s.tally.gen && SameCallers(s, s')
  {
    hide Run;
    acts', s' := Add(c, s0, acts, s, Wait(Deregister), r);
    acts', s' := Add(c, s0, acts', s', Wait(EndCallback), r);
    acts', s' := Add(c, s0, acts', s', Dial(SeeEnd), r);
    acts', s' := Add(c, s0, acts', s', Dial(Redial), r);
  }

  // From the closed channel into the next Start, up to the reset of the flag.
  lemma NextStart(c: Config, s0: State, acts: seq<Action>, s: State, r: Rules) returns (acts': seq<Action>, s': State)
    requires Run(c, s0, acts, s, r) && s.connector.Serving? && s.waiter.Closed? && s.wg == 1
    ensures Run(c, s0, acts', s', r) && s'.connector.Unflagged? && !s'.closeInt && s'.shut == s.shut
    ensures s'.queue == s.queue && s'.tally.gen == s.tally.gen && SameCallers(s, s')
  {
    hide Run;
    acts', s' := WaitEnds(c, s0, acts, s, r);
    acts', s' := Add(c, s0, acts', s', Dial(DialOk), r);
    acts', s' := Add(c, s0, acts', s', Dial(SetConn), r);
    acts', s' := Add(c, s0, acts', s', Dial(ResetFlag), r);
  }

  // ---- the two races -----------------------------------------------------------------

  // A caller past its tests when the waiter closes the channel sends on the closed channel.
  lemma FlagRace(c: Config) returns (s0: State, acts: seq<Action>, s: State)
    requires c.limit >= 1 && c.cap >= 1 && c.senders >= 1
    ensures Initial(s0) && Run(c, s0, acts, s, Rules(false, true)) && s.panics > 0
  {
    hide Run;
    var r := Rules(false, true);
    s0, acts, s := Served(c, r);
    acts, s := Add(c, s0, acts, s, Call(TestFlag), r);
    acts, s := Add(c, s0, acts, s, Call(TestLenOk), r);
    acts, s := TornDown(c, s0, acts, s, 1, r);
    acts, s := Add(c, s0, acts, s, Call(Push(0)), r);
  }

  // A caller that enters Send when the next Start has reset the flag but not yet made the
  // channel meets the closed channel of the generation before, however quick Send is.
  lemma StartRace(c: Config) returns (s0: State, acts: seq<Action>, s: State)
    requires c.limit >= 1 && c.cap >= 1 && c.senders >= 1
    ensures Initial(s0) && Run(c, s0, acts, s, Rules(true, false)) && s.panics > 0
  {
    hide Run;
    var r := Rules(true, false);
    s0, acts, s := Served(c, r);
    acts, s := TornDown(c, s0, acts, s, 0, r);
    acts, s := NextStart(c, s0, acts, s, r);
    acts, s := Add(c, s0, acts, s, Call(TestFlag), r);
    acts, s := Add(c, s0, acts, s, Call(TestLenOk), r);
    acts, s := Add(c, s0, acts, s, Call(Push(0)), r);
  }
}
