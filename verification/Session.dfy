// The per-connection protocol of socket/tcp/session.go under the reconnect loop of
// socket/tcp/connector.go, one atomic step at a time.
module Session {
  import opened Arith

  // The limit Send tests, the capacity Start gives the channel, how many goroutines call
  // Send, whether writes have a deadline, whether the peer may send a frame whose opening
  // panics, and whether a caller may hand Send what panics when it is encoded.
  datatype Config = Config(limit: nat, cap: nat, senders: nat, deadline: bool, badFrames: bool, badSends: bool)

  datatype Item = Sentinel | Msg(id: int)

  // A loop that panics is recovered and returns at once: it is dead, with nothing done.
  datatype Reader = Reading | ReadFailed | Flagged | Pushed | Emitted | ReaderGone | ReaderDead
  datatype Writer =
    | Taking
    | Sending      // a message taken, nothing written yet
    | Writing      // inside the write to the connection
    | Leaving | Left | WriterGone | WriterDead
  datatype Waiter = Waiting | Woken | Closed | Removed | WaiterGone
  datatype Connector =
    | Dialing      // before net.Dial returns
    | Counted      // wg.Add(1) done
    | Connected    // the session holds the connection
    | Unflagged    // Start: closeInt reset, the old channel still in place
    | Requeued     // Start: new channel made
    | Expecting    // Start: exitWg.Add(2) done
    | Serving      // goroutines started, in wg.Wait
    | Between      // wg.Wait returned
    | Stopped

  // The connection as this end sees it. A stalled one is kept open for good by a peer that
  // takes no more bytes, with the buffers on the way full.
  datatype Link = Link(up: bool, missing: bool, stalled: bool)

  // History of the current generation, the gen-th; `stopped` once the writer took the sentinel, `late`
  // the callers inside Send when the reader set the flag.
  datatype Tally = Tally(gen: nat, accepted: seq<Item>, taken: seq<Item>, sentinels: nat, events: nat, closes: nat,
                         ends: nat, stopped: bool, late: nat)

  // Callers of Send are counted by how far they are: past the flag test, past the length
  // test, and blocked in the channel operation. Callers of Close are counted from the swap of
  // the flag on: `closing` have not yet got the connection, `holding` have the present one in
  // hand, `stale` one of a generation before. `panics` counts panics in Send, which the event
  // queue recovers, and channels closed twice; `listed` tells whether the session manager has
  // the session.
  datatype State = State(
    connector: Connector, reader: Reader, writer: Writer, waiter: Waiter,
    closeInt: bool, link: Link, queue: seq<Item>, shut: bool,
    checked: nat, ready: nat, blocked: nat, closing: nat, holding: nat, stale: nat,
    listed: bool, wg: int, exitWg: int, tally: Tally, panics: nat)

  function Inside(s: State): nat {
    s.checked + s.ready + s.blocked
  }

  // Before the first Start.
  predicate Initial(s: State) {
    && s.connector.Dialing? && Quiet(s)
    && !s.closeInt && !s.link.up && s.link.missing && |s.queue| == 0 && !s.shut
    && Inside(s) == 0 && s.closing == s.holding == s.stale == 0 && !s.listed && s.wg == 0 && s.exitWg == 0
    && s.tally.gen == 0 && |s.tally.accepted| == 0 && Fresh(s) && s.panics == 0
  }

  datatype ConnectorStep =
    | DialOk | DialError | SetConn | ResetFlag | MakeQueue | ExpectTwo | Spawn | SeeEnd | Redial | Quit
  datatype ReaderStep = ReadError | ReadPanic | StoreFlag | PushSentinel | EmitClosed | ReaderDone
  datatype WriterStep =
    | Take | SkipSend | SendError | SendPanic | StartWrite | WriteOk | WriteFail | WriterClose | WriterDone
  datatype WaiterStep = Wake | CloseQueue | Deregister | EndCallback
  datatype CallerStep =
    | TestFlag | TestLenOk | TestLenFull | Push(m: int) | Block | Unblock(m: int)
    | CloseSwap | CloseGet | CloseConn | CloseStale

  // A step of one of the goroutines, or of the peer.
  datatype Action =
    | Dial(connector: ConnectorStep)
    | Read(reader: ReaderStep)
    | Write(writer: WriterStep)
    | Wait(waiter: WaiterStep)
    | Call(caller: CallerStep)
    | PeerStalls

  // ---- the connector ----------------------------------------------------------------

  predicate ConnectorMay(s: State, a: ConnectorStep)
  {
    match a
    case DialOk => s.connector.Dialing?
    case DialError => s.connector.Dialing?
    case SetConn => s.connector.Counted?
    case ResetFlag => s.connector.Connected?
    case MakeQueue => s.connector.Unflagged?
    case ExpectTwo => s.connector.Requeued?
    case Spawn => s.connector.Expecting?
    case SeeEnd => s.connector.Serving? && s.wg == 0
    case Redial => s.connector.Between?
    case Quit => s.connector.Between?
  }

  function ConnectorDo(s: State, a: ConnectorStep): State
  {
    match a
    case DialOk => s.(connector := Counted, wg := s.wg + 1)
    case DialError => s.(connector := Stopped)
    case SetConn => s.(connector := Connected, link := s.link.(up := true, missing := false, stalled := false))
    case ResetFlag => s.(connector := Unflagged, closeInt := false)
    case MakeQueue => s.(connector := Requeued, queue := [], shut := false,
                         tally := Tally(s.tally.gen + 1, [], [], 0, 0, 0, 0, false, 0))
    case ExpectTwo => s.(connector := Expecting, exitWg := s.exitWg + 2)
    case Spawn => s.(connector := Serving, listed := true, reader := Reading, writer := Taking, waiter := Waiting)
    case SeeEnd => s.(connector := Between, link := s.link.(up := false, missing := true),
                      holding := 0, stale := s.stale + s.holding)
    case Redial => s.(connector := Dialing)
    case Quit => s.(connector := Stopped)
  }

  // ---- the reader -------------------------------------------------------------------

  predicate ReaderMay(c: Config, s: State, a: ReaderStep)
  {
    match a
    case ReadError => s.reader.Reading? && !s.link.missing
    case ReadPanic => s.reader.Reading? && !s.link.missing && c.badFrames
    case StoreFlag => s.reader.ReadFailed?
    case PushSentinel => s.reader.Flagged? && |s.queue| < c.cap
    case EmitClosed => s.reader.Pushed?
    case ReaderDone => s.reader.Emitted?
  }

  function ReaderDo(s: State, a: ReaderStep): State
  {
    match a
    case ReadError => s.(reader := ReadFailed)
    case ReadPanic => s.(reader := ReaderDead)
    case StoreFlag => s.(reader := Flagged, closeInt := true, tally := s.tally.(late := Inside(s)))
    case PushSentinel => s.(reader := Pushed, queue := s.queue + [Sentinel],
                            tally := s.tally.(sentinels := s.tally.sentinels + 1))
    case EmitClosed => s.(reader := Emitted, tally := s.tally.(events := s.tally.events + 1))
    case ReaderDone => s.(reader := ReaderGone, exitWg := s.exitWg - 1)
  }

  // ---- the writer -------------------------------------------------------------------

  predicate WriterMay(c: Config, s: State, a: WriterStep)
  {
    match a
    case Take => s.writer.Taking? && s.queue != []
    // A message above the size limit is dropped without an error.
    case SkipSend => s.writer.Sending?
    case SendError => s.writer.Sending?
    case SendPanic => s.writer.Sending? && c.badSends
    case StartWrite => s.writer.Sending?
    // A write returns when the peer takes the bytes or breaks the connection, at its
    // deadline, or once the connection was closed at this end.
    case WriteOk => s.writer.Writing? && s.link.up && !s.link.stalled
    case WriteFail => s.writer.Writing? && (!s.link.up || !s.link.stalled || c.deadline)
    case WriterClose => s.writer.Leaving?
    case WriterDone => s.writer.Left?
  }

  function WriterDo(s: State, a: WriterStep): State
    requires (a.Take? ==> s.queue != [])
  {
    match a
    case Take =>
      if s.queue[0].Sentinel? then s.(writer := Leaving, queue := s.queue[1..], tally := s.tally.(stopped := true))
      else s.(writer := Sending, queue := s.queue[1..], tally := s.tally.(taken := s.tally.taken + [s.queue[0]]))
    case SkipSend => s.(writer := Taking)
    case SendError => s.(writer := Leaving)
    case SendPanic => s.(writer := WriterDead)
    case StartWrite => s.(writer := Writing)
    case WriteOk => s.(writer := Taking)
    case WriteFail => s.(writer := Leaving)
    case WriterClose => s.(writer := Left, link := s.link.(up := false))
    case WriterDone => s.(writer := WriterGone, exitWg := s.exitWg - 1)
  }

  // ---- the waiter -------------------------------------------------------------------

  predicate WaiterMay(s: State, a: WaiterStep)
  {
    match a
    case Wake => s.waiter.Waiting? && s.exitWg == 0
    case CloseQueue => s.waiter.Woken?
    case Deregister => s.waiter.Closed?
    case EndCallback => s.waiter.Removed?
  }

  function WaiterDo(s: State, a: WaiterStep): State
  {
    match a
    case Wake => s.(waiter := Woken)
    // Closing wakes every blocked sender with a panic.
    case CloseQueue => s.(waiter := Closed, shut := true, tally := s.tally.(closes := s.tally.closes + 1),
                          blocked := 0, panics := s.panics + s.blocked + One(s.shut))
    case Deregister => s.(waiter := Removed, listed := false)
    case EndCallback => s.(waiter := WaiterGone, tally := s.tally.(ends := s.tally.ends + 1), wg := s.wg - 1)
  }

  // ---- callers of Send and Close ----------------------------------------------------

  predicate CallerMay(c: Config, s: State, a: CallerStep)
  {
    match a
    case TestFlag => s.tally.gen > 0 && !s.closeInt && Inside(s) < c.senders
    case TestLenOk => s.checked > 0 && |s.queue| < c.limit
    case TestLenFull => s.checked > 0 && |s.queue| >= c.limit
    case Push(_) => s.ready > 0 && (s.shut || |s.queue| < c.cap)
    case Block => s.ready > 0 && !s.shut && |s.queue| >= c.cap
    case Unblock(_) => s.blocked > 0 && |s.queue| < c.cap
    case CloseSwap => s.tally.gen > 0 && !s.closeInt
    case CloseGet => s.closing > 0
    case CloseConn => s.holding > 0
    case CloseStale => s.stale > 0
  }

  function CallerDo(c: Config, s: State, a: CallerStep): State
    requires CallerMay(c, s, a)
  {
    match a
    case TestFlag => s.(checked := s.checked + 1)
    case TestLenOk => s.(checked := s.checked - 1, ready := s.ready + 1)
    // The complaint about a full channel names the address of the connection.
    case TestLenFull => s.(checked := s.checked - 1, panics := s.panics + One(s.link.missing))
    case Push(m) =>
      if s.shut then s.(ready := s.ready - 1, panics := s.panics + 1)
      else s.(ready := s.ready - 1, queue := s.queue + [Msg(m)],
              tally := s.tally.(accepted := s.tally.accepted + [Msg(m)]))
    case Block => s.(ready := s.ready - 1, blocked := s.blocked + 1)
    case Unblock(m) => s.(blocked := s.blocked - 1, queue := s.queue + [Msg(m)],
                           tally := s.tally.(accepted := s.tally.accepted + [Msg(m)]))
    case CloseSwap => s.(closeInt := true, closing := s.closing + 1)
    case CloseGet =>
      if s.link.missing then s.(closing := s.closing - 1)
      else s.(closing := s.closing - 1, holding := s.holding + 1)
    case CloseConn => s.(holding := s.holding - 1, link := s.link.(up := false))
    case CloseStale => s.(stale := s.stale - 1)
  }

  function Stalled(s: State): State {
    s.(link := s.link.(stalled := true))
  }

  // ---- any step ---------------------------------------------------------------------

  predicate Enabled(c: Config, s: State, a: Action) {
    match a
    case Dial(d) => ConnectorMay(s, d)
    case Read(r) => ReaderMay(c, s, r)
    case Write(w) => WriterMay(c, s, w)
    case Wait(w) => WaiterMay(s, w)
    case Call(k) => CallerMay(c, s, k)
    case PeerStalls => s.link.up && !s.link.stalled
  }

  function Do(c: Config, s: State, a: Action): State
    requires Enabled(c, s, a)
  {
    match a
    case Dial(d) => ConnectorDo(s, d)
    case Read(r) => ReaderDo(s, r)
    case Write(w) => WriterDo(s, w)
    case Wait(w) => WaiterDo(s, w)
    case Call(k) => CallerDo(c, s, k)
    case PeerStalls => Stalled(s)
  }

  // ---- runs -------------------------------------------------------------------------

  ghost predicate Legal(c: Config, s: State, acts: seq<Action>)
    decreases |acts|
  {
    acts == [] || (Enabled(c, s, acts[0]) && Legal(c, Do(c, s, acts[0]), acts[1..]))
  }

  ghost function Exec(c: Config, s: State, acts: seq<Action>): State
    requires Legal(c, s, acts)
    decreases |acts|
  {
    if acts == [] then s else Exec(c, Do(c, s, acts[0]), acts[1..])
  }

  ghost predicate Reachable(c: Config, s: State) {
    exists s0, acts :: Initial(s0) && Legal(c, s0, acts) && Exec(c, s0, acts) == s
  }

  lemma {:induction false} ExecAppend(c: Config, s: State, a: seq<Action>, b: seq<Action>)
    requires Legal(c, s, a) && Legal(c, Exec(c, s, a), b)
    ensures Legal(c, s, a + b) && Exec(c, s, a + b) == Exec(c, Exec(c, s, a), b)
    decreases |a|
  {
    if a == [] {
      assert a + b == b;
    } else {
      assert (a + b)[1..] == a[1..] + b;
      ExecAppend(c, Do(c, s, a[0]), a[1..], b);
    }
  }

  // ---- the invariant ------------------------------------------------------------------

  // No goroutine of an earlier Start can act any more.
  predicate Quiet(s: State) {
    s.reader.ReaderGone? && s.writer.WriterGone? && s.waiter.WaiterGone?
  }

  // Each generation's counters say exactly how far its goroutines are.
  predicate Counters(s: State) {
    && s.tally.sentinels == One(s.reader.Pushed? || s.reader.Emitted? || s.reader.ReaderGone?)
    && s.tally.events == One(s.reader.Emitted? || s.reader.ReaderGone?)
    && s.tally.closes == One(s.waiter.Closed? || s.waiter.Removed? || s.waiter.WaiterGone?)
    && s.tally.ends == One(s.waiter.WaiterGone?)
  }

  predicate Phases(s: State) {
    match s.connector
    case Serving => InService(s)
    case Requeued => Starting(s, 0)
    case Expecting => Starting(s, 2)
    case _ => OutOfService(s)
  }

  // The goroutines of this generation run.
  predicate InService(s: State) {
    && s.tally.gen > 0
    && s.wg == One(!s.waiter.WaiterGone?)
    && s.exitWg == One(!s.reader.ReaderGone?) + One(!s.writer.WriterGone?)
    && (!s.waiter.Waiting? ==> s.reader.ReaderGone? && s.writer.WriterGone?)
    && s.shut == (s.waiter.Closed? || s.waiter.Removed? || s.waiter.WaiterGone?)
    && (s.shut ==> s.blocked == 0)
    && !s.link.missing
    && (PastFlag(s) ==> s.closeInt)
    && (s.closeInt && !PastFlag(s) ==> Closing(s))
    && (s.writer.Left? || s.writer.WriterGone? ==> !s.link.up)
    && s.listed == !(s.waiter.Removed? || s.waiter.WaiterGone?)
    && Counters(s)
    && (s.tally.stopped ==> !s.writer.Taking? && !s.writer.Sending? && !s.writer.Writing?)
  }

  // A Close has brought the connection down, or has yet to.
  predicate Closing(s: State) {
    !s.link.up || s.closing + s.holding > 0
  }

  // Start has made the channel, but no goroutine yet.
  predicate Starting(s: State, exitWg: nat) {
    && Quiet(s) && !s.listed && s.wg == 1 && s.exitWg == exitWg && !s.shut && s.tally.gen > 0 && !s.link.missing && Fresh(s)
    && (s.closeInt ==> Closing(s))
  }

  // The goroutines of the last generation, if any, are gone, and its channel is closed.
  predicate OutOfService(s: State) {
    && Quiet(s) && !s.listed && s.exitWg == 0
    && s.wg == One(s.connector.Counted? || s.connector.Connected? || s.connector.Unflagged?)
    && s.shut == (s.tally.gen > 0) && s.blocked == 0
    && (if s.tally.gen > 0 then Counters(s) && (s.closeInt || s.connector.Unflagged?) else Fresh(s) && Inside(s) == 0)
    && (s.connector.Connected? || s.connector.Unflagged? ==> !s.link.missing)
    && (s.connector.Unflagged? && s.closeInt ==> Closing(s))
  }

  predicate Fresh(s: State) {
    s.tally.sentinels == s.tally.events == s.tally.closes == s.tally.ends == 0 && |s.tally.taken| == 0 && !s.tally.stopped
  }

  predicate PastFlag(s: State) {
    s.reader.Flagged? || s.reader.Pushed? || s.reader.Emitted? || s.reader.ReaderGone?
  }

  function Messages(q: seq<Item>): seq<Item> {
    if q == [] then [] else if q[0].Msg? then [q[0]] + Messages(q[1..]) else Messages(q[1..])
  }

  function Sentinels(q: seq<Item>): nat {
    if q == [] then 0 else One(q[0].Sentinel?) + Sentinels(q[1..])
  }

  function After(q: seq<Item>): seq<Item> {
    if q == [] then [] else if q[0].Sentinel? then q[1..] else After(q[1..])
  }

  // What was pushed behind the sentinel and is still there.
  function Leftover(s: State): seq<Item> {
    if s.tally.stopped then s.queue else After(s.queue)
  }

  // Nothing accepted is lost or reordered, and the queue stays bounded.
  predicate Flow(c: Config, s: State) {
    && Inside(s) <= c.senders
    && s.tally.accepted == s.tally.taken + Messages(s.queue)
    && Sentinels(s.queue) + One(s.tally.stopped) == s.tally.sentinels
    && |s.queue| <= c.cap
    && |s.queue| + s.ready + s.blocked + 1 <= c.limit + c.senders + s.tally.sentinels
    && (s.connector.Serving? && PastFlag(s) ==> Inside(s) + |Leftover(s)| <= s.tally.late)
    && (s.reader.ReaderDead? ==> c.badFrames) && (s.writer.WriterDead? ==> c.badSends)
  }

  predicate Inv(c: Config, s: State) {
    Phases(s) && Flow(c, s)
  }

  lemma {:induction false} QueueAppend(q: seq<Item>, x: Item)
    ensures Messages(q + [x]) == Messages(q) + if x.Msg? then [x] else []
    ensures Sentinels(q + [x]) == Sentinels(q) + One(x.Sentinel?)
    ensures After(q + [x]) == After(q) + if Sentinels(q) > 0 then [x] else []
  {
    if q == [] {
      assert q + [x] == [x] && [x][1..] == [];
    } else {
      assert (q + [x])[1..] == q[1..] + [x];
      QueueAppend(q[1..], x);
    }
  }

  lemma {:induction false} NothingAfter(q: seq<Item>)
    ensures Sentinels(q) == 0 ==> After(q) == []
  {
    if q == [] {
    } else {
      NothingAfter(q[1..]);
    }
  }

  lemma {:induction false} InvInit(c: Config, s: State)
    requires c.limit >= 1 && Initial(s)
    ensures Inv(c, s)
  {
    hide Messages, Sentinels, After, Leftover;
    QueueEmpty(s.tally.accepted, s.tally.taken, s.queue);
  }

  lemma QueueEmpty(accepted: seq<Item>, taken: seq<Item>, queue: seq<Item>)
    requires |accepted| == |taken| == |queue| == 0
    ensures accepted == taken + Messages(queue) && Sentinels(queue) == 0
  {
    assert |taken + Messages(queue)| == 0;
  }

  lemma {:induction false} ConnectorKeeps(s: State, a: ConnectorStep)
    requires Phases(s) && ConnectorMay(s, a)
    ensures Phases(ConnectorDo(s, a))
  {
  }

  // Outside service only the connector, callers and the peer can act.
  lemma OnlyInService(c: Config, s: State, a: Action)
    requires Phases(s) && Enabled(c, s, a) && (a.Read? || a.Write? || a.Wait?)
    ensures s.connector.Serving? && InService(s)
  {
    hide InService;
  }

  lemma {:induction false} ReaderKeeps(c: Config, s: State, a: ReaderStep)
    requires InService(s) && ReaderMay(c, s, a)
    ensures InService(ReaderDo(s, a)) && ReaderDo(s, a).connector == s.connector
  {
  }

  lemma {:induction false} WriterKeeps(c: Config, s: State, a: WriterStep)
    requires InService(s) && WriterMay(c, s, a)
    ensures InService(WriterDo(s, a)) && WriterDo(s, a).connector == s.connector
  {
  }

  lemma {:induction false} WaiterKeeps(s: State, a: WaiterStep)
    requires InService(s) && WaiterMay(s, a)
    ensures InService(WaiterDo(s, a)) && WaiterDo(s, a).connector == s.connector
  {
  }

  lemma {:induction false} CallerInService(c: Config, s: State, a: CallerStep)
    requires InService(s) && CallerMay(c, s, a)
    ensures InService(CallerDo(c, s, a))
  {
  }

  lemma {:induction false} CallerStarting(c: Config, s: State, a: CallerStep, exitWg: nat)
    requires Starting(s, exitWg) && CallerMay(c, s, a)
    ensures Starting(CallerDo(c, s, a), exitWg)
  {
  }

  lemma {:induction false} CallerOutOfService(c: Config, s: State, a: CallerStep)
    requires OutOfService(s) && CallerMay(c, s, a)
    ensures OutOfService(CallerDo(c, s, a))
  {
  }

  lemma CallerStays(c: Config, s: State, a: CallerStep)
    requires CallerMay(c, s, a)
    ensures CallerDo(c, s, a).connector == s.connector
  {
  }

  lemma CallerKeeps(c: Config, s: State, a: CallerStep)
    requires Phases(s) && CallerMay(c, s, a)
    ensures Phases(CallerDo(c, s, a))
  {
    hide InService, Starting, OutOfService, CallerMay, CallerDo;
    CallerStays(c, s, a);
    match s.connector
    case Serving => CallerInService(c, s, a);
    case Requeued => CallerStarting(c, s, a, 0);
    case Expecting => CallerStarting(c, s, a, 2);
    case _ => CallerOutOfService(c, s, a);
  }

  lemma {:induction false} ConnectorFlows(c: Config, s: State, a: ConnectorStep)
    requires c.limit >= 1 && Phases(s) && Flow(c, s) && ConnectorMay(s, a)
    ensures Flow(c, ConnectorDo(s, a))
  {
  }

  lemma {:induction false} ReaderFlows(c: Config, s: State, a: ReaderStep)
    requires InService(s) && Flow(c, s) && ReaderMay(c, s, a)
    ensures Flow(c, ReaderDo(s, a))
  {
    hide Messages, Sentinels, After;
    NothingAfter(s.queue);
    QueueAppend(s.queue, Sentinel);
  }

  lemma {:induction false} TakeFlows(c: Config, s: State)
    requires InService(s) && Flow(c, s) && WriterMay(c, s, Take)
    ensures Flow(c, WriterDo(s, Take))
  {
    hide Counters;
    assert s.queue == [s.queue[0]] + s.queue[1..];
  }

  lemma {:induction false} WriterFlows(c: Config, s: State, a: WriterStep)
    requires InService(s) && Flow(c, s) && WriterMay(c, s, a)
    ensures Flow(c, WriterDo(s, a))
  {
    hide Counters, Messages, Sentinels, After;
    if a.Take? {
      TakeFlows(c, s);
    }
  }

  lemma {:induction false} WaiterFlows(c: Config, s: State, a: WaiterStep)
    requires InService(s) && Flow(c, s) && WaiterMay(s, a)
    ensures Flow(c, WaiterDo(s, a))
  {
    hide Messages, Sentinels, After;
  }

  lemma {:induction false} PushFlows(c: Config, s: State, a: CallerStep)
    requires Phases(s) && Flow(c, s) && CallerMay(c, s, a) && (a.Push? || a.Unblock?)
    ensures Flow(c, CallerDo(c, s, a))
  {
    hide Messages, Sentinels, After, Counters;
    QueueAppend(s.queue, Msg(a.m));
  }

  lemma {:induction false} CountFlows(c: Config, s: State, a: CallerStep)
    requires c.limit >= 1 && Flow(c, s) && CallerMay(c, s, a)
    requires a.TestFlag? || a.TestLenOk? || a.TestLenFull? || a.Block?
    requires a.TestFlag? ==> !(s.connector.Serving? && PastFlag(s))
    ensures Flow(c, CallerDo(c, s, a))
  {
    hide Messages, Sentinels, After;
  }

  // What the flow of messages depends on.
  predicate SameFlow(s: State, t: State) {
    && t.connector == s.connector && t.reader == s.reader && t.writer == s.writer && t.queue == s.queue
    && t.checked == s.checked && t.ready == s.ready && t.blocked == s.blocked && t.tally == s.tally
  }

  lemma CloseLeaves(c: Config, s: State, a: CallerStep)
    requires CallerMay(c, s, a) && (a.CloseSwap? || a.CloseGet? || a.CloseConn? || a.CloseStale?)
    ensures SameFlow(s, CallerDo(c, s, a))
  {
  }

  lemma FlowKept(c: Config, s: State, t: State)
    requires Flow(c, s) && SameFlow(s, t)
    ensures Flow(c, t)
  {
    hide Messages, Sentinels, After;
  }

  // Once a reader has set the flag of the channel in place, nobody enters Send.
  lemma FlagShuts(c: Config, s: State)
    requires Phases(s) && CallerMay(c, s, TestFlag)
    ensures !(s.connector.Serving? && PastFlag(s))
  {
  }

  lemma CallerFlows(c: Config, s: State, a: CallerStep)
    requires c.limit >= 1 && Phases(s) && Flow(c, s) && CallerMay(c, s, a)
    ensures Flow(c, CallerDo(c, s, a))
  {
    hide Flow, CallerDo, CallerMay, Phases;
    match a
    case Push(m) => PushFlows(c, s, a);
    case Unblock(m) => PushFlows(c, s, a);
    case TestFlag =>
      FlagShuts(c, s);
      CountFlows(c, s, a);
    case TestLenOk => CountFlows(c, s, a);
    case TestLenFull => CountFlows(c, s, a);
    case Block => CountFlows(c, s, a);
    case _ =>
      CloseLeaves(c, s, a);
      FlowKept(c, s, CallerDo(c, s, a));
  }

  lemma {:induction false} StallKeeps(c: Config, s: State)
    requires Inv(c, s)
    ensures Inv(c, Stalled(s))
  {
  }

  lemma StepKeeps(c: Config, s: State, a: Action)
    requires c.limit >= 1 && Inv(c, s) && Enabled(c, s, a)
    ensures Inv(c, Do(c, s, a))
  {
    hide InService, Flow, ConnectorDo, ReaderDo, WriterDo, WaiterDo, CallerDo;
    hide ConnectorMay, ReaderMay, WriterMay, WaiterMay, CallerMay;
    if a.Read? || a.Write? || a.Wait? {
      OnlyInService(c, s, a);
    }
    match a
    case Dial(d) =>
      ConnectorKeeps(s, d);
      ConnectorFlows(c, s, d);
    case Read(r) =>
      ReaderKeeps(c, s, r);
      ReaderFlows(c, s, r);
    case Write(w) =>
      WriterKeeps(c, s, w);
      WriterFlows(c, s, w);
    case Wait(w) =>
      WaiterKeeps(s, w);
      WaiterFlows(c, s, w);
    case Call(k) =>
      CallerKeeps(c, s, k);
      CallerFlows(c, s, k);
    case PeerStalls =>
      StallKeeps(c, s);
  }
}
