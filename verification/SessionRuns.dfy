// What every interleaving of the session protocol keeps, whatever its callers do.
module SessionRuns {
  import opened Session

  lemma {:induction false} ExecInv(c: Config, s: State, acts: seq<Action>)
    requires c.limit >= 1 && Inv(c, s) && Legal(c, s, acts)
    ensures Inv(c, Exec(c, s, acts))
    decreases |acts|
  {
    hide Inv, Do, Enabled;
    if acts == [] {
    } else {
      StepKeeps(c, s, acts[0]);
      ExecInv(c, Do(c, s, acts[0]), acts[1..]);
    }
  }

  lemma ReachableInv(c: Config, s: State)
    requires c.limit >= 1 && Reachable(c, s)
    ensures Inv(c, s)
  {
    hide Inv;
    var s0, acts :| Initial(s0) && Legal(c, s0, acts) && Exec(c, s0, acts) == s;
    InvInit(c, s0);
    ExecInv(c, s0, acts);
  }

  // ---- teardown is done once, in order ---------------------------------------------

  // In every interleaving, panics of callers included, each generation pushes one sentinel,
  // reports one closed session and closes its channel at most once, and only after both
  // loops are done; the end callback runs at most once and then everything else has run
  // exactly once; the connector's count stays in {0, 1}.
  lemma OneTeardown(c: Config, s: State)
    requires c.limit >= 1 && Reachable(c, s)
    ensures s.tally.sentinels <= 1 && s.tally.events <= 1 && s.tally.closes <= 1 && s.tally.ends <= 1
    ensures s.connector.Serving? && s.tally.closes == 1 ==> s.reader.ReaderGone? && s.writer.WriterGone? && s.shut
    ensures s.tally.ends == 1 ==> s.tally.sentinels == s.tally.events == s.tally.closes == 1
    ensures 0 <= s.wg <= 1 && 0 <= s.exitWg <= 2
  {
    ReachableInv(c, s);
  }

  // Whenever the connector is about to start a generation, or has left one, nothing of an
  // earlier one can act any more, and its channel is closed.
  lemma GenerationsApart(c: Config, s: State)
    requires c.limit >= 1 && Reachable(c, s) && !s.connector.Serving?
    ensures Quiet(s)
    ensures forall a :: Enabled(c, s, a) ==> a.Dial? || a.Call? || a.PeerStalls?
    ensures s.tally.gen > 0 && !s.connector.Requeued? && !s.connector.Expecting? ==> s.shut && s.tally.ends == 1
  {
    ReachableInv(c, s);
  }

  // The loops never find the connection missing, and never push on or take from a closed
  // channel.
  lemma ReaderConnected(c: Config, s: State)
    requires c.limit >= 1 && Reachable(c, s) && (!s.reader.ReaderGone? || !s.writer.WriterGone?)
    ensures !s.link.missing && !s.shut
  {
    ReachableInv(c, s);
  }

  // A writer that has left has closed the connection, whatever made it leave; and the session
  // manager has the session from before its loops start to after its channel is closed.
  lemma ConnectionClosed(c: Config, s: State)
    requires c.limit >= 1 && Reachable(c, s)
    ensures s.connector.Serving? && (s.writer.Left? || s.writer.WriterGone?) ==> !s.link.up
    ensures s.listed <==> s.connector.Serving? && !s.waiter.Removed? && !s.waiter.WaiterGone?
  {
    ReachableInv(c, s);
  }

  // ---- the channel -------------------------------------------------------------------

  // What Send accepted is what the writer took followed by what is queued, in order.
  lemma Conserved(c: Config, s: State)
    requires c.limit >= 1 && Reachable(c, s)
    ensures s.tally.accepted == s.tally.taken + Messages(s.queue)
    ensures |s.queue| <= c.cap
    ensures s.tally.sentinels == 0 ==> |s.queue| + 1 <= c.limit + c.senders
  {
    ReachableInv(c, s);
  }

  lemma {:induction false} NoSentinelLeft(q: seq<Item>)
    requires Sentinels(q) == 0
    ensures Messages(q) == q
  {
    if q == [] {
    } else {
      assert q == [q[0]] + q[1..];
      NoSentinelLeft(q[1..]);
    }
  }

  // A writer that stopped on the sentinel leaves behind at most what the callers inside
  // Send at the flag pushed after it; with no caller inside Send then, nothing.
  lemma SentinelDrains(c: Config, s: State)
    requires c.limit >= 1 && Reachable(c, s) && s.connector.Serving? && s.tally.stopped
    ensures s.tally.accepted == s.tally.taken + s.queue && |s.queue| <= s.tally.late
    ensures s.tally.late == 0 ==> s.tally.taken == s.tally.accepted
  {
    ReachableInv(c, s);
    NoSentinelLeft(s.queue);
  }
}
