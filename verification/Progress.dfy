/** Progress: a quorum on a hosted leader's hash is followed by an issue of the block. */
module Progress {
  import opened Consensus
  import opened RatesNode
  import opened Protocol

  ghost predicate HasIssued(x: NodeState, block: nat)
  {
    exists p :: 0 <= p < |x.queue| && x.queue[p].Issue? && x.queue[p].block == block
  }

  /** The block for which rates were set last has been issued. */
  ghost predicate LastIsIssued(x: NodeState)
  {
    x.lastSetrate > 0 ==> HasIssued(x, x.lastSetrate)
  }

  lemma QueueGrows(x: NodeState, irr: nat, hash: string, log: seq<Report>, n: nat, block: nat)
    requires x.period > 0
    ensures x.queue <= Catch(x, irr, hash, log, n).queue
    ensures HasIssued(x, block) ==> HasIssued(Catch(x, irr, hash, log, n), block)
  {
    var y := Catch(x, irr, hash, log, n);
    if HasIssued(x, block) {
      var p :| 0 <= p < |x.queue| && x.queue[p].Issue? && x.queue[p].block == block;
      assert y.queue[p] == x.queue[p];
    }
  }

  lemma CatchKeepsLastIssued(x: NodeState, height: nat, irr: nat, hash: string, log: seq<Report>, n: nat)
    requires CountersOk(x, height) && height <= irr && LastIsIssued(x)
    ensures LastIsIssued(Catch(x, irr, hash, log, n))
  {
    CatchKeepsCounters(x, height, irr, hash, log, n);
    QueueGrows(x, irr, hash, log, n, x.lastSetrate);
    var y := Catch(x, irr, hash, log, n);
    if Issues(x, irr, log, n) {
      assert y.queue[|x.queue|].Issue? && y.queue[|x.queue|].block == y.lastSetrate;
    }
  }

  lemma {:induction false} LastIssuedInEveryRun(s: System, events: seq<Event>, n: nat, i: nat)
    requires Initial(s) && i < |s.nodes|
    ensures LastIsIssued(Run(s, events, n).nodes[i])
  {
    if events != [] {
      var front, e := events[..|events| - 1], events[|events| - 1];
      LastIssuedInEveryRun(s, front, n, i);
      RunKeepsInv(s, front, n);
      var t := Run(s, front, n);
      assert NodeInv(t.nodes[i], t.heights[i], t.log, n);
      if Enabled(t, e) && e.Irreversible? && e.node == i {
        CatchKeepsLastIssued(t.nodes[i], t.heights[i], e.irr, e.hash, t.log[..e.seen], n);
      }
    }
  }

  /** The first `early` rows of the log hold a quorum on a hash whose lowest-key reporter the node hosts. */
  ghost predicate LeadsWith(x: NodeState, log: seq<Report>, early: nat, block: nat, hash: string, n: nat)
  {
    && early <= |log| && hash != ""
    && HasQuorum(Read(log[..early], block, n), hash, n)
    && LeaderOf(Read(log[..early], block, n), hash) != ""
    && LeaderOf(Read(log[..early], block, n), hash) in x.calculators
  }

  lemma LeadsLater(x: NodeState, log: seq<Report>, early: nat, seen: nat, block: nat, hash: string, n: nat)
    requires KeysIncrease(log) && LeadsWith(x, log, early, block, hash, n) && early <= seen <= |log|
    ensures Elect(Read(log[..seen], block, n), n) == LeaderOf(Read(log[..early], block, n), hash)
  {
    ReadGrows(log, early, seen, block, n);
    ReadRows(log[..seen], block, n);
    var view := Read(log[..early], block, n);
    LeaderKept(view, Read(log[..seen], block, n), hash, n);
    ElectIs(view, hash, n);
  }

  /** A node that calculated the current block, has not set rates for it and hosts the leader issues on its
      next call, whenever after the quorum that call reads the log. */
  lemma LeaderIssues(x: NodeState, height: nat, irr: nat, computed: string, log: seq<Report>, early: nat, seen: nat,
                     hash: string, n: nat)
    requires CountersOk(x, height) && height <= irr && KeysIncrease(log)
    requires x.lastSetrate < x.lastCalc == CalcBlock(irr, x.period)
    requires LeadsWith(x, log, early, x.lastCalc, hash, n) && early <= seen <= |log|
    ensures var leader := LeaderOf(Read(log[..early], x.lastCalc, n), hash);
            Catch(x, irr, computed, log[..seen], n) ==
            x.(lastSetrate := x.lastCalc, queue := x.queue + [Issue(x.lastCalc, x.resultHash, leader)])
  {
    LeadsLater(x, log, early, seen, x.lastCalc, hash, n);
  }

  /** What only grows over a run: the log, and of each node the height, the last calculated block and the queue. */
  ghost predicate Grown(s: System, t: System, i: nat)
  {
    && i < |s.nodes| == |t.nodes| && |s.heights| == |s.nodes| && |t.heights| == |t.nodes|
    && s.log <= t.log && s.heights[i] <= t.heights[i] && s.nodes[i].queue <= t.nodes[i].queue
    && s.nodes[i].lastCalc <= t.nodes[i].lastCalc
    && s.nodes[i].calculators == t.nodes[i].calculators && s.nodes[i].period == t.nodes[i].period
  }

  lemma NextGrows(s: System, e: Event, n: nat, i: nat)
    requires Inv(s, n) && i < |s.nodes|
    ensures Grown(s, Next(s, e, n), i)
  {
    if Enabled(s, e) && e.Irreversible? && e.node == i {
      assert NodeInv(s.nodes[i], s.heights[i], s.log, n);
      CatchKeepsCounters(s.nodes[i], s.heights[i], e.irr, e.hash, s.log[..e.seen], n);
      QueueGrows(s.nodes[i], e.irr, e.hash, s.log[..e.seen], n, 0);
    }
  }

  lemma {:induction false} RunGrows(s: System, events: seq<Event>, n: nat, a: nat, i: nat)
    requires Initial(s) && i < |s.nodes| && a <= |events|
    ensures Grown(Run(s, events[..a], n), Run(s, events, n), i)
    decreases |events|
  {
    if a == |events| {
      assert events[..a] == events;
    } else {
      var front := events[..|events| - 1];
      assert front[..a] == events[..a];
      RunGrows(s, front, n, a, i);
      RunKeepsInv(s, front, n);
      NextGrows(Run(s, front, n), events[|events| - 1], n, i);
    }
  }

  lemma IssuedStays(s: System, t: System, i: nat, block: nat)
    requires Grown(s, t, i) && HasIssued(s.nodes[i], block)
    ensures HasIssued(t.nodes[i], block)
  {
    var p :| 0 <= p < |s.nodes[i].queue| && s.nodes[i].queue[p].Issue? && s.nodes[i].queue[p].block == block;
    assert t.nodes[i].queue[p].block == block;
  }

  /** Event `a` of the run is a call of node `i` at the block, and comes through. */
  ghost predicate CallsAt(s: System, events: seq<Event>, n: nat, i: nat, a: nat, block: nat)
    requires |s.heights| == |s.nodes|
  {
    && a < |events| && i < |s.nodes| && events[a].Irreversible? && events[a].node == i
    && Enabled(Run(s, events[..a], n), events[a])
    && CalcBlock(events[a].irr, Run(s, events[..a], n).nodes[i].period) == block
  }

  /** A call leaves the block calculated. */
  lemma CallCalculates(s: System, events: seq<Event>, n: nat, i: nat, a: nat, block: nat)
    requires Initial(s) && CallsAt(s, events, n, i, a, block)
    ensures Run(s, events[..a + 1], n).nodes[i].lastCalc == block
  {
    var t, e := Run(s, events[..a], n), events[a];
    assert events[..a + 1][..a] == events[..a];
    RunKeepsInv(s, events[..a], n);
    assert NodeInv(t.nodes[i], t.heights[i], t.log, n);
    CatchKeepsCounters(t.nodes[i], t.heights[i], e.irr, e.hash, t.log[..e.seen], n);
  }

  /** Between two calls at the block it stays the last calculated one. */
  lemma StaysCalculated(s: System, events: seq<Event>, n: nat, i: nat, a: nat, b: nat, block: nat)
    requires Initial(s) && a < b && CallsAt(s, events, n, i, a, block) && CallsAt(s, events, n, i, b, block)
    ensures Run(s, events[..b], n).nodes[i].lastCalc == block
  {
    var t, e := Run(s, events[..b], n), events[b];
    CallCalculates(s, events, n, i, a, block);
    assert events[..b][..a + 1] == events[..a + 1];
    RunGrows(s, events[..b], n, a + 1, i);
    RunKeepsInv(s, events[..b], n);
    assert NodeInv(t.nodes[i], t.heights[i], t.log, n);
    CatchKeepsCounters(t.nodes[i], t.heights[i], e.irr, e.hash, t.log[..e.seen], n);
    CalcBlockMonotone(t.heights[i], e.irr, t.nodes[i].period);
  }

  /** The second call leaves the block issued. */
  lemma SecondCallIssues(s: System, events: seq<Event>, n: nat, i: nat, a: nat, b: nat, block: nat,
                         early: nat, hash: string)
    requires Initial(s) && a < b && block > 0
    requires CallsAt(s, events, n, i, a, block) && CallsAt(s, events, n, i, b, block)
    requires var t := Run(s, events[..b], n);
             LeadsWith(t.nodes[i], t.log, early, block, hash, n) && early <= events[b].seen
    ensures HasIssued(Run(s, events[..b + 1], n).nodes[i], block)
  {
    var t, e := Run(s, events[..b], n), events[b];
    var x := t.nodes[i];
    assert events[..b + 1][..b] == events[..b];
    StaysCalculated(s, events, n, i, a, b, block);
    RunKeepsInv(s, events[..b], n);
    LastIssuedInEveryRun(s, events[..b], n, i);
    assert NodeInv(x, t.heights[i], t.log, n);
    var y := Catch(x, e.irr, e.hash, t.log[..e.seen], n);
    if x.lastSetrate == block {
      QueueGrows(x, e.irr, e.hash, t.log[..e.seen], n, block);
    } else {
      LeaderIssues(x, t.heights[i], e.irr, e.hash, t.log, early, e.seen, hash, n);
      assert y.queue[|x.queue|].Issue? && y.queue[|x.queue|].block == block;
    }
  }

  /** In every run: when a node has called at a block and calls at it again, whatever other nodes do and other
      reports come in between, having read the log up to a quorum on a hash whose lowest-key reporter it hosts,
      then from that call on the block is issued. */
  lemma HostIssues(s: System, events: seq<Event>, n: nat, i: nat, a: nat, b: nat, block: nat, early: nat, hash: string)
    requires Initial(s) && a < b && block > 0
    requires CallsAt(s, events, n, i, a, block) && CallsAt(s, events, n, i, b, block)
    requires var t := Run(s, events[..b], n);
             LeadsWith(t.nodes[i], t.log, early, block, hash, n) && early <= events[b].seen
    ensures HasIssued(Run(s, events, n).nodes[i], block)
  {
    SecondCallIssues(s, events, n, i, a, b, block, early, hash);
    RunGrows(s, events, n, b + 1, i);
    IssuedStays(Run(s, events[..b + 1], n), Run(s, events, n), i, block);
  }

  // ---- reports ------------------------------------------------------------------------------

  /** The last irreversible height of the call, rounded down to the period of the node. */
  function BlockOf(s: System, e: Event): nat
    requires e.Irreversible? && e.node < |s.nodes| && s.nodes[e.node].period > 0
  {
    e.irr - e.irr % s.nodes[e.node].period
  }

  /** In every run a call that comes through at a block not calculated yet stores the result and adds exactly one
      report of it per hosted calculator, in their order; any other call adds no report. */
  lemma CallReports(s: System, events: seq<Event>, n: nat, e: Event)
    requires Initial(s) && Enabled(Run(s, events, n), e) && e.Irreversible?
    ensures var t := Run(s, events, n);
            var x, y, b := t.nodes[e.node], Next(t, e, n).nodes[e.node], BlockOf(t, e);
            && x.queue <= y.queue
            && (x.lastCalc < b ==>
                  && y.lastCalc == b && y.resultBlock == b && y.resultHash == e.hash
                  && |y.queue| == |x.queue| + |x.calculators|
                  && forall p :: 0 <= p < |x.calculators| ==>
                       y.queue[|x.queue| + p] == ReportHash(x.calculators[p], e.hash, b))
            && (x.lastCalc >= b ==> forall p :: |x.queue| <= p < |y.queue| ==> y.queue[p].Issue?)
  {
    var t := Run(s, events, n);
    var x := t.nodes[e.node];
    ReportsOnly(x.calculators, e.hash, CalcBlock(e.irr, x.period));
  }

  /** Every hosted calculator has reported the result of the last calculated block. */
  ghost predicate LastIsReported(x: NodeState)
  {
    x.lastCalc > 0 ==> forall c :: c in x.calculators ==> ReportHash(c, x.resultHash, x.lastCalc) in x.queue
  }

  /** In every run each node has reported its last result for every calculator it hosts. */
  lemma {:induction false} ReportedInEveryRun(s: System, events: seq<Event>, n: nat, i: nat)
    requires Initial(s) && i < |s.nodes|
    ensures LastIsReported(Run(s, events, n).nodes[i])
  {
    if events != [] {
      var front, e := events[..|events| - 1], events[|events| - 1];
      ReportedInEveryRun(s, front, n, i);
      var t := Run(s, front, n);
      if Enabled(t, e) && e.Irreversible? && e.node == i {
        CallReports(s, front, n, e);
        StillReported(t.nodes[i], Next(t, e, n).nodes[i], e.hash, BlockOf(t, e));
      }
    }
  }

  lemma StillReported(x: NodeState, y: NodeState, hash: string, b: nat)
    requires LastIsReported(x) && x.queue <= y.queue && x.calculators == y.calculators
    requires if x.lastCalc < b then
               && y.lastCalc == b && y.resultHash == hash && |y.queue| == |x.queue| + |x.calculators|
               && forall p :: 0 <= p < |x.calculators| ==>
                    y.queue[|x.queue| + p] == ReportHash(x.calculators[p], hash, b)
             else y.lastCalc == x.lastCalc && y.resultHash == x.resultHash
    ensures LastIsReported(y)
  {
    forall c | c in y.calculators && y.lastCalc > 0 ensures ReportHash(c, y.resultHash, y.lastCalc) in y.queue {
      if x.lastCalc < b {
        var p :| 0 <= p < |x.calculators| && x.calculators[p] == c;
        assert y.queue[|x.queue| + p] == ReportHash(c, hash, b);
      } else {
        assert ReportHash(c, x.resultHash, x.lastCalc) in x.queue;
      }
    }
  }
}
