/** Runs of many nodes over one append-only report log. */
module Protocol {
  import opened Consensus
  import opened RatesNode

  /** The nodes, the last irreversible height each has seen, and the log. */
  datatype System = System(nodes: seq<NodeState>, heights: seq<nat>, log: seq<Report>)

  /** A node sees an irreversible block, having read the first `seen` rows of the log so far, and
      would compute `hash`; or any report is appended to the log. */
  datatype Event =
    | Irreversible(node: nat, irr: nat, hash: string, seen: nat)
    | Append(report: Report)

  /** Irreversible heights never go down and keys only go up; everything else is free. */
  predicate Enabled(s: System, e: Event)
    requires |s.heights| == |s.nodes|
  {
    match e
    case Irreversible(i, irr, _, seen) =>
      i < |s.nodes| && s.nodes[i].period > 0 && s.heights[i] <= irr && seen <= |s.log|
    case Append(r) => s.log == [] || s.log[|s.log| - 1].key < r.key
  }

  ghost function Next(s: System, e: Event, n: nat): (t: System)
    requires |s.heights| == |s.nodes|
    ensures |t.heights| == |t.nodes| == |s.nodes|
  {
    if !Enabled(s, e) then s
    else match e
      case Irreversible(i, irr, hash, seen) =>
        s.(nodes := s.nodes[i := Catch(s.nodes[i], irr, hash, s.log[..seen], n)], heights := s.heights[i := irr])
      case Append(r) => s.(log := s.log + [r])
  }

  ghost function Run(s: System, events: seq<Event>, n: nat): (t: System)
    requires |s.heights| == |s.nodes|
    ensures |t.heights| == |t.nodes| == |s.nodes|
  {
    if events == [] then s else Next(Run(s, events[..|events| - 1], n), events[|events| - 1], n)
  }

  predicate InitialNode(x: NodeState)
  {
    x.period > 0 && x.lastCalc == 0 && x.lastSetrate == 0 && x.resultBlock == 0 && x.queue == []
  }

  ghost predicate Initial(s: System)
  {
    && |s.heights| == |s.nodes| && s.log == []
    && (forall i :: 0 <= i < |s.nodes| ==> InitialNode(s.nodes[i]) && s.heights[i] == 0)
  }

  /** No calculator is hosted by two nodes. */
  ghost predicate DisjointHosts(s: System)
  {
    forall i, j, c :: 0 <= i < |s.nodes| && 0 <= j < |s.nodes| ==>
                        c in s.nodes[i].calculators && c in s.nodes[j].calculators ==> i == j
  }

  // ---- what holds of one node ---------------------------------------------------------------

  /** The leader an issue names was elected on some prefix of the log and is hosted here. */
  ghost predicate Justified(x: NodeState, log: seq<Report>, o: Outgoing, n: nat)
  {
    o.Issue? ==> o.leader in x.calculators && exists seen: nat :: ElectedOn(log, seen, o.block, o.leader, n)
  }

  ghost predicate ElectedOn(log: seq<Report>, seen: nat, block: nat, leader: string, n: nat)
  {
    seen <= |log| && leader != "" && Elect(Read(log[..seen], block, n), n) == leader
  }

  /** Issued blocks only go up. */
  ghost predicate IssuesAscend(x: NodeState)
  {
    && (forall p :: 0 <= p < |x.queue| && x.queue[p].Issue? ==> x.queue[p].block <= x.lastSetrate)
    && (forall p, q :: 0 <= p < q < |x.queue| && x.queue[p].Issue? && x.queue[q].Issue? ==>
                         x.queue[p].block < x.queue[q].block)
  }

  /** The counters: rates are set no later than calculated, and the result is that of the last
      calculated block. */
  ghost predicate CountersOk(x: NodeState, height: nat)
  {
    && x.period > 0 && x.lastSetrate <= x.lastCalc <= CalcBlock(height, x.period)
    && x.resultBlock == x.lastCalc
  }

  ghost predicate NodeInv(x: NodeState, height: nat, log: seq<Report>, n: nat)
  {
    && CountersOk(x, height) && IssuesAscend(x)
    && (forall p :: 0 <= p < |x.queue| ==> Justified(x, log, x.queue[p], n))
  }

  lemma QuotientMonotone(a: nat, b: nat, period: nat)
    requires period > 0 && a <= b
    ensures a / period <= b / period
  {
    var p, q := a / period, b / period;
    assert period * p <= a && b < period * q + period;
    var least := if p <= q then p else q + 1;
    ProductMonotone(period, least, p);
  }

  lemma CalcBlockMonotone(a: nat, b: nat, period: nat)
    requires period > 0 && a <= b
    ensures CalcBlock(a, period) <= CalcBlock(b, period)
  {
    QuotientMonotone(a, b, period);
    var p, q := a / period, b / period;
    assert CalcBlock(a, period) == period * p && CalcBlock(b, period) == period * q;
    assert period * (q - p) >= 0;
  }

  lemma {:induction false} ReportsOnly(calculators: seq<string>, hash: string, block: nat)
    ensures forall p :: 0 <= p < |calculators| ==>
                          Reports(calculators, hash, block)[p] == ReportHash(calculators[p], hash, block)
  {
    if calculators != [] { ReportsOnly(calculators[..|calculators| - 1], hash, block); }
  }

  lemma CatchKeepsCounters(x: NodeState, height: nat, irr: nat, hash: string, log: seq<Report>, n: nat)
    requires CountersOk(x, height) && height <= irr
    ensures CountersOk(Catch(x, irr, hash, log, n), irr)
    ensures x.lastCalc >= CalcBlock(irr, x.period) ==> x.lastCalc == CalcBlock(irr, x.period)
  {
    CalcBlockMonotone(height, irr, x.period);
  }

  /** The three things a call can do: calculate, issue, or nothing. */
  predicate Calculates(x: NodeState, irr: nat)
    requires x.period > 0
  {
    x.lastCalc < CalcBlock(irr, x.period)
  }

  ghost predicate Issues(x: NodeState, irr: nat, log: seq<Report>, n: nat)
    requires x.period > 0
  {
    && !Calculates(x, irr) && x.lastSetrate < CalcBlock(irr, x.period)
    && Elect(Read(log, x.lastCalc, n), n) != "" && Elect(Read(log, x.lastCalc, n), n) in x.calculators
  }

  lemma CatchKeepsIssues(x: NodeState, height: nat, irr: nat, hash: string, seen: nat, log: seq<Report>, n: nat)
    requires NodeInv(x, height, log, n) && height <= irr && seen <= |log|
    ensures NodeInv(Catch(x, irr, hash, log[..seen], n), irr, log, n)
  {
    CatchKeepsCounters(x, height, irr, hash, log[..seen], n);
    var y := Catch(x, irr, hash, log[..seen], n);
    var current := CalcBlock(irr, x.period);
    if Calculates(x, irr) {
      ReportsOnly(x.calculators, hash, current);
      assert forall p :: |x.queue| <= p < |y.queue| ==> y.queue[p].ReportHash?;
    } else if Issues(x, irr, log[..seen], n) {
      var leader := Elect(Read(log[..seen], x.lastCalc, n), n);
      assert y.queue == x.queue + [Issue(current, x.resultHash, leader)];
      assert ElectedOn(log, seen, current, leader, n);
    } else {
      assert y == x;
    }
    forall p | 0 <= p < |y.queue| ensures Justified(y, log, y.queue[p], n) {
      if p < |x.queue| { assert Justified(x, log, x.queue[p], n); }
    }
  }

  lemma AppendKeepsIssues(x: NodeState, height: nat, log: seq<Report>, r: Report, n: nat)
    requires NodeInv(x, height, log, n)
    ensures NodeInv(x, height, log + [r], n)
  {
    forall p | 0 <= p < |x.queue| ensures Justified(x, log + [r], x.queue[p], n) {
      assert Justified(x, log, x.queue[p], n);
      if x.queue[p].Issue? {
        var seen: nat :| ElectedOn(log, seen, x.queue[p].block, x.queue[p].leader, n);
        assert (log + [r])[..seen] == log[..seen];
        assert ElectedOn(log + [r], seen, x.queue[p].block, x.queue[p].leader, n);
      }
    }
  }

  // ---- single issuer ------------------------------------------------------------------------

  ghost predicate Inv(s: System, n: nat)
  {
    && |s.heights| == |s.nodes| && KeysIncrease(s.log)
    && forall i :: 0 <= i < |s.nodes| ==> NodeInv(s.nodes[i], s.heights[i], s.log, n)
  }

  lemma NextKeepsInv(s: System, e: Event, n: nat)
    requires Inv(s, n)
    ensures Inv(Next(s, e, n), n)
    ensures forall i :: 0 <= i < |s.nodes| ==> Next(s, e, n).nodes[i].calculators == s.nodes[i].calculators
  {
    if Enabled(s, e) {
      match e
      case Irreversible(i, irr, hash, seen) =>
        CatchKeepsIssues(s.nodes[i], s.heights[i], irr, hash, seen, s.log, n);
      case Append(r) =>
        forall i | 0 <= i < |s.nodes| ensures NodeInv(s.nodes[i], s.heights[i], s.log + [r], n) {
          AppendKeepsIssues(s.nodes[i], s.heights[i], s.log, r, n);
        }
    }
  }

  lemma {:induction false} RunKeepsInv(s: System, events: seq<Event>, n: nat)
    requires Initial(s)
    ensures Inv(Run(s, events, n), n)
    ensures forall i :: 0 <= i < |s.nodes| ==> Run(s, events, n).nodes[i].calculators == s.nodes[i].calculators
  {
    if events != [] {
      RunKeepsInv(s, events[..|events| - 1], n);
      NextKeepsInv(Run(s, events[..|events| - 1], n), events[|events| - 1], n);
    }
  }

  lemma ElectedTwice(log: seq<Report>, a: nat, b: nat, block: nat, x: string, y: string, n: nat)
    requires KeysIncrease(log) && ElectedOn(log, a, block, x, n) && ElectedOn(log, b, block, y, n)
    ensures x == y
  {
    if a <= b {
      LeaderStable(log, a, b, block, n);
    } else {
      LeaderStable(log, b, a, block, n);
    }
  }

  /** In every run, whatever reports anyone appends and whenever the nodes read them, a calculation
      block is issued by at most one node, and by that one at most once. */
  lemma SingleIssuer(s: System, events: seq<Event>, n: nat, i: nat, p: nat, j: nat, q: nat)
    requires Initial(s) && DisjointHosts(s)
    requires i < |s.nodes| && j < |s.nodes|
    requires p < |Run(s, events, n).nodes[i].queue| && q < |Run(s, events, n).nodes[j].queue|
    requires var a, b := Run(s, events, n).nodes[i].queue[p], Run(s, events, n).nodes[j].queue[q];
             a.Issue? && b.Issue? && a.block == b.block
    ensures i == j && p == q
  {
    RunKeepsInv(s, events, n);
    var t := Run(s, events, n);
    var a, b := t.nodes[i].queue[p], t.nodes[j].queue[q];
    assert NodeInv(t.nodes[i], t.heights[i], t.log, n) && NodeInv(t.nodes[j], t.heights[j], t.log, n);
    assert Justified(t.nodes[i], t.log, a, n) && Justified(t.nodes[j], t.log, b, n);
    var x: nat :| ElectedOn(t.log, x, a.block, a.leader, n);
    var y: nat :| ElectedOn(t.log, y, b.block, b.leader, n);
    ElectedTwice(t.log, x, y, a.block, a.leader, b.leader, n);
    assert a.leader in s.nodes[i].calculators && a.leader in s.nodes[j].calculators;
  }

  /** In every run each node sets rates no later than it calculates and holds the result of its last
      calculated block. */
  lemma CountersInEveryRun(s: System, events: seq<Event>, n: nat, i: nat)
    requires Initial(s) && i < |s.nodes|
    ensures var x := Run(s, events, n).nodes[i]; x.lastSetrate <= x.lastCalc && x.resultBlock == x.lastCalc
  {
    RunKeepsInv(s, events, n);
    assert NodeInv(Run(s, events, n).nodes[i], Run(s, events, n).heights[i], Run(s, events, n).log, n);
  }
}
