/** Runs in which the reports of a hosted calculator come from its own node: what is issued is what
    was voted for. */
module Voted {
  import opened Consensus
  import opened RatesNode
  import opened Protocol

  /** A report in the name of a hosted calculator was put into the queue of its host. */
  ghost predicate Hosted(s: System, r: Report)
  {
    forall i :: 0 <= i < |s.nodes| && r.acc in s.nodes[i].calculators ==>
                  ReportHash(r.acc, r.hash, r.block) in s.nodes[i].queue
  }

  ghost predicate HonestEvent(s: System, e: Event)
  {
    e.Append? ==> Hosted(s, e.report)
  }

  /** Every appended report is, at that time, one its host made; other accounts report as they like. */
  ghost predicate HonestRun(s: System, events: seq<Event>, n: nat)
    requires |s.heights| == |s.nodes|
  {
    events == [] || (HonestRun(s, events[..|events| - 1], n)
                     && HonestEvent(Run(s, events[..|events| - 1], n), events[|events| - 1]))
  }

  /** The reports a node made are for blocks it calculated, those for the last one with its result. */
  ghost predicate ReportsOwnResult(x: NodeState)
  {
    forall p :: 0 <= p < |x.queue| && x.queue[p].ReportHash? ==>
                  x.queue[p].block <= x.lastCalc && (x.queue[p].block == x.lastCalc ==> x.queue[p].hash == x.resultHash)
  }

  ghost predicate VotedOn(log: seq<Report>, seen: nat, block: nat, hash: string, n: nat)
  {
    seen <= |log| && HasQuorum(Read(log[..seen], block, n), hash, n)
  }

  /** The hash of an issue had a quorum on some prefix of the log. */
  ghost predicate WasVoted(log: seq<Report>, o: Outgoing, n: nat)
  {
    o.Issue? ==> exists seen: nat :: VotedOn(log, seen, o.block, o.hash, n)
  }

  ghost predicate AllVoted(x: NodeState, log: seq<Report>, n: nat)
  {
    forall p :: 0 <= p < |x.queue| ==> WasVoted(log, x.queue[p], n)
  }

  ghost predicate HonestInv(s: System, n: nat)
  {
    && (forall r :: r in s.log ==> Hosted(s, r))
    && (forall i :: 0 <= i < |s.nodes| ==> ReportsOwnResult(s.nodes[i]) && AllVoted(s.nodes[i], s.log, n))
  }

  lemma CatchReportsOwn(x: NodeState, irr: nat, hash: string, log: seq<Report>, n: nat)
    requires x.period > 0 && ReportsOwnResult(x)
    ensures ReportsOwnResult(Catch(x, irr, hash, log, n))
    ensures x.queue <= Catch(x, irr, hash, log, n).queue
  {
    ReportsOnly(x.calculators, hash, CalcBlock(irr, x.period));
  }

  /** The hash a node issues is the quorum hash of its view: the leader is its own calculator, whose
      report carries the node's own result. */
  lemma OwnHashHasQuorum(s: System, i: nat, seen: nat, n: nat)
    requires i < |s.nodes| && seen <= |s.log| && HonestInv(s, n)
    requires var x := s.nodes[i];
             var leader := Elect(Read(s.log[..seen], x.lastCalc, n), n);
             leader != "" && leader in x.calculators
    ensures VotedOn(s.log, seen, s.nodes[i].lastCalc, s.nodes[i].resultHash, n)
  {
    var x := s.nodes[i];
    var view := Read(s.log[..seen], x.lastCalc, n);
    var hash := ElectedHasQuorum(view, n);
    var r :| r in view && r.hash == hash && r.acc == Elect(view, n);
    ReadRows(s.log[..seen], x.lastCalc, n);
    assert r in s.log && r.block == x.lastCalc && Hosted(s, r);
    assert ReportHash(r.acc, r.hash, r.block) in x.queue;
  }

  lemma CatchKeepsVoted(s: System, i: nat, irr: nat, hash: string, seen: nat, n: nat)
    requires i < |s.nodes| && seen <= |s.log| && HonestInv(s, n) && Inv(s, n) && s.heights[i] <= irr
    ensures AllVoted(Catch(s.nodes[i], irr, hash, s.log[..seen], n), s.log, n)
  {
    var x, log := s.nodes[i], s.log[..seen];
    assert NodeInv(x, s.heights[i], s.log, n);
    var y := Catch(x, irr, hash, log, n);
    if Calculates(x, irr) {
      ReportsOnly(x.calculators, hash, CalcBlock(irr, x.period));
      assert forall p :: |x.queue| <= p < |y.queue| ==> y.queue[p].ReportHash?;
    } else if Issues(x, irr, log, n) {
      OwnHashHasQuorum(s, i, seen, n);
      assert y.queue == x.queue + [Issue(x.lastCalc, x.resultHash, Elect(Read(log, x.lastCalc, n), n))];
    } else {
      assert y == x;
    }
    forall p | 0 <= p < |y.queue| ensures WasVoted(s.log, y.queue[p], n) {
      if p < |x.queue| { assert WasVoted(s.log, x.queue[p], n); }
    }
  }

  lemma AppendKeepsVoted(x: NodeState, log: seq<Report>, r: Report, n: nat)
    requires AllVoted(x, log, n)
    ensures AllVoted(x, log + [r], n)
  {
    forall p | 0 <= p < |x.queue| ensures WasVoted(log + [r], x.queue[p], n) {
      assert WasVoted(log, x.queue[p], n);
      if x.queue[p].Issue? {
        var seen: nat :| VotedOn(log, seen, x.queue[p].block, x.queue[p].hash, n);
        assert (log + [r])[..seen] == log[..seen];
        assert VotedOn(log + [r], seen, x.queue[p].block, x.queue[p].hash, n);
      }
    }
  }

  lemma NextKeepsHonest(s: System, e: Event, n: nat)
    requires HonestInv(s, n) && Inv(s, n) && HonestEvent(s, e)
    ensures HonestInv(Next(s, e, n), n)
  {
    if Enabled(s, e) {
      var t := Next(s, e, n);
      match e
      case Irreversible(i, irr, hash, seen) =>
        CatchReportsOwn(s.nodes[i], irr, hash, s.log[..seen], n);
        CatchKeepsVoted(s, i, irr, hash, seen, n);
        forall r | r in t.log ensures Hosted(t, r) { assert Hosted(s, r); }
      case Append(r) =>
        forall i | 0 <= i < |s.nodes| ensures AllVoted(s.nodes[i], t.log, n) {
          AppendKeepsVoted(s.nodes[i], s.log, r, n);
        }
        forall q | q in t.log ensures Hosted(t, q) {
          if q in s.log { assert Hosted(s, q); }
        }
    }
  }

  lemma {:induction false} RunKeepsHonest(s: System, events: seq<Event>, n: nat)
    requires Initial(s) && HonestRun(s, events, n)
    ensures HonestInv(Run(s, events, n), n)
  {
    if events != [] {
      RunKeepsHonest(s, events[..|events| - 1], n);
      RunKeepsInv(s, events[..|events| - 1], n);
      NextKeepsHonest(Run(s, events[..|events| - 1], n), events[|events| - 1], n);
    }
  }

  /** In every honest run the hash of every issue had a quorum among the reports for its block, and no
      other hash ever has one, on this or any later state of the log. */
  lemma IssuedIsVoted(s: System, events: seq<Event>, n: nat, i: nat, p: nat, other: string)
    requires Initial(s) && HonestRun(s, events, n)
    requires i < |s.nodes| && p < |Run(s, events, n).nodes[i].queue| && Run(s, events, n).nodes[i].queue[p].Issue?
    ensures var t := Run(s, events, n);
            var o := t.nodes[i].queue[p];
            HasQuorum(Read(t.log, o.block, n), o.hash, n)
            && (HasQuorum(Read(t.log, o.block, n), other, n) ==> other == o.hash)
  {
    RunKeepsHonest(s, events, n);
    var t := Run(s, events, n);
    var o := t.nodes[i].queue[p];
    assert AllVoted(t.nodes[i], t.log, n);
    assert WasVoted(t.log, o, n);
    var seen: nat :| VotedOn(t.log, seen, o.block, o.hash, n);
    ReadGrows(t.log, seen, |t.log|, o.block, n);
    assert t.log[..|t.log|] == t.log;
    VotesGrow(Read(t.log[..seen], o.block, n), Read(t.log, o.block, n), o.hash);
    if HasQuorum(Read(t.log, o.block, n), other, n) {
      QuorumAgreement(Read(t.log, o.block, n), Read(t.log, o.block, n), o.hash, other, n);
    }
  }
}
