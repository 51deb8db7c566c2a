/** Votes and results together: in runs where every node reports the hash of what it computed, the calculators
    that voted for the issued hash computed the same result. */
module Agreement {
  import opened Consensus
  import opened RatesNode
  import opened Protocol
  import opened Voted
  import opened MerkleSpec
  import opened MerkleTree
  import opened ResultHash
  import opened KeyOrder

  /** What a node computes for a block: the accounts, and the tree of their statements. */
  datatype Outcome = Outcome(accounts: seq<Account>, sum: seq<Entry>, leaves: seq<Leaf>)

  /** By node and block. */
  type Computation = (nat, nat) -> Outcome

  /** Hash and digest printing. */
  datatype Printer = Printer(h: Hasher, hex: Digest -> string)

  function HashOf(f: Printer, o: Outcome): string
    requires |o.leaves| > 0
  {
    f.hex(Root(f.h, Hashes(o.leaves)))
  }

  ghost predicate SameHexOnly(f: Printer, d: Digest, e: Digest)
  {
    f.hex(d) == f.hex(e) ==> d == e
  }

  ghost predicate InjectiveHex(f: Printer)
  {
    forall d, e :: SameHexOnly(f, d, e)
  }

  ghost predicate IsOutcome(f: Printer, o: Outcome)
  {
    IsResultTree(f.h, o.accounts, o.sum, o.leaves) && |o.leaves| > 0
  }

  /** A calculation that runs yields the hash of what the node computes for the block. */
  ghost predicate ComputedEvent(f: Printer, c: Computation, s: System, e: Event)
    requires |s.heights| == |s.nodes|
  {
    e.Irreversible? && e.node < |s.nodes| && s.nodes[e.node].period > 0 && Calculates(s.nodes[e.node], e.irr) ==>
      var b := CalcBlock(e.irr, s.nodes[e.node].period);
      IsOutcome(f, c(e.node, b)) && e.hash == HashOf(f, c(e.node, b))
  }

  ghost predicate ComputedRun(f: Printer, c: Computation, s: System, events: seq<Event>, n: nat)
    requires |s.heights| == |s.nodes|
  {
    events == [] || (ComputedRun(f, c, s, events[..|events| - 1], n)
                     && ComputedEvent(f, c, Run(s, events[..|events| - 1], n), events[|events| - 1]))
  }

  function HashIn(o: Outgoing): string
  {
    match o case ReportHash(_, hash, _) => hash case Issue(_, hash, _) => hash
  }

  function BlockIn(o: Outgoing): nat
  {
    match o case ReportHash(_, _, block) => block case Issue(block, _, _) => block
  }

  /** The entry carries the hash of what node `i` computes for its block. */
  ghost predicate CarriesOwn(f: Printer, c: Computation, i: nat, o: Outgoing)
  {
    IsOutcome(f, c(i, BlockIn(o))) && HashIn(o) == HashOf(f, c(i, BlockIn(o)))
  }

  ghost predicate AllCarryOwn(f: Printer, c: Computation, i: nat, x: NodeState)
  {
    && (forall p :: 0 <= p < |x.queue| ==> CarriesOwn(f, c, i, x.queue[p]))
    && (x.lastCalc > 0 ==> CarriesOwn(f, c, i, Issue(x.lastCalc, x.resultHash, "")))
  }

  lemma CatchCarriesOwn(f: Printer, c: Computation, i: nat, x: NodeState, height: nat, irr: nat, hash: string,
                        log: seq<Report>, n: nat)
    requires CountersOk(x, height) && height <= irr && AllCarryOwn(f, c, i, x)
    requires Calculates(x, irr) ==> CarriesOwn(f, c, i, Issue(CalcBlock(irr, x.period), hash, ""))
    ensures AllCarryOwn(f, c, i, Catch(x, irr, hash, log, n))
  {
    CatchKeepsCounters(x, height, irr, hash, log, n);
    var y, b := Catch(x, irr, hash, log, n), CalcBlock(irr, x.period);
    ReportsOnly(x.calculators, hash, b);
    forall p | 0 <= p < |y.queue| ensures CarriesOwn(f, c, i, y.queue[p]) {
      if p < |x.queue| {
        assert CarriesOwn(f, c, i, x.queue[p]);
      } else if Calculates(x, irr) {
        assert y.queue[p] == Reports(x.calculators, hash, b)[p - |x.queue|];
      }
    }
  }

  lemma {:induction false} RunCarriesOwn(f: Printer, c: Computation, s: System, events: seq<Event>, n: nat, i: nat)
    requires Initial(s) && i < |s.nodes| && ComputedRun(f, c, s, events, n)
    ensures AllCarryOwn(f, c, i, Run(s, events, n).nodes[i])
  {
    if events != [] {
      var front, e := events[..|events| - 1], events[|events| - 1];
      RunCarriesOwn(f, c, s, front, n, i);
      RunKeepsInv(s, front, n);
      var t := Run(s, front, n);
      assert NodeInv(t.nodes[i], t.heights[i], t.log, n);
      if Enabled(t, e) && e.Irreversible? && e.node == i {
        CatchCarriesOwn(f, c, i, t.nodes[i], t.heights[i], e.irr, e.hash, t.log[..e.seen], n);
      }
    }
  }

  lemma SameHashSameResult(f: Printer, a: Outcome, b: Outcome)
    requires InjectivePair(f.h) && InjectiveText(f.h) && InjectiveHex(f)
    requires IsOutcome(f, a) && IsOutcome(f, b) && (|a.leaves| == |b.leaves| || Separated(f.h))
    ensures HashOf(f, a) == HashOf(f, b) <==> SameAccounts(a.accounts, b.accounts)
  {
    assert SameHexOnly(f, Root(f.h, Hashes(a.leaves)), Root(f.h, Hashes(b.leaves)));
    EqualHashExactly(f.h, a.accounts, a.sum, a.leaves, b.accounts, b.sum, b.leaves);
  }

  /** In every run with honest reports: when node `i` issued a block, every hosted calculator whose report for the
      block is in the log voted for the issued hash if and only if its node computed the same emission and
      importance for every account as node `i`. */
  lemma VotersAgree(f: Printer, c: Computation, s: System, events: seq<Event>, n: nat, i: nat, p: nat, r: Report,
                    j: nat)
    requires Initial(s) && ComputedRun(f, c, s, events, n) && HonestRun(s, events, n)
    requires InjectivePair(f.h) && InjectiveText(f.h) && InjectiveHex(f)
    requires Separated(f.h) || |c(i, r.block).leaves| == |c(j, r.block).leaves|
    requires i < |s.nodes| && p < |Run(s, events, n).nodes[i].queue| && Run(s, events, n).nodes[i].queue[p].Issue?
    requires r in Run(s, events, n).log && r.block == Run(s, events, n).nodes[i].queue[p].block
    requires j < |s.nodes| && r.acc in Run(s, events, n).nodes[j].calculators
    ensures var b := r.block;
            r.hash == Run(s, events, n).nodes[i].queue[p].hash <==> SameAccounts(c(i, b).accounts, c(j, b).accounts)
  {
    var t := Run(s, events, n);
    RunKeepsHonest(s, events, n);
    RunCarriesOwn(f, c, s, events, n, i);
    RunCarriesOwn(f, c, s, events, n, j);
    assert Hosted(t, r);
    var q :| 0 <= q < |t.nodes[j].queue| && t.nodes[j].queue[q] == ReportHash(r.acc, r.hash, r.block);
    assert CarriesOwn(f, c, j, t.nodes[j].queue[q]) && CarriesOwn(f, c, i, t.nodes[i].queue[p]);
    SameHashSameResult(f, c(i, r.block), c(j, r.block));
  }
}
