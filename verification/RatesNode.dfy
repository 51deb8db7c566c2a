/** A node of the rates plugin: it calculates, reports, waits for the consensus leader and issues. */
module RatesNode {
  import opened Consensus

  /** What a node puts into its transaction queue: a report for one of its calculators, or the
      statistics, rates and emission of a calculation block. */
  datatype Outgoing =
    | ReportHash(acc: string, hash: string, block: nat)
    | Issue(block: nat, hash: string, leader: string)

  /** A node's state; `calculators` lists the calculators it hosts in the order of their set. */
  datatype NodeState = NodeState(
    calculators: seq<string>,
    period: nat,
    lastCalc: nat,
    lastSetrate: nat,
    resultBlock: nat,
    resultHash: string,
    queue: seq<Outgoing>)

  const CALCULATOR_LIMIT := 100

  function CalcBlock(irr: nat, period: nat): nat
    requires period > 0
  {
    irr - irr % period
  }

  function Reports(calculators: seq<string>, hash: string, block: nat): (r: seq<Outgoing>)
    ensures |r| == |calculators|
  {
    if calculators == [] then []
    else Reports(calculators[..|calculators| - 1], hash, block)
         + [ReportHash(calculators[|calculators| - 1], hash, block)]
  }

  /** The distinct owners in the first rows of the register. */
  function FirstOwners(register: seq<string>): set<string>
  {
    set i | 0 <= i < |register| && i < CALCULATOR_LIMIT :: register[i]
  }

  /** The number of calculators a node counts. */
  function CalculatorCount(register: seq<string>): nat
  {
    |FirstOwners(register)|
  }

  /** The last multiple of the period that is not above the irreversible height. */
  lemma CalcBlockIs(irr: nat, period: nat, block: nat)
    requires period > 0
    ensures CalcBlock(irr, period) == block <==> block % period == 0 && block <= irr < block + period
  {
    DivisionUnique(CalcBlock(irr, period), period, irr / period, 0);
    if block % period == 0 && block <= irr < block + period {
      DivisionUnique(irr, period, block / period, irr - block);
    }
  }

  lemma ProductMonotone(k: nat, x: int, y: int)
    requires x <= y
    ensures k * x <= k * y
  {
  }

  lemma NotBelow(period: nat, p: nat, q: nat, x: nat)
    requires period * p <= x < period * q + period
    ensures p <= q
  {
    var least := if p <= q then p else q + 1;
    ProductMonotone(period, least, p);
  }

  /** Quotient and remainder are the only ones. */
  lemma DivisionUnique(x: nat, period: nat, q: nat, r: nat)
    requires period > 0 && x == period * q + r && r < period
    ensures x / period == q && x % period == r
  {
    var p := x / period;
    assert x == period * p + x % period;
    NotBelow(period, p, q, x);
    NotBelow(period, q, p, x);
  }

  /** Each further row of the register adds a calculator, unless its owner is known or a hundred rows were read. */
  lemma CountsNewOwners(register: seq<string>, owner: string)
    ensures CalculatorCount([]) == 0
    ensures CalculatorCount(register + [owner]) ==
            CalculatorCount(register) + if owner in register || |register| >= 100 then 0 else 1
  {
    var all := register + [owner];
    var before, now := FirstOwners(register), FirstOwners(all);
    assert forall i :: 0 <= i < |register| ==> all[i] == register[i];
    if |register| < 100 {
      assert all[|register|] == owner;
      assert now == before + {owner};
      assert owner in before <==> owner in register;
    } else {
      assert now == before;
    }
  }

  /** One call of `irreversible_block_catcher`: `hash` is the outcome of a calculation, should one run. */
  ghost function Catch(s: NodeState, irr: nat, hash: string, log: seq<Report>, n: nat): NodeState
    requires s.period > 0
  {
    var current := CalcBlock(irr, s.period);
    if s.lastCalc < current then
      s.(resultBlock := current, resultHash := hash, lastCalc := current,
         queue := s.queue + Reports(s.calculators, hash, current))
    else if s.lastSetrate < current then
      var leader := Elect(Read(log, s.lastCalc, n), n);
      if leader == "" || leader !in s.calculators then s
      else s.(lastSetrate := current, queue := s.queue + [Issue(s.resultBlock, s.resultHash, leader)])
    else s
  }

  class Node {
    const calculators: seq<string>
    const period: nat
    var lastCalcBlock: nat
    var lastSetrateBlock: nat
    var resultBlock: nat
    var resultHash: string
    var trxQueue: seq<Outgoing>

    ghost function Contents(): NodeState
      reads this
    {
      NodeState(calculators, period, lastCalcBlock, lastSetrateBlock, resultBlock, resultHash, trxQueue)
    }

    constructor (hosted: seq<string>, calculationPeriod: nat)
      ensures Contents() == NodeState(hosted, calculationPeriod, 0, 0, 0, "", [])
    {
      calculators, period := hosted, calculationPeriod;
      lastCalcBlock, lastSetrateBlock, resultBlock, resultHash, trxQueue := 0, 0, 0, "", [];
    }

    /** `report_hash`. */
    method ReportHash()
      modifies this`trxQueue
      ensures trxQueue == old(trxQueue) + Reports(calculators, resultHash, resultBlock)
    {
      for i := 0 to |calculators|
        invariant trxQueue == old(trxQueue) + Reports(calculators[..i], resultHash, resultBlock)
      {
        assert calculators[..i + 1][..i] == calculators[..i];
        trxQueue := trxQueue + [Outgoing.ReportHash(calculators[i], resultHash, resultBlock)];
      }
      assert calculators[..|calculators|] == calculators;
    }

    /** `irreversible_block_catcher`; `latency` is the age of the head block in milliseconds. */
    method IrreversibleBlockCatcher(latency: int, irrBlockNum: nat, hash: string, register: seq<string>,
                                    log: seq<Report>)
      requires period > 0
      modifies this
      ensures Contents() == if latency > 1000 then old(Contents())
                            else Catch(old(Contents()), irrBlockNum, hash, log, CalculatorCount(register))
    {
      if latency > 1000 {
        return;
      }
      var currentCalcBlockNum := irrBlockNum - irrBlockNum % period;
      if lastCalcBlock < currentCalcBlockNum {
        resultBlock, resultHash := currentCalcBlockNum, hash;
        ReportHash();
        lastCalcBlock := currentCalcBlockNum;
        return;
      }
      if lastSetrateBlock < currentCalcBlockNum {
        var leader := GetConsensusLeader(register, log, lastCalcBlock);
        if leader == "" {
          return;
        }
        if leader !in calculators {
          return;
        }
        trxQueue := trxQueue + [Issue(resultBlock, resultHash, leader)];
        lastSetrateBlock := currentCalcBlockNum;
      }
    }
  }

  /** The rows of a table read that belong to the block, up to the first that does not. */
  method ReportsForBlock(rows: seq<Report>, block: nat) returns (reports: seq<Report>)
    ensures reports == WhileBlock(rows, block)
  {
    reports := [];
    var i := 0;
    while i < |rows|
      invariant 0 <= i <= |rows| && reports + WhileBlock(rows[i..], block) == WhileBlock(rows, block)
    {
      if rows[i].block != block {
        break;
      }
      assert rows[i..][1..] == rows[i + 1..];
      reports := reports + [rows[i]];
      i := i + 1;
    }
  }

  method CountVotes(reports: seq<Report>) returns (hashVotes: map<string, nat>)
    ensures forall h :: h in hashVotes <==> Votes(reports, h) > 0
    ensures forall h :: h in hashVotes ==> hashVotes[h] == Votes(reports, h)
  {
    hashVotes := map[];
    for i := 0 to |reports|
      invariant forall h :: h in hashVotes <==> Votes(reports[..i], h) > 0
      invariant forall h :: h in hashVotes ==> hashVotes[h] == Votes(reports[..i], h)
    {
      assert reports[..i + 1][..i] == reports[..i];
      var hash := reports[i].hash;
      hashVotes := hashVotes[hash := (if hash in hashVotes then hashVotes[hash] else 0) + 1];
    }
    assert reports[..|reports|] == reports;
  }

  /** The lowest report key of a hash; keys of the size of the start value are passed over. */
  method LeaderByLowestKey(reports: seq<Report>, consensusHash: string) returns (leader: string)
    ensures leader == LeaderOf(reports, consensusHash)
  {
    var minKey := MAX_UINT32;
    leader := "";
    for i := 0 to |reports|
      invariant leader == LeaderOf(reports[..i], consensusHash)
      invariant minKey == if Lowest(reports[..i], consensusHash) == [] then MAX_UINT32
                          else Lowest(reports[..i], consensusHash)[0].key
    {
      assert reports[..i + 1][..i] == reports[..i];
      if reports[i].hash != consensusHash {
        continue;
      }
      if reports[i].key >= minKey {
        continue;
      }
      minKey := reports[i].key;
      leader := reports[i].acc;
    }
    assert reports[..|reports|] == reports;
  }

  /** `get_consensus_leader`: whatever the order in which the vote counts are looked at, the outcome is
      that of the election on the node's view. */
  method GetConsensusLeader(register: seq<string>, log: seq<Report>, lastCalcBlock: nat) returns (leader: string)
    ensures leader == Elect(Read(log, lastCalcBlock, CalculatorCount(register)), CalculatorCount(register))
    ensures var n := CalculatorCount(register);
            var view := Take(OfBlock(log, lastCalcBlock), n);
            && (leader != "" ==> exists i :: LeadingRow(view, n, i) && view[i].acc == leader)
            && (forall i :: LeadingRow(view, n, i) ==> leader == view[i].acc)
  {
    ReadIsPrefix(log, lastCalcBlock, CalculatorCount(register));
    ElectIsLeadingRow(Read(log, lastCalcBlock, CalculatorCount(register)), CalculatorCount(register));
    var currentCalcs := FirstOwners(register);
    var n := |currentCalcs|;
    var consensusMinimum := ConsensusMinimum(n);
    var reports := ReportsForBlock(Take(LowerBound(ByBlock(log), lastCalcBlock), n), lastCalcBlock);
    ReadGrows(log, |log|, |log|, lastCalcBlock, n);
    assert log[..|log|] == log;
    var hashVotes := CountVotes(reports);
    var consensusHash := "";
    var left := hashVotes.Keys;
    while left != {}
      invariant left <= hashVotes.Keys
      invariant consensusHash != "" ==> HasQuorum(reports, consensusHash, n)
      invariant forall h :: HasQuorum(reports, h, n) && h !in left ==> consensusHash == h
      decreases left
    {
      var hash :| hash in left;
      if hashVotes[hash] >= consensusMinimum {
        forall h | HasQuorum(reports, h, n) ensures h == hash { QuorumAgreement(reports, reports, h, hash, n); }
        consensusHash := hash;
      }
      left := left - {hash};
    }
    if consensusHash == "" {
      return "";
    }
    ElectIs(reports, consensusHash, n);
    leader := LeaderByLowestKey(reports, consensusHash);
  }
}
