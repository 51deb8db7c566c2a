/** The calculation of a period from the balance snapshot and the history to the payouts, in the order of
    `calculate_rates`, with what holds of its outcome. */
module Emission {
  import opened MapSum
  import opened MoneySpec
  import opened Rates
  import opened Conservation
  import opened EmissionBound
  import opened Charges
  import opened HistoryDecode
  import opened HistoryProcessor
  import HistorySpec
  import HistoryInvariants
  import Snapshot

  // ---- snapshot and history -----------------------------------------------------------------

  ghost predicate OnePerName(balances: seq<Snapshot.Record>)
  {
    forall i, j :: 0 <= i < j < |balances| ==>
                     Snapshot.Field(balances[i], "name") != Snapshot.Field(balances[j], "name")
  }

  method TakeStakes(balances: seq<Snapshot.Record>, parse: string -> int) returns (staked: Amounts, total: real)
    ensures staked == Snapshot.Staked(parse, balances) && total == Snapshot.Total(parse, balances) as real
  {
    var table := new Snapshot.StakeTable();
    table.PrepareActorIds(balances, parse);
    staked, total := table.staked, table.totalStake as real;
  }

  /** The part of the total stake that the accounts hold is all of it when every name has one record. */
  lemma WholeStake(balances: seq<Snapshot.Record>, parse: string -> int)
    requires OnePerName(balances) && Snapshot.Total(parse, balances) != 0
    ensures Sum(Snapshot.Staked(parse, balances)) / Snapshot.Total(parse, balances) as real == 1.0
  {
    Snapshot.TotalIsSum(parse, balances);
    var total := Snapshot.Total(parse, balances) as real;
    assert total / total == 1.0;
  }

  /** The reference relations as referrals. */
  function ReferralsOf(references: seq<HistorySpec.Relation>): (refs: seq<Referral>)
    requires forall i :: 0 <= i < |references| ==> references[i].height >= 0
    ensures |refs| == |references|
    ensures forall i :: 0 <= i < |refs| ==>
                          refs[i] == Referral(references[i].source, references[i].target, references[i].height)
  {
    if references == [] then []
    else
      var last := references[|references| - 1];
      ReferralsOf(references[..|references| - 1]) + [Referral(last.source, last.target, last.height)]
  }

  lemma {:induction false} ReferralsAmong(references: seq<HistorySpec.Relation>, names: set<string>)
    requires HistoryInvariants.ReferencesWithin(references, names)
    requires forall i :: 0 <= i < |references| ==> references[i].height >= 0
    ensures Among(ReferralsOf(references), names)
  {
    if references != [] {
      var front, last := references[..|references| - 1], references[|references| - 1];
      assert HistoryInvariants.ReferenceWithin(last, names);
      forall i | 0 <= i < |front| ensures HistoryInvariants.ReferenceWithin(front[i], names) {
        assert front[i] == references[i];
      }
      ReferralsAmong(front, names);
    }
  }

  /** The history machine before a history: the accounts of the snapshot and nothing else. */
  function Start(snapshot: set<string>): HistorySpec.State
  {
    HistorySpec.State(map a | a in snapshot :: HistorySpec.FromBalance, map[], [], [], [], [], [], [])
  }

  /** The state of the history machine after a history over the accounts of the snapshot. */
  function After(parsers: Parsers, calcBlock: int, snapshot: set<string>, trxs: seq<Trx>): HistorySpec.State
  {
    HistorySpec.Run(HistorySpec.BlockLimits(calcBlock), Start(snapshot), DecodeAll(parsers, trxs))
  }

  ghost predicate IsReferrals(refs: seq<Referral>, references: seq<HistorySpec.Relation>)
  {
    |refs| == |references| &&
    forall i :: 0 <= i < |refs| ==>
                  && refs[i].source == references[i].source && refs[i].target == references[i].target
                  && refs[i].height == references[i].height
  }

  /** The accounts, contents and referrals of a history over the accounts of the snapshot. */
  method ReadHistory(parsers: Parsers, calcBlock: int, snapshot: set<string>, trxs: seq<Trx>)
    returns (names: set<string>, content: set<string>, refs: seq<Referral>)
    ensures snapshot <= names && Among(refs, names)
    ensures names == After(parsers, calcBlock, snapshot, trxs).accounts.Keys
    ensures content == After(parsers, calcBlock, snapshot, trxs).content.Keys
    ensures IsReferrals(refs, After(parsers, calcBlock, snapshot, trxs).references)
  {
    var dp := new DataProcessor(calcBlock, snapshot);
    dp.SetBlockLimits();
    ghost var start := dp.Contents();
    dp.ProcessTransactionHistory(parsers, trxs);
    HistoryInvariants.AccountsGrow(HistorySpec.BlockLimits(calcBlock), start, DecodeAll(parsers, trxs));
    names, content := dp.accounts.Keys, dp.content.Keys;
    forall i | 0 <= i < |dp.referenceRelations| ensures dp.referenceRelations[i].height >= 0 {
      assert HistoryInvariants.ReferenceWithin(dp.referenceRelations[i], names);
    }
    ReferralsAmong(dp.referenceRelations, names);
    refs := ReferralsOf(dp.referenceRelations);
  }

  /** No action of the history used an unknown name as actor and content at once. */
  ghost predicate Unconfused(parsers: Parsers, calcBlock: int, snapshot: set<string>, trxs: seq<Trx>)
  {
    HistoryInvariants.NoneConfuses(HistorySpec.BlockLimits(calcBlock), Start(snapshot), DecodeAll(parsers, trxs))
  }

  /** For a period whose accounts and contents are those of the history: without a confused name everything
      earned is charged if and only if every earner is a real account. */
  lemma UnconfusedChargeable(parsers: Parsers, calcBlock: int, snapshot: set<string>, trxs: seq<Trx>,
                             round: Rounding, p: Period, table: Amounts)
    requires Nearest(round) && p.importance.Keys <= p.names
    requires p.names <= After(parsers, calcBlock, snapshot, trxs).accounts.Keys
    requires p.content <= After(parsers, calcBlock, snapshot, trxs).content.Keys
    requires Unconfused(parsers, calcBlock, snapshot, trxs)
    ensures AllChargeable(p.accounts, p.content, Current(round, p, table)) <==>
            OnlyReal(p.accounts, Current(round, p, table))
  {
    HistoryInvariants.DisjointExactly(HistorySpec.BlockLimits(calcBlock), Start(snapshot), DecodeAll(parsers, trxs));
    DisjointChargeable(round, p, table);
  }

  // ---- importance and payout ----------------------------------------------------------------

  /** What the steps before the emission leave behind, `plain` being the importance before referrals. */
  ghost predicate HasImportance(p: Processor, round: Rounding, names: set<string>, staked: Amounts, total: real,
                                social: Amounts, transfer: Amounts, shares: Shares, refs: seq<Referral>, plain: Amounts)
    requires total != 0.0
    reads p
  {
    && p.accounts == names
    && IsImportance(round, names, Effective(shares), social, transfer, staked, total, plain)
    && p.importance == ReferAll(plain, refs)
  }

  lemma ImportanceFromStakes(round: Rounding, names: set<string>, staked: Amounts, total: real,
                             social: Amounts, transfer: Amounts, s: Shares, stakeRate: Amounts, importance: Amounts)
    requires total != 0.0
    requires stakeRate == map a | a in names :: StakeRate(round, staked, total, a)
    requires importance == map a | a in names :: Importance(round, s, At(social, a), At(transfer, a), At(stakeRate, a))
    ensures IsImportance(round, names, s, social, transfer, staked, total, importance)
  {
  }

  method ImportanceAndReferrals(p: Processor, round: Rounding, shares: Shares, refs: seq<Referral>)
    returns (ghost plain: Amounts)
    requires p.referal == map[] && p.referalBonus == map[]
    modifies p`importance, p`referal, p`referalBonus
    ensures plain == map a | a in p.accounts ::
              Importance(round, Effective(shares), At(p.socialRate, a), At(p.transferRate, a), At(p.stakeRate, a))
    ensures p.importance == ReferAll(plain, refs)
  {
    p.CalculateImportance(round, shares);
    plain := p.importance;
    p.CalculateReferrals(refs);
  }

  method CalculateAllImportance(round: Rounding, names: set<string>, staked: Amounts, total: real,
                                social: Amounts, transfer: Amounts, shares: Shares, refs: seq<Referral>)
    returns (finite: bool, p: Processor, ghost plain: Amounts)
    ensures fresh(p) && p.accounts == names && (finite <==> total != 0.0 || names == {})
    ensures total != 0.0 ==> HasImportance(p, round, names, staked, total, social, transfer, shares, refs, plain)
  {
    p := new Processor(names, staked, total, social, transfer);
    plain := map[];
    finite := p.CalculateStakeRates(round);
    if !finite {
      return;
    }
    plain := ImportanceAndReferrals(p, round, shares, refs);
    if total != 0.0 {
      ImportanceFromStakes(round, names, staked, total, social, transfer, Effective(shares), p.stakeRate, plain);
    }
  }

  /** Both totals are conserved, to the last unit. */
  ghost predicate Conserved(p: Processor)
    reads p
  {
    && Sum(Reals(p.currentEmission)) == p.realResultingEmission as real
    && Sum(Reals(p.currentCumulative)) == (p.fullPrevEmission + p.realResultingEmission) as real
  }

  method PayOut(p: Processor, round: Rounding, previous: Grid, library: Library)
    requires Nearest(round)
    modifies p`accounts, p`prevCumulative, p`currentEmission, p`currentCumulative, p`targetEmission, p`emissionLimit,
             p`resultingEmission, p`fullPrevEmission, p`realResultingEmission
    ensures p.accounts == old(p.accounts) + previous.Keys
    ensures p.resultingEmission == Resulting(round, library, p.fullPrevEmission)
    ensures IsPaid(round, p.importance, p.accounts, p.resultingEmission, p.currentEmission)
    ensures Conserved(p)
  {
    p.CalculateEmission(round, previous, library);
    EmissionConservation(round, p.accounts, p.importance, previous, p.resultingEmission, p.currentEmission,
                         p.currentCumulative, p.fullPrevEmission, p.realResultingEmission);
    RealResultingIsSum(round, p.currentEmission);
  }

  /** The emission paid is within the bound around what is due. */
  ghost predicate PaidWithinBound(p: Processor, names: set<string>, staked: Amounts, total: real, social: Amounts,
                                  transfer: Amounts, shares: Shares, refs: seq<Referral>, plain: Amounts)
    requires total != 0.0
    reads p
  {
    Near(Sum(Reals(p.currentEmission)),
         Times(p.resultingEmission as real)(TotalDue(Effective(shares), social, transfer, staked, total, plain, refs)),
         Coarse(|names|) + Slack(p.resultingEmission, Fine(|names|)))
  }

  lemma PaidIsWithinBound(p: Processor, round: Rounding, names: set<string>, staked: Amounts, total: real,
                          social: Amounts, transfer: Amounts, shares: Shares, refs: seq<Referral>, plain: Amounts)
    requires Nearest(round) && shares.social >= 0.0 && shares.transfer >= 0.0 && total != 0.0
    requires staked.Keys <= names && social.Keys <= names && transfer.Keys <= names <= p.accounts && Among(refs, names)
    requires IsImportance(round, names, Effective(shares), social, transfer, staked, total, plain)
    requires IsPaid(round, ReferAll(plain, refs), p.accounts, p.resultingEmission, p.currentEmission)
    ensures PaidWithinBound(p, names, staked, total, social, transfer, shares, refs, plain)
  {
    EmissionWithinBound(round, names, Effective(shares), social, transfer, staked, total, plain, refs,
                        p.accounts, p.resultingEmission, p.currentEmission);
  }

  // ---- signs --------------------------------------------------------------------------------

  /** Stakes, rates and shares are not negative and there is some stake. */
  ghost predicate NonNegativeInputs(staked: Amounts, total: real, social: Amounts, transfer: Amounts)
  {
    NonNegative(staked) && NonNegative(social) && NonNegative(transfer) && total > 0.0
  }

  lemma PrintedNonNegative(round: Rounding, x: real)
    requires Nearest(round) && x >= 0.0
    ensures Printed10(round, x) >= 0.0
  {
    NearNonNegative(round, x * 10_000_000_000.0);
  }

  lemma DueNonNegative(s: Shares, social: real, transfer: real, stake: real)
    requires SharesInRange(s) && social >= 0.0 && transfer >= 0.0 && stake >= 0.0
    ensures Due(s, social, transfer, stake) >= 0.0
  {
    ProductNonNegative(social, s.social);
    ProductNonNegative(transfer, s.transfer);
    ProductNonNegative(stake, StakeShare(s));
  }

  lemma QuotientNonNegative(x: real, y: real)
    requires x >= 0.0 && y > 0.0
    ensures x / y >= 0.0
  {
  }

  /** Then no importance is negative, before or after the referrals. */
  lemma ImportanceNonNegative(round: Rounding, names: set<string>, s: Shares, social: Amounts, transfer: Amounts,
                              staked: Amounts, total: real, plain: Amounts, refs: seq<Referral>)
    requires Nearest(round) && SharesInRange(s) && NonNegativeInputs(staked, total, social, transfer)
    requires IsImportance(round, names, s, social, transfer, staked, total, plain)
    ensures NonNegative(plain) && NonNegative(ReferAll(plain, refs))
  {
    forall a | a in names ensures plain[a] >= 0.0 {
      QuotientNonNegative(At(staked, a), total);
      PrintedNonNegative(round, At(staked, a) / total);
      var stake := StakeRate(round, staked, total, a);
      DueNonNegative(s, At(social, a), At(transfer, a), stake);
      PrintedNonNegative(round, Due(s, At(social, a), At(transfer, a), stake));
    }
    ReferralsNonNegative(plain, refs);
  }

  lemma PaidNonNegative(round: Rounding, importance: Amounts, names: set<string>, resulting: int, current: Grid)
    requires Nearest(round) && NonNegative(importance) && resulting >= 0
    requires IsPaid(round, importance, names, resulting, current)
    ensures NonNegativeUnits(current)
  {
    forall a | a in current ensures current[a] >= 0 {
      EarnsNonNegative(round, resulting, At(importance, a));
    }
  }

  /** No importance is negative, and nothing that is paid if the resulting emission is not. */
  ghost predicate SignsKept(p: Processor, plain: Amounts)
    reads p
  {
    && NonNegative(plain) && NonNegative(p.importance)
    && (p.resultingEmission >= 0 ==> NonNegativeUnits(p.currentEmission))
  }

  lemma SignsAreKept(p: Processor, round: Rounding, names: set<string>, staked: Amounts, total: real, social: Amounts,
                     transfer: Amounts, shares: Shares, refs: seq<Referral>, plain: Amounts)
    requires Nearest(round) && shares.social >= 0.0 && shares.transfer >= 0.0
    requires NonNegativeInputs(staked, total, social, transfer)
    requires IsImportance(round, names, Effective(shares), social, transfer, staked, total, plain)
    requires p.importance == ReferAll(plain, refs)
    requires IsPaid(round, p.importance, p.accounts, p.resultingEmission, p.currentEmission)
    ensures SignsKept(p, plain)
  {
    ImportanceNonNegative(round, names, Effective(shares), social, transfer, staked, total, plain, refs);
    if p.resultingEmission >= 0 {
      PaidNonNegative(round, p.importance, p.accounts, p.resultingEmission, p.currentEmission);
    }
  }

  // ---- the whole calculation ----------------------------------------------------------------

  /** What holds of the payouts when there is some stake. */
  ghost predicate HasPayouts(p: Processor, round: Rounding, names: set<string>, staked: Amounts, total: real,
                             social: Amounts, transfer: Amounts, shares: Shares, refs: seq<Referral>, plain: Amounts)
    requires total != 0.0
    reads p
  {
    && IsImportance(round, names, Effective(shares), social, transfer, staked, total, plain)
    && PaidWithinBound(p, names, staked, total, social, transfer, shares, refs, plain)
    && (NonNegativeInputs(staked, total, social, transfer) ==> SignsKept(p, plain))
  }

  /** From stakes, rates and referrals to the payouts. Without any stake the outcome is no number, unless there
      are no accounts either. */
  method CalculatePayouts(round: Rounding, names: set<string>, staked: Amounts, total: real, social: Amounts,
                          transfer: Amounts, shares: Shares, refs: seq<Referral>, previous: Grid, library: Library)
    returns (finite: bool, p: Processor, ghost plain: Amounts)
    requires Nearest(round) && shares.social >= 0.0 && shares.transfer >= 0.0
    requires staked.Keys <= names && social.Keys <= names && transfer.Keys <= names && Among(refs, names)
    ensures finite <==> total != 0.0 || names == {}
    ensures finite ==> p.accounts == names + previous.Keys && Conserved(p)
    ensures finite ==> p.resultingEmission == Resulting(round, library, p.fullPrevEmission)
    ensures total != 0.0 ==> HasPayouts(p, round, names, staked, total, social, transfer, shares, refs, plain)
  {
    finite, p, plain := CalculateAllImportance(round, names, staked, total, social, transfer, shares, refs);
    if !finite {
      return;
    }
    PayOut(p, round, previous, library);
    if total != 0.0 {
      PaidIsWithinBound(p, round, names, staked, total, social, transfer, shares, refs, plain);
      if NonNegativeInputs(staked, total, social, transfer) {
        SignsAreKept(p, round, names, staked, total, social, transfer, shares, refs, plain);
      }
    }
  }

  /** The whole calculation, with the conversion to the result format. The social and transfer rates, the names
      ranked as content and the answers about emission come from the rank and emission library; accounts and
      contents that only the ranks name are added. */
  method CalculateRates(round: Rounding, balances: seq<Snapshot.Record>, parse: string -> int, calcBlock: int,
                        parsers: Parsers, trxs: seq<Trx>, social: Amounts, transfer: Amounts, ranked: set<string>,
                        shares: Shares, previous: Grid, library: Library)
    returns (finite: bool, p: Processor, names: set<string>, content: set<string>, refs: seq<Referral>, items: Grid,
             ghost plain: Amounts)
    requires Nearest(round) && shares.social >= 0.0 && shares.transfer >= 0.0
    ensures var end := After(parsers, calcBlock, Snapshot.Staked(parse, balances).Keys, trxs);
            && names == end.accounts.Keys + social.Keys + transfer.Keys && content == end.content.Keys + ranked
            && IsReferrals(refs, end.references)
    ensures finite <==> Snapshot.Total(parse, balances) != 0 || names == {}
    ensures finite ==> p.accounts == names + previous.Keys && Conserved(p)
    ensures finite ==> items == Items(p.currentEmission, content)
    ensures var staked, total := Snapshot.Staked(parse, balances), Snapshot.Total(parse, balances) as real;
            total != 0.0 ==> HasPayouts(p, round, names, staked, total, social, transfer, shares, refs, plain)
  {
    var staked, total := TakeStakes(balances, parse);
    names, content, refs := ReadHistory(parsers, calcBlock, staked.Keys, trxs);
    names, content := names + social.Keys + transfer.Keys, content + ranked;
    items := map[];
    finite, p, plain :=
      CalculatePayouts(round, names, staked, total, social, transfer, shares, refs, previous, library);
    if finite {
      items := ConvertResult(p.currentEmission, content);
    }
  }
}
