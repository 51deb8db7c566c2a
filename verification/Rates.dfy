/** The calculation steps of data_processor.hpp that turn stakes and rates into emission. */
module Rates {
  import opened MapSum
  import opened MoneySpec
  import opened Conservation

  class Processor {
    var accounts: set<string>
    var staked: Amounts
    var totalStake: real
    var socialRate: Amounts
    var transferRate: Amounts
    var stakeRate: Amounts
    var importance: Amounts
    var referal: map<string, string>
    var referalBonus: Amounts
    var prevCumulative: Grid
    var currentEmission: Grid
    var currentCumulative: Grid
    var targetEmission: int
    var emissionLimit: int
    var resultingEmission: int
    var fullPrevEmission: int
    var realResultingEmission: int

    constructor (names: set<string>, stakes: Amounts, total: real, social: Amounts, transfer: Amounts)
      ensures accounts == names && staked == stakes && totalStake == total
      ensures socialRate == social && transferRate == transfer && referal == map[] && referalBonus == map[]
    {
      accounts, staked, totalStake, socialRate, transferRate := names, stakes, total, social, transfer;
      stakeRate, importance, prevCumulative, currentEmission, currentCumulative := map[], map[], map[], map[], map[];
      referal, referalBonus := map[], map[];
      targetEmission, emissionLimit, resultingEmission := 0, 0, 0;
      fullPrevEmission, realResultingEmission := 0, 0;
    }

    /** The loop divides by the total stake for every account; with a total of zero the rates of all accounts
        are no numbers, which is what `finite` tells. */
    method CalculateStakeRates(round: Rounding) returns (finite: bool)
      modifies this`stakeRate
      ensures finite <==> totalStake != 0.0 || accounts == {}
      ensures totalStake != 0.0 ==> stakeRate == map a | a in accounts :: StakeRate(round, staked, totalStake, a)
    {
      var left := accounts;
      stakeRate := map[];
      while left != {}
        invariant left <= accounts
        invariant totalStake == 0.0 ==> left == accounts
        invariant totalStake != 0.0 ==>
                    stakeRate == map a | a in accounts - left :: StakeRate(round, staked, totalStake, a)
        decreases left
      {
        var a :| a in left;
        if totalStake == 0.0 {
          return false;
        }
        stakeRate := stakeRate[a := StakeRate(round, staked, totalStake, a)];
        left := left - {a};
      }
      finite := true;
    }

    method CalculateImportance(round: Rounding, shares: Shares)
      modifies this`importance
      ensures importance == map a | a in accounts ::
                Importance(round, Effective(shares), At(socialRate, a), At(transferRate, a), At(stakeRate, a))
    {
      var s := shares;
      if s.social + s.transfer > 1.0 {
        s := Shares(0.4, 0.1);
      }
      var left := accounts;
      importance := map[];
      while left != {}
        invariant left <= accounts
        invariant importance == map a | a in accounts - left ::
                    Importance(round, s, At(socialRate, a), At(transferRate, a), At(stakeRate, a))
        decreases left
      {
        var a :| a in left;
        importance := importance[a := Importance(round, s, At(socialRate, a), At(transferRate, a), At(stakeRate, a))];
        left := left - {a};
      }
    }

    /** One reference: the target is credited, then the source set to what it had less the bonus. */
    method ApplyReferral(r: Referral)
      modifies this`importance, this`referal, this`referalBonus
      ensures importance == Refer(old(importance), r)
      ensures referal == old(referal)[r.source := r.target]
      ensures referalBonus == old(referalBonus)[r.source := Bonus(At(old(importance), r.source), r.height)]
    {
      referal := referal[r.source := r.target];
      var importanceRefer := At(importance, r.source);
      var bonus := Bonus(importanceRefer, r.height);
      importance := importance[r.target := At(importance, r.target) + bonus];
      importance := importance[r.source := importanceRefer - bonus];
      referalBonus := referalBonus[r.source := bonus];
    }

    method CalculateReferrals(refs: seq<Referral>)
      requires referal == map[] && referalBonus == map[]
      modifies this`importance, this`referal, this`referalBonus
      ensures importance == ReferAll(old(importance), refs)
      ensures referal == Referrers(refs) && referalBonus == Bonuses(old(importance), refs)
    {
      for i := 0 to |refs|
        invariant importance == ReferAll(old(importance), refs[..i])
        invariant referal == Referrers(refs[..i]) && referalBonus == Bonuses(old(importance), refs[..i])
      {
        ReferralStep(old(importance), refs, i);
        ApplyReferral(refs[i]);
      }
      assert refs[..|refs|] == refs;
    }

    /** The account loop of `calculate_emission`. */
    method EmitToAccounts(round: Rounding, resulting: int) returns (sum: real)
      modifies this`currentEmission, this`currentCumulative
      ensures currentEmission == CurrentOf(round, resulting, importance, accounts)
      ensures currentCumulative == CumulativeOf(round, prevCumulative, currentEmission)
      ensures sum == Sum(Reals(currentEmission))
    {
      currentEmission, currentCumulative := map[], map[];
      sum := 0.0;
      var left := accounts;
      while left != {}
        invariant left <= accounts
        invariant currentEmission.Keys == currentCumulative.Keys == accounts - left
        invariant forall a :: a in currentEmission ==>
                    currentEmission[a] == CurrentEmission(round, resulting, At(importance, a))
        invariant forall a :: a in currentCumulative ==>
                    currentCumulative[a] == CumulativeEmission(round, Units0(prevCumulative, a), currentEmission[a])
        invariant sum == Sum(Reals(currentEmission))
        decreases left
      {
        var a :| a in left;
        var current := CurrentEmission(round, resulting, At(importance, a));
        SumGridPut(currentEmission, a, current);
        currentEmission := currentEmission[a := current];
        currentCumulative := currentCumulative[a := CumulativeEmission(round, Units0(prevCumulative, a), current)];
        sum := sum + current as real;
        left := left - {a};
      }
    }

    /** The first loop of `calculate_emission`: accounts of the previous emission are added, and it is summed up. */
    method TakePrevious(previous: Grid) returns (sum: real)
      modifies this`accounts, this`prevCumulative
      ensures accounts == old(accounts) + previous.Keys && prevCumulative == previous
      ensures sum == Sum(Reals(previous))
    {
      prevCumulative := map[];
      sum := 0.0;
      var left := previous.Keys;
      while left != {}
        invariant left <= previous.Keys && prevCumulative.Keys == previous.Keys - left
        invariant accounts == old(accounts) + prevCumulative.Keys
        invariant forall a :: a in prevCumulative ==> prevCumulative[a] == previous[a]
        invariant sum == Sum(Reals(prevCumulative))
        decreases left
      {
        var a :| a in left;
        SumGridPut(prevCumulative, a, previous[a]);
        accounts := accounts + {a};
        prevCumulative := prevCumulative[a := previous[a]];
        sum := sum + previous[a] as real;
        left := left - {a};
      }
      assert prevCumulative == previous;
    }

    /** The resulting emission. The library is asked with the sum of the previous emission before it is printed;
        the printed sum is the same. */
    method AskLibrary(round: Rounding, previous: Grid, library: Library)
      requires Nearest(round)
      modifies this`accounts, this`prevCumulative, this`targetEmission, this`emissionLimit, this`resultingEmission,
               this`fullPrevEmission
      ensures accounts == old(accounts) + previous.Keys && prevCumulative == previous
      ensures targetEmission == Units(round, library.target) && emissionLimit == Units(round, library.limit)
      ensures fullPrevEmission == round(Sum(Reals(previous)))
      ensures resultingEmission == Resulting(round, library, fullPrevEmission)
    {
      targetEmission, emissionLimit := Units(round, library.target), Units(round, library.limit);
      var sum := TakePrevious(previous);
      fullPrevEmission := round(sum);
      RealResultingIsSum(round, previous);
      resultingEmission := Units(round, library.resulting(Value(targetEmission) - sum * 0.0001, Value(emissionLimit)));
    }

    /** `calculate_emission`. */
    method CalculateEmission(round: Rounding, previous: Grid, library: Library)
      requires Nearest(round)
      modifies this`accounts, this`prevCumulative, this`currentEmission, this`currentCumulative,
               this`targetEmission, this`emissionLimit, this`resultingEmission,
               this`fullPrevEmission, this`realResultingEmission
      ensures accounts == old(accounts) + previous.Keys && prevCumulative == previous
      ensures targetEmission == Units(round, library.target) && emissionLimit == Units(round, library.limit)
      ensures resultingEmission == Resulting(round, library, fullPrevEmission)
      ensures LeavesTheRest(library) && fullPrevEmission <= targetEmission ==>
                fullPrevEmission + resultingEmission <= targetEmission
      ensures AnswersTheRest(library) ==> fullPrevEmission + resultingEmission == targetEmission
      ensures KeepsTheLimit(library) ==> resultingEmission <= emissionLimit
      ensures IsEmission(round, accounts, importance, previous, resultingEmission, currentEmission, currentCumulative,
                         fullPrevEmission, realResultingEmission)
    {
      AskLibrary(round, previous, library);
      ResultingWithinTarget(round, library, targetEmission, emissionLimit, fullPrevEmission, resultingEmission);
      var sum := EmitToAccounts(round, resultingEmission);
      realResultingEmission := round(sum);
    }
  }

  lemma ReferralStep(m: Amounts, refs: seq<Referral>, i: nat)
    requires i < |refs|
    ensures ReferAll(m, refs[..i + 1]) == Refer(ReferAll(m, refs[..i]), refs[i])
    ensures Referrers(refs[..i + 1]) == Referrers(refs[..i])[refs[i].source := refs[i].target]
    ensures Bonuses(m, refs[..i + 1]) ==
            Bonuses(m, refs[..i])[refs[i].source := Bonus(At(ReferAll(m, refs[..i]), refs[i].source), refs[i].height)]
  {
    assert refs[..i + 1][..i] == refs[..i];
  }

  /** The referrer recorded for an account is the target of its last reference, and the bonus the one of that
      reference. */
  lemma {:induction false} LastReferrer(m: Amounts, refs: seq<Referral>, a: string) returns (i: int)
    ensures -1 <= i < |refs| && (i >= 0 <==> a in Referrers(refs)) && (i >= 0 <==> a in Bonuses(m, refs))
    ensures forall j :: i < j < |refs| ==> refs[j].source != a
    ensures i >= 0 ==> refs[i].source == a && Referrers(refs)[a] == refs[i].target
    ensures i >= 0 ==> Bonuses(m, refs)[a] == Bonus(At(ReferAll(m, refs[..i]), a), refs[i].height)
  {
    if refs == [] {
      i := -1;
    } else if refs[|refs| - 1].source == a {
      i := |refs| - 1;
    } else {
      var front := refs[..|refs| - 1];
      i := LastReferrer(m, front, a);
      if i >= 0 { assert front[..i] == refs[..i]; }
    }
  }

  lemma SumGridPut(m: Grid, a: string, v: int)
    requires a !in m
    ensures Sum(Reals(m[a := v])) == Sum(Reals(m)) + v as real
  {
    assert Reals(m[a := v]) == Reals(m)[a := v as real];
    SumPut(Reals(m), a, v as real);
  }
}
