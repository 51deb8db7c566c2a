/** How far the emission paid can be from the emission due: all roundings, from stake rates to payouts. */
module EmissionBound {
  import opened MapSum
  import opened MoneySpec
  import opened Conservation

  ghost predicate Near(x: real, y: real, eps: real)
  {
    Abs(x - y) <= eps
  }

  // ---- one account --------------------------------------------------------------------------

  lemma PrintedClose(round: Rounding, x: real)
    requires Nearest(round)
    ensures Near(Printed10(round, x), x, 0.00000000005)
  {
    assert IsNear(x * 10_000_000_000.0, round(x * 10_000_000_000.0));
  }

  lemma Shrinks(d: real, u: real)
    requires 0.0 <= u <= 1.0 && d >= 0.0
    ensures 0.0 <= d * u <= d
  {
    assert d - d * u == d * (1.0 - u);
  }

  lemma ProductOfDifference(x: real, y: real, u: real)
    ensures x * u - y * u == (x - y) * u
  {
  }

  lemma AbsProduct(x: real, u: real)
    ensures Abs(x * u) == Abs(x) * Abs(u)
  {
  }

  lemma ShrinksAbs(d: real, u: real)
    requires 0.0 <= u <= 1.0
    ensures Abs(d * u) <= Abs(d)
  {
    AbsProduct(d, u);
    Shrinks(Abs(d), u);
  }

  lemma ScaledError(x: real, y: real, u: real, eps: real)
    requires Near(x, y, eps) && 0.0 <= u <= 1.0
    ensures Near(x * u, y * u, eps)
  {
    ProductOfDifference(x, y, u);
    ShrinksAbs(x - y, u);
  }

  lemma NearTriangle(x: real, y: real, z: real, a: real, b: real)
    requires Near(x, y, a) && Near(y, z, b)
    ensures Near(x, z, a + b)
  {
  }

  ghost predicate SharesInRange(s: Shares)
  {
    s.social >= 0.0 && s.transfer >= 0.0 && s.social + s.transfer <= 1.0
  }

  lemma StakeError(s: Shares, social: real, transfer: real, x: real, y: real, eps: real)
    requires SharesInRange(s) && Near(x, y, eps)
    ensures Near(Due(s, social, transfer, x), Due(s, social, transfer, y), eps)
  {
    var u := StakeShare(s);
    ScaledError(x, y, u, eps);
    assert Due(s, social, transfer, x) - Due(s, social, transfer, y) == x * u - y * u;
  }

  lemma ImportanceClose(round: Rounding, s: Shares, social: real, transfer: real, share: real)
    requires Nearest(round) && SharesInRange(s)
    ensures Near(Importance(round, s, social, transfer, Printed10(round, share)), Due(s, social, transfer, share),
                 0.0000000001)
    ensures Due(s, social, transfer, share) ==
            social * s.social + transfer * s.transfer + share * (1.0 - (s.social + s.transfer))
  {
    var stake := Printed10(round, share);
    var given, due := Due(s, social, transfer, stake), Due(s, social, transfer, share);
    PrintedClose(round, share);
    StakeError(s, social, transfer, stake, share, 0.00000000005);
    PrintedClose(round, given);
    NearTriangle(Printed10(round, given), given, due, 0.00000000005, 0.00000000005);
  }

  lemma InUnits(resulting: int, importance: real)
    ensures Value(resulting) * importance * 10_000.0 == Times(resulting as real)(importance)
  {
    var r := resulting as real;
    var p := r * importance;
    assert (r * 0.0001) * importance == 0.0001 * p;
  }

  lemma UnitsClose(round: Rounding, x: real, y: real)
    requires Nearest(round) && x * 10_000.0 == y
    ensures Near(Units(round, x) as real, y, 0.5)
  {
    assert IsNear(x * 10_000.0, round(x * 10_000.0));
  }

  /** What an account is paid, in units, is within half a unit of its part of the resulting emission. */
  lemma CurrentClose(round: Rounding, resulting: int, importance: real)
    requires Nearest(round)
    ensures Near(CurrentEmission(round, resulting, importance) as real, Times(resulting as real)(importance), 0.5)
  {
    InUnits(resulting, importance);
    UnitsClose(round, Value(resulting) * importance, Times(resulting as real)(importance));
  }

  // ---- all accounts, with the multiplications as additive functions ---------------------------

  ghost predicate Additive(f: real -> real)
  {
    f(0.0) == 0.0 && forall p, q :: Splits(f, p, q)
  }

  function Over(m: Amounts, names: set<string>): Amounts
  {
    map a | a in names :: At(m, a)
  }

  lemma OverSum(m: Amounts, names: set<string>)
    requires m.Keys <= names
    ensures Sum(Over(m, names)) == Sum(m)
  {
    var e := Over(m, names);
    SumRestrict(e, m.Keys);
    assert m == map a | a in e && a in m.Keys :: e[a];
  }

  function Mapped(m: Amounts, names: set<string>, f: real -> real): Amounts
  {
    map a | a in names :: f(At(m, a))
  }

  lemma MappedSum(m: Amounts, names: set<string>, f: real -> real)
    requires Additive(f) && m.Keys <= names
    ensures Sum(Mapped(m, names, f)) == f(Sum(m))
  {
    OverSum(m, names);
    SumAdditive(Mapped(m, names, f), Over(m, names), f);
  }

  lemma ThreeSums(m: Amounts, x: Amounts, y: Amounts, z: Amounts)
    requires m.Keys == x.Keys == y.Keys == z.Keys
    requires forall a :: a in m ==> m[a] == x[a] + y[a] + z[a]
    ensures Sum(m) == Sum(x) + Sum(y) + Sum(z)
  {
    var xy: Amounts := map a | a in m :: x[a] + y[a];
    SumAdd(xy, x, y);
    SumAdd(m, xy, z);
  }

  /** Amounts that are near for every account have sums that are near up to the sum of the errors. */
  lemma SumsClose(a: Amounts, b: Amounts, eps: Amounts)
    requires a.Keys == b.Keys == eps.Keys
    requires forall k :: k in a ==> Near(a[k], b[k], eps[k])
    ensures Near(Sum(a), Sum(b), Sum(eps))
  {
    forall k | k in a ensures Abs(a[k] - b[k]) <= eps[k] { assert Near(a[k], b[k], eps[k]); }
    SumClose(a, b, eps);
  }

  function Constant(names: set<string>, x: real): Amounts
  {
    map a | a in names :: x
  }

  lemma ConstantSum(names: set<string>, x: real)
    ensures Sum(Constant(names, x)) == |names| as real * x
  {
    SumConstant(Constant(names, x), x);
    assert Constant(names, x).Keys == names;
    assert |Constant(names, x).Keys| == |Constant(names, x)|;
  }

  /** Ten-decimal and four-decimal rounding errors of n accounts. */
  function Fine(n: nat): real
  {
    n as real * 0.0000000001
  }

  function Coarse(n: nat): real
  {
    n as real * 0.5
  }

  lemma FineSum(names: set<string>)
    ensures Sum(Constant(names, 0.0000000001)) == Fine(|names|)
  {
    ConstantSum(names, 0.0000000001);
  }

  lemma CoarseSum(names: set<string>)
    ensures Sum(Constant(names, 0.5)) == Coarse(|names|)
  {
    ConstantSum(names, 0.5);
  }

  /** Every amount is within eps of the sum of three parts. */
  ghost predicate NearThree(m: Amounts, x: Amounts, y: Amounts, z: Amounts, eps: real)
    requires m.Keys == x.Keys == y.Keys == z.Keys
  {
    forall a :: a in m ==> Near(m[a], x[a] + y[a] + z[a], eps)
  }

  lemma NearThreeSums(m: Amounts, x: Amounts, y: Amounts, z: Amounts, eps: real, total: real)
    requires m.Keys == x.Keys == y.Keys == z.Keys && NearThree(m, x, y, z, eps)
    requires Sum(x) + Sum(y) + Sum(z) == total
    ensures Near(Sum(m), total, Sum(Constant(m.Keys, eps)))
  {
    var due: Amounts := map a | a in m :: x[a] + y[a] + z[a];
    ThreeSums(due, x, y, z);
    SumsClose(m, due, Constant(m.Keys, eps));
  }

  /** The units paid are within half a unit per account of what the sum of the importances is worth;
      accounts known only from earlier emission are paid nothing. */
  lemma PaidSum(names: set<string>, importance: Amounts, q: real -> real, paidNames: set<string>, paid: Amounts)
    requires Additive(q) && importance.Keys == names <= paidNames == paid.Keys
    requires forall a :: a in names ==> Near(paid[a], q(importance[a]), 0.5)
    requires forall a :: a in paidNames && a !in names ==> paid[a] == 0.0
    ensures Near(Sum(paid), q(Sum(importance)), Coarse(|names|))
  {
    var known: Amounts := map a | a in paid && a in names :: paid[a];
    SumRestrict(paid, names);
    var ideal := Mapped(importance, names, q);
    MappedSum(importance, names, q);
    SumsClose(known, ideal, Constant(names, 0.5));
    CoarseSum(names);
  }

  // ---- the theorem --------------------------------------------------------------------------

  /** The importance before referrals, as `calculate_stake_rates` and `calculate_importance` leave it. */
  ghost predicate IsImportance(round: Rounding, names: set<string>, s: Shares, social: Amounts, transfer: Amounts,
                               staked: Amounts, total: real, importance: Amounts)
    requires total != 0.0
  {
    importance == map a | a in names ::
      Importance(round, s, At(social, a), At(transfer, a), StakeRate(round, staked, total, a))
  }

  lemma TimesIsAdditive(x: real)
    ensures Additive(Times(x))
  {
    TimesAdditive(x);
  }

  lemma TimesSum(m: Amounts, names: set<string>, x: real)
    requires m.Keys <= names
    ensures Sum(Mapped(m, names, Times(x))) == Times(x)(Sum(m))
  {
    TimesIsAdditive(x);
    MappedSum(m, names, Times(x));
  }

  /** The importance an amount of stake is due. */
  function StakeWorth(s: Shares, total: real): real
    requires total != 0.0
  {
    StakeShare(s) / total
  }

  lemma WorthIs(s: Shares, total: real, v: real)
    requires total != 0.0
    ensures Times(StakeWorth(s, total))(v) == v / total * StakeShare(s)
  {
    var u, i := StakeShare(s), 1.0 / total;
    assert u / total == u * i && v / total == v * i;
  }

  lemma DueIs(s: Shares, social: real, transfer: real, stake: real, total: real)
    requires total != 0.0
    ensures Due(s, social, transfer, stake / total) ==
            Times(s.social)(social) + Times(s.transfer)(transfer) + Times(StakeWorth(s, total))(stake)
  {
    WorthIs(s, total, stake);
  }

  lemma ImportanceNear(round: Rounding, s: Shares, social: real, transfer: real, stake: real, total: real,
                       importance: real)
    requires Nearest(round) && SharesInRange(s) && total != 0.0
    requires importance == Importance(round, s, social, transfer, Printed10(round, stake / total))
    ensures Near(importance,
                 Times(s.social)(social) + Times(s.transfer)(transfer) + Times(StakeWorth(s, total))(stake),
                 0.0000000001)
  {
    DueIs(s, social, transfer, stake, total);
    ImportanceClose(round, s, social, transfer, stake / total);
  }

  lemma ImportanceNearParts(round: Rounding, names: set<string>, s: Shares, social: Amounts, transfer: Amounts,
                            staked: Amounts, total: real, importance: Amounts)
    requires Nearest(round) && SharesInRange(s) && total != 0.0
    requires IsImportance(round, names, s, social, transfer, staked, total, importance)
    ensures NearThree(importance, Mapped(social, names, Times(s.social)), Mapped(transfer, names, Times(s.transfer)),
                      Mapped(staked, names, Times(StakeWorth(s, total))), 0.0000000001)
  {
    forall a | a in names
      ensures Near(importance[a],
                   Times(s.social)(At(social, a)) + Times(s.transfer)(At(transfer, a)) +
                   Times(StakeWorth(s, total))(At(staked, a)),
                   0.0000000001)
    {
      ImportanceNear(round, s, At(social, a), At(transfer, a), At(staked, a), total, importance[a]);
    }
  }

  lemma PartsSum(names: set<string>, s: Shares, social: Amounts, transfer: Amounts, staked: Amounts, total: real)
    requires social.Keys <= names && transfer.Keys <= names && staked.Keys <= names && total != 0.0
    ensures Sum(Mapped(social, names, Times(s.social))) + Sum(Mapped(transfer, names, Times(s.transfer))) +
            Sum(Mapped(staked, names, Times(StakeWorth(s, total)))) ==
            Due(s, Sum(social), Sum(transfer), Sum(staked) / total)
  {
    TimesSum(social, names, s.social);
    TimesSum(transfer, names, s.transfer);
    TimesSum(staked, names, StakeWorth(s, total));
    DueIs(s, Sum(social), Sum(transfer), Sum(staked), total);
  }

  /** The sum of the importances is within `10^-10` per account of what the sums of the rates and the
      staked part of the total are due. */
  lemma ImportanceSumClose(round: Rounding, names: set<string>, s: Shares, social: Amounts, transfer: Amounts,
                           staked: Amounts, total: real, importance: Amounts)
    requires Nearest(round) && SharesInRange(s) && total != 0.0
    requires social.Keys <= names && transfer.Keys <= names && staked.Keys <= names
    requires IsImportance(round, names, s, social, transfer, staked, total, importance)
    ensures Near(Sum(importance), Due(s, Sum(social), Sum(transfer), Sum(staked) / total), Fine(|names|))
  {
    assert importance.Keys == names;
    ImportanceNearParts(round, names, s, social, transfer, staked, total, importance);
    PartsSum(names, s, social, transfer, staked, total);
    NearThreeSums(importance, Mapped(social, names, Times(s.social)), Mapped(transfer, names, Times(s.transfer)),
                  Mapped(staked, names, Times(StakeWorth(s, total))), 0.0000000001,
                  Due(s, Sum(social), Sum(transfer), Sum(staked) / total));
    FineSum(names);
  }

  lemma {:induction false} ReferKeys(m: Amounts, refs: seq<Referral>)
    requires forall i :: 0 <= i < |refs| ==> refs[i].source in m && refs[i].target in m
    ensures ReferAll(m, refs).Keys == m.Keys
  {
    if refs != [] { ReferKeys(m, refs[..|refs| - 1]); }
  }

  /** `current` is the emission of `calculate_emission`. */
  ghost predicate IsPaid(round: Rounding, importance: Amounts, paidNames: set<string>, resulting: int, current: Grid)
  {
    current == CurrentOf(round, resulting, importance, paidNames)
  }

  lemma PaidClose(round: Rounding, importance: Amounts, paidNames: set<string>, resulting: int, current: Grid)
    requires Nearest(round) && importance.Keys <= paidNames && IsPaid(round, importance, paidNames, resulting, current)
    ensures Near(Sum(Reals(current)), Times(resulting as real)(Sum(importance)), Coarse(|importance.Keys|))
  {
    var paid := Reals(current);
    PaidNothing(round, resulting);
    forall a | a in importance.Keys ensures Near(paid[a], Times(resulting as real)(importance[a]), 0.5) {
      CurrentClose(round, resulting, importance[a]);
    }
    TimesIsAdditive(resulting as real);
    PaidSum(importance.Keys, importance, Times(resulting as real), paidNames, paid);
  }

  /** What an error of the total importance is worth. */
  function Slack(resulting: int, error: real): real
  {
    Abs(resulting as real) * error
  }

  lemma MonotoneProduct(k: real, x: real, y: real)
    requires k >= 0.0 && x <= y
    ensures k * x <= k * y
  {
    assert k * (y - x) >= 0.0;
    assert k * (y - x) == k * y - k * x;
  }

  lemma SlackBounds(resulting: int, x: real, y: real, e: real)
    requires Near(x, y, e)
    ensures Near(Times(resulting as real)(x), Times(resulting as real)(y), Slack(resulting, e))
  {
    var r := resulting as real;
    ProductOfDifference(x, y, r);
    AbsProduct(x - y, r);
    MonotoneProduct(Abs(r), Abs(x - y), e);
  }

  /** All that is due to the accounts per unit of resulting emission: by their rates and stakes, less what
      self-references lose. */
  ghost function TotalDue(s: Shares, social: Amounts, transfer: Amounts, staked: Amounts, total: real,
                          importance: Amounts, refs: seq<Referral>): real
    requires total != 0.0
  {
    Due(s, Sum(social), Sum(transfer), Sum(staked) / total) - LostToSelf(importance, refs)
  }

  lemma NearShift(x: real, y: real, d: real, eps: real)
    requires Near(x, y, eps)
    ensures Near(x - d, y - d, eps)
  {
  }

  lemma ReferredSumClose(round: Rounding, names: set<string>, s: Shares, social: Amounts, transfer: Amounts,
                         staked: Amounts, total: real, importance: Amounts, refs: seq<Referral>)
    requires Nearest(round) && SharesInRange(s) && total != 0.0
    requires social.Keys <= names && transfer.Keys <= names && staked.Keys <= names
    requires IsImportance(round, names, s, social, transfer, staked, total, importance)
    ensures Near(Sum(ReferAll(importance, refs)), TotalDue(s, social, transfer, staked, total, importance, refs),
                 Fine(|names|))
  {
    ImportanceSumClose(round, names, s, social, transfer, staked, total, importance);
    ReferralTotal(importance, refs);
    var due := Due(s, Sum(social), Sum(transfer), Sum(staked) / total);
    NearShift(Sum(importance), due, LostToSelf(importance, refs), Fine(|names|));
  }

  /** The references join accounts among `names`. */
  ghost predicate Among(refs: seq<Referral>, names: set<string>)
  {
    forall i :: 0 <= i < |refs| ==> refs[i].source in names && refs[i].target in names
  }

  /** The emission paid to all accounts together, in units of four decimals, differs from the resulting
      emission times the total due by at most half a unit per account plus the resulting emission
      times `10^-10` per account. */
  lemma EmissionWithinBound(round: Rounding, names: set<string>, s: Shares, social: Amounts, transfer: Amounts,
                            staked: Amounts, total: real, importance: Amounts, refs: seq<Referral>,
                            paidNames: set<string>, resulting: int, current: Grid)
    requires Nearest(round) && SharesInRange(s) && total != 0.0
    requires social.Keys <= names && transfer.Keys <= names && staked.Keys <= names <= paidNames
    requires IsImportance(round, names, s, social, transfer, staked, total, importance) && Among(refs, names)
    requires IsPaid(round, ReferAll(importance, refs), paidNames, resulting, current)
    ensures Near(Sum(Reals(current)),
                 Times(resulting as real)(TotalDue(s, social, transfer, staked, total, importance, refs)),
                 Coarse(|names|) + Slack(resulting, Fine(|names|)))
  {
    assert importance.Keys == names;
    var after := ReferAll(importance, refs);
    ReferKeys(importance, refs);
    ReferredSumClose(round, names, s, social, transfer, staked, total, importance, refs);
    PaidClose(round, after, paidNames, resulting, current);
    var due, e := TotalDue(s, social, transfer, staked, total, importance, refs), Fine(|names|);
    SlackBounds(resulting, Sum(after), due, e);
    NearTriangle(Sum(Reals(current)), Times(resulting as real)(Sum(after)), Times(resulting as real)(due),
                 Coarse(|names|), Slack(resulting, e));
  }

  /** Shares that are in range are taken as they are; otherwise four tenths go by social and one tenth by transfer
      rates. */
  lemma SharesTaken(s: Shares)
    requires s.social >= 0.0 && s.transfer >= 0.0
    ensures SharesInRange(Effective(s))
    ensures SharesInRange(s) ==> Effective(s) == s
    ensures !SharesInRange(s) ==> Effective(s) == Shares(0.4, 0.1)
  {
  }
}
