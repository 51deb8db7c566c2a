/** Conservation laws and rounding bounds of referrals and emission. */
module Conservation {
  import opened MapSum
  import opened MoneySpec

  // ---- referrals ----------------------------------------------------------------------------

  lemma FadingRange(height: nat)
    ensures 0.0 <= Fading(height) <= 1.0
    ensures Fading(height) == 0.0 <==> height >= REF_PERIOD
  {
    if height < REF_PERIOD {
      var p, q := (REF_PERIOD - height) as real, REF_PERIOD as real;
      assert 0.0 < p <= q;
      assert 0.0 < p / q <= 1.0;
    }
  }

  lemma ProductRange(x: real, f: real)
    requires x >= 0.0 && 0.0 <= f <= 1.0
    ensures 0.0 <= x * f <= x
    ensures x * f == 0.0 <==> x == 0.0 || f == 0.0
  {
  }

  /** The bonus is at most a tenth of what the source has, and nothing only for the penniless or late. */
  lemma BonusRange(importance: real, height: nat)
    requires importance >= 0.0
    ensures 0.0 <= Bonus(importance, height) <= 0.1 * importance
    ensures Bonus(importance, height) == 0.0 <==> importance == 0.0 || height >= REF_PERIOD
  {
    FadingRange(height);
    ProductRange(importance, Fading(height));
  }

  /** What the self-references among the referrals lose. */
  function LostToSelf(m: Amounts, refs: seq<Referral>): real
  {
    if refs == [] then 0.0
    else
      var front, r := refs[..|refs| - 1], refs[|refs| - 1];
      LostToSelf(m, front) + if r.source == r.target then Bonus(At(ReferAll(m, front), r.source), r.height) else 0.0
  }

  lemma ReferSum(m: Amounts, r: Referral)
    ensures Sum(Refer(m, r)) == Sum(m) - if r.source == r.target then Bonus(At(m, r.source), r.height) else 0.0
  {
    var bonus := Bonus(At(m, r.source), r.height);
    SumPut(m, r.target, At(m, r.target) + bonus);
    SumPut(m[r.target := At(m, r.target) + bonus], r.source, At(m, r.source) - bonus);
  }

  /** The total importance falls by exactly the bonuses of self-references. */
  lemma {:induction false} ReferralTotal(m: Amounts, refs: seq<Referral>)
    ensures Sum(ReferAll(m, refs)) == Sum(m) - LostToSelf(m, refs)
  {
    if refs != [] {
      ReferralTotal(m, refs[..|refs| - 1]);
      ReferSum(ReferAll(m, refs[..|refs| - 1]), refs[|refs| - 1]);
    }
  }

  ghost predicate NonNegative(m: Amounts)
  {
    forall a :: a in m ==> m[a] >= 0.0
  }

  lemma {:induction false} ReferralsNonNegative(m: Amounts, refs: seq<Referral>)
    requires NonNegative(m)
    ensures NonNegative(ReferAll(m, refs))
  {
    if refs != [] {
      var front, r := refs[..|refs| - 1], refs[|refs| - 1];
      ReferralsNonNegative(m, front);
      BonusRange(At(ReferAll(m, front), r.source), r.height);
    }
  }

  /** An account has importance to give: from the start, or through some reference in time from an account
      that had. Read off the references and the starting importance alone. */
  predicate Funded(m: Amounts, refs: seq<Referral>, a: string)
  {
    if refs == [] then At(m, a) > 0.0
    else
      var front, r := refs[..|refs| - 1], refs[|refs| - 1];
      Funded(m, front, a) || (r.target == a && r.height < REF_PERIOD && Funded(m, front, r.source))
  }

  lemma {:induction false} FundedExactly(m: Amounts, refs: seq<Referral>, a: string)
    requires NonNegative(m)
    ensures At(ReferAll(m, refs), a) > 0.0 <==> Funded(m, refs, a)
  {
    if refs != [] {
      var front, r := refs[..|refs| - 1], refs[|refs| - 1];
      FundedExactly(m, front, a);
      FundedExactly(m, front, r.source);
      ReferralsNonNegative(m, front);
      BonusRange(At(ReferAll(m, front), r.source), r.height);
    }
  }

  /** A self-reference that earns its account a bonus: in time, and when the account has importance. */
  predicate EarnsFromItself(m: Amounts, refs: seq<Referral>, i: int)
    requires 0 <= i < |refs|
  {
    refs[i].source == refs[i].target && refs[i].height < REF_PERIOD && Funded(m, refs[..i], refs[i].source)
  }

  predicate NoneEarnsFromItself(m: Amounts, refs: seq<Referral>)
  {
    forall i :: 0 <= i < |refs| ==> !EarnsFromItself(m, refs, i)
  }

  lemma NoneEarnsStep(m: Amounts, refs: seq<Referral>)
    requires refs != []
    ensures NoneEarnsFromItself(m, refs) <==>
            NoneEarnsFromItself(m, refs[..|refs| - 1]) && !EarnsFromItself(m, refs, |refs| - 1)
  {
    var front := refs[..|refs| - 1];
    forall i | 0 <= i < |front| ensures EarnsFromItself(m, front, i) <==> EarnsFromItself(m, refs, i) {
      assert front[..i] == refs[..i];
    }
  }

  lemma {:induction false} SelfLoss(m: Amounts, refs: seq<Referral>)
    requires NonNegative(m)
    ensures LostToSelf(m, refs) >= 0.0
    ensures LostToSelf(m, refs) == 0.0 <==> NoneEarnsFromItself(m, refs)
  {
    if refs != [] {
      var front, r := refs[..|refs| - 1], refs[|refs| - 1];
      SelfLoss(m, front);
      NoneEarnsStep(m, refs);
      ReferralsNonNegative(m, front);
      FundedExactly(m, front, r.source);
      BonusRange(At(ReferAll(m, front), r.source), r.height);
    }
  }

  /** Total importance is conserved if and only if no account earns a bonus from a reference to itself. */
  lemma ReferralConservationExactly(m: Amounts, refs: seq<Referral>)
    requires NonNegative(m)
    ensures Sum(ReferAll(m, refs)) == Sum(m) <==> NoneEarnsFromItself(m, refs)
  {
    ReferralTotal(m, refs);
    SelfLoss(m, refs);
  }

  /** `(9/10)^k` of an amount. */
  function NineTenths(x: real, k: nat): real
  {
    if k == 0 then x else 0.9 * NineTenths(x, k - 1)
  }

  function TimesReferred(refs: seq<Referral>, a: string): nat
  {
    if refs == [] then 0
    else TimesReferred(refs[..|refs| - 1], a) + if refs[|refs| - 1].source == a then 1 else 0
  }

  /** An account that is the source of k references keeps at least `(9/10)^k` of what it had. */
  lemma {:induction false} SourceKeepsNineTenths(m: Amounts, refs: seq<Referral>, a: string)
    requires NonNegative(m)
    ensures At(ReferAll(m, refs), a) >= NineTenths(At(m, a), TimesReferred(refs, a)) >= 0.0
  {
    if refs != [] {
      var front, r := refs[..|refs| - 1], refs[|refs| - 1];
      SourceKeepsNineTenths(m, front, a);
      ReferralsNonNegative(m, front);
      BonusRange(At(ReferAll(m, front), r.source), r.height);
    }
  }

  // ---- emission: conservation ---------------------------------------------------------------

  /** A sum of whole units is a whole number of units, so printing it loses nothing. */
  lemma {:induction false} SumIsWhole(m: Grid) returns (n: int)
    ensures Sum(Reals(m)) == n as real
    decreases |m|
  {
    if m == map[] {
      assert Reals(m) == map[];
      n := 0;
    } else {
      var a :| a in m;
      assert |m - {a}| < |m| by { assert (m - {a}).Keys == m.Keys - {a}; }
      n := SumIsWhole(m - {a});
      assert Reals(m) - {a} == Reals(m - {a});
      SumRemove(Reals(m), a);
      n := n + m[a];
    }
  }

  lemma NearestOfWhole(round: Rounding, n: int)
    requires Nearest(round)
    ensures round(n as real) == n
  {
    assert IsNear(n as real, round(n as real));
  }

  lemma NearNonNegative(round: Rounding, x: real)
    requires Nearest(round) && x >= 0.0
    ensures round(x) >= 0
  {
    assert IsNear(x, round(x));
  }

  lemma PaidNothing(round: Rounding, resulting: int)
    requires Nearest(round)
    ensures CurrentEmission(round, resulting, 0.0) == 0
  {
    assert Value(resulting) * 0.0 * 10_000.0 == 0.0;
    NearestOfWhole(round, 0);
  }

  lemma ProductNonNegative(x: real, y: real)
    requires x >= 0.0 && y >= 0.0
    ensures x * y >= 0.0
  {
  }

  /** Non-negative importance and resulting emission give non-negative amounts. */
  lemma EarnsNonNegative(round: Rounding, resulting: int, importance: real)
    requires Nearest(round) && resulting >= 0 && importance >= 0.0
    ensures CurrentEmission(round, resulting, importance) >= 0
  {
    ProductNonNegative(Value(resulting), importance);
    NearNonNegative(round, Value(resulting) * importance * 10_000.0);
  }

  /** Adding two amounts on the grid and printing the sum is exact. */
  lemma CumulativeIsExact(round: Rounding, previous: int, current: int)
    requires Nearest(round)
    ensures CumulativeEmission(round, previous, current) == previous + current
  {
    var x := (Value(previous) + Value(current)) * 10_000.0;
    assert x == (previous + current) as real;
    NearestOfWhole(round, previous + current);
  }

  function Extended(m: Grid, keys: set<string>): Grid
  {
    map a | a in keys :: Units0(m, a)
  }

  lemma ExtendedSum(m: Grid, keys: set<string>)
    requires m.Keys <= keys
    ensures Sum(Reals(Extended(m, keys))) == Sum(Reals(m))
  {
    var e := Reals(Extended(m, keys));
    SumRestrict(e, m.Keys);
    assert Reals(m) == map a | a in e && a in m.Keys :: e[a];
  }

  /** The outcome of `calculate_emission` on the accounts `names` with the given importance. */
  ghost predicate IsEmission(round: Rounding, names: set<string>, importance: Amounts, previous: Grid, resulting: int,
                             current: Grid, cumulative: Grid, fullPrev: int, realResulting: int)
  {
    && previous.Keys <= names
    && current == CurrentOf(round, resulting, importance, names)
    && cumulative == CumulativeOf(round, previous, current)
    && fullPrev == round(Sum(Reals(previous)))
    && realResulting == round(Sum(Reals(current)))
  }

  /** The printed total of the emission is the true sum. */
  lemma RealResultingIsSum(round: Rounding, current: Grid)
    requires Nearest(round)
    ensures round(Sum(Reals(current))) as real == Sum(Reals(current))
  {
    var n := SumIsWhole(current);
    NearestOfWhole(round, n);
  }

  /** The cumulative emission of all accounts is the full previous emission plus the real resulting
      emission, to the last unit. */
  lemma EmissionConservation(round: Rounding, names: set<string>, importance: Amounts, previous: Grid, resulting: int,
                             current: Grid, cumulative: Grid, fullPrev: int, realResulting: int)
    requires Nearest(round)
    requires IsEmission(round, names, importance, previous, resulting, current, cumulative, fullPrev, realResulting)
    ensures Sum(Reals(cumulative)) == (fullPrev + realResulting) as real
  {
    RealResultingIsSum(round, previous);
    RealResultingIsSum(round, current);
    ExtendedSum(previous, names);
    var p := Extended(previous, names);
    forall a | a in names ensures cumulative[a] == p[a] + current[a] {
      CumulativeIsExact(round, Units0(previous, a), current[a]);
    }
    SumAdd(Reals(cumulative), Reals(p), Reals(current));
  }

  // ---- how a bonus fades --------------------------------------------------------------------

  /** A reference fades evenly over two years of blocks: a tenth of the source's importance at once, and nothing
      from the end of the two years on. */
  lemma BonusFadesEvenly(importance: real, height: nat)
    ensures height < 63_072_000 ==>
              Bonus(importance, height) * 630_720_000.0 == importance * (63_072_000 - height) as real
    ensures height >= 63_072_000 ==> Bonus(importance, height) == 0.0
  {
    if height < 63_072_000 {
      var f, left := Fading(height), (63_072_000 - height) as real;
      assert f * 63_072_000.0 == left;
      Regroup(importance, f);
      assert importance * (f * 63_072_000.0) == importance * left;
    }
  }

  lemma Regroup(x: real, f: real)
    ensures 0.1 * (x * f) * 630_720_000.0 == x * (f * 63_072_000.0)
  {
    var p := x * f;
    assert x * (f * 63_072_000.0) == p * 63_072_000.0;
  }

  // ---- the resulting emission ---------------------------------------------------------------

  /** The library never answers more than what it is told is left, if anything is. */
  ghost predicate LeavesTheRest(library: Library)
  {
    forall left, limit :: WithinRest(library, left, limit)
  }

  ghost predicate WithinRest(library: Library, left: real, limit: real)
  {
    left >= 0.0 ==> library.resulting(left, limit) <= left
  }

  /** The library never answers more than the limit. */
  ghost predicate KeepsTheLimit(library: Library)
  {
    forall left, limit :: WithinLimit(library, left, limit)
  }

  ghost predicate WithinLimit(library: Library, left: real, limit: real)
  {
    library.resulting(left, limit) <= limit
  }

  ghost predicate AnswersTheRest(library: Library)
  {
    forall left, limit :: IsRest(library, left, limit)
  }

  ghost predicate IsRest(library: Library, left: real, limit: real)
  {
    library.resulting(left, limit) == left
  }

  lemma PrintedAtMost(round: Rounding, x: real, n: int)
    requires Nearest(round) && x <= Value(n)
    ensures Units(round, x) <= n
  {
    assert IsNear(x * 10_000.0, round(x * 10_000.0));
  }

  lemma PrintedExactly(round: Rounding, n: int)
    requires Nearest(round)
    ensures Units(round, Value(n)) == n
  {
    assert Value(n) * 10_000.0 == n as real;
    NearestOfWhole(round, n);
  }

  /** The emission so far and the resulting emission together stay within the target, when the former does and the
      library leaves the rest; they meet it when the library answers the rest; and the resulting emission stays
      within the limit when the library keeps it. */
  lemma ResultingWithinTarget(round: Rounding, library: Library, target: int, limit: int, fullPrev: int, resulting: int)
    requires Nearest(round) && target == Units(round, library.target) && limit == Units(round, library.limit)
    requires resulting == Resulting(round, library, fullPrev)
    ensures LeavesTheRest(library) && fullPrev <= target ==> fullPrev + resulting <= target
    ensures AnswersTheRest(library) ==> fullPrev + resulting == target
    ensures KeepsTheLimit(library) ==> resulting <= limit
  {
    var left := Value(target) - Value(fullPrev);
    assert left == Value(target - fullPrev);
    var answer := library.resulting(left, Value(limit));
    if LeavesTheRest(library) && fullPrev <= target {
      assert WithinRest(library, left, Value(limit));
      PrintedAtMost(round, answer, target - fullPrev);
    }
    if AnswersTheRest(library) {
      assert IsRest(library, left, Value(limit));
      PrintedExactly(round, target - fullPrev);
    }
    if KeepsTheLimit(library) {
      assert WithinLimit(library, left, Value(limit));
      PrintedAtMost(round, answer, limit);
    }
  }
}
