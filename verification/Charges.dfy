/** From one period to the next: the emission is charged to the accounts, and the sums that the
    calculators' contract keeps are read back as the previous emission of the next calculation. */
module Charges {
  import opened MapSum
  import opened MoneySpec
  import opened Conservation

  /** One queued `addsum`, in units of four decimals. */
  datatype Charge = Charge(receiver: string, units: int)

  /** What `charges` hold for an account together. */
  function Charged(charges: seq<Charge>, a: string): int
  {
    if charges == [] then 0
    else
      var last := charges[|charges| - 1];
      Charged(charges[..|charges| - 1], a) + if last.receiver == a then last.units else 0
  }

  /** The emission of each item of the result: an account's own, but nothing for a name that is also content,
      because the content item takes the account's place. */
  function Items(current: Grid, content: set<string>): Grid
  {
    map a | a in current.Keys + content :: if a in content then 0 else current[a]
  }

  /** The conversion to the result format: first an item per account, then one per content. */
  method ConvertResult(current: Grid, content: set<string>) returns (items: Grid)
    ensures items == Items(current, content)
  {
    items := map[];
    var left := current.Keys;
    while left != {}
      invariant left <= current.Keys && items.Keys == current.Keys - left
      invariant forall a :: a in items ==> items[a] == current[a]
      decreases left
    {
      var a :| a in left;
      items := items[a := current[a]];
      left := left - {a};
    }
    left := content;
    while left != {}
      invariant left <= content && items.Keys == current.Keys + (content - left)
      invariant forall a :: a in items ==> items[a] == if a in content - left then 0 else current[a]
      decreases left
    {
      var a :| a in left;
      items := items[a := 0];
      left := left - {a};
    }
  }

  /** What an item is due to be charged: only real accounts, and only a unit or more. */
  function DueCharge(accounts: seq<string>, items: Grid, a: string): int
  {
    if a in items && a in accounts && items[a] >= 1 then items[a] else 0
  }

  /** The charges hold for each account what is due, and are to accounts that are due some. */
  ghost predicate AreCharges(charges: seq<Charge>, accounts: seq<string>, items: Grid)
  {
    && (forall a :: Charged(charges, a) == DueCharge(accounts, items, a))
    && (forall i :: 0 <= i < |charges| ==> DueCharge(accounts, items, charges[i].receiver) >= 1)
  }

  lemma ChargedSnoc(charges: seq<Charge>, c: Charge, a: string)
    ensures Charged(charges + [c], a) == Charged(charges, a) + if c.receiver == a then c.units else 0
  {
    assert (charges + [c])[..|charges|] == charges;
  }

  /** `set_emission`; the order in which the accounts are visited is left open. */
  method SetEmission(accounts: seq<string>, items: Grid) returns (charges: seq<Charge>)
    ensures AreCharges(charges, accounts, items)
  {
    charges := [];
    var left := items.Keys;
    while left != {}
      invariant left <= items.Keys
      invariant forall a :: Charged(charges, a) == if a in left then 0 else DueCharge(accounts, items, a)
      invariant forall i :: 0 <= i < |charges| ==> DueCharge(accounts, items, charges[i].receiver) >= 1
      decreases left
    {
      var a :| a in left;
      left := left - {a};
      if a !in accounts {
        continue;
      }
      if items[a] < 1 {
        continue;
      }
      var charge := Charge(a, items[a]);
      forall b ensures Charged(charges + [charge], b) == Charged(charges, b) + if a == b then items[a] else 0 {
        ChargedSnoc(charges, charge, b);
      }
      charges := charges + [charge];
    }
  }

  /** A table that adds each charge to the sum of its receiver. */
  function AddSums(sums: Amounts, charges: seq<Charge>): Amounts
  {
    if charges == [] then sums
    else
      var m, c := AddSums(sums, charges[..|charges| - 1]), charges[|charges| - 1];
      m[c.receiver := At(m, c.receiver) + Value(c.units)]
  }

  function PreviousEmission(round: Rounding, accounts: seq<string>, sums: Amounts): Grid
  {
    map a | a in accounts && a in sums :: Units(round, sums[a])
  }

  /** `get_previous_emission`. */
  method GetPreviousEmission(round: Rounding, accounts: seq<string>, sums: Amounts) returns (previous: Grid)
    ensures previous == PreviousEmission(round, accounts, sums)
  {
    previous := map[];
    for i := 0 to |accounts|
      invariant previous == PreviousEmission(round, accounts[..i], sums)
    {
      if accounts[i] !in sums {
        continue;
      }
      previous := previous[accounts[i] := Units(round, sums[accounts[i]])];
    }
    assert accounts[..|accounts|] == accounts;
  }

  function Values(m: Grid): Amounts
  {
    map a | a in m :: Value(m[a])
  }

  /** The previous emission of the next period. */
  function Carried(accounts: seq<string>, previous: Grid, items: Grid): Grid
  {
    map a | a in accounts && (a in previous || DueCharge(accounts, items, a) >= 1) ::
      Units0(previous, a) + DueCharge(accounts, items, a)
  }

  ghost predicate Receives(charges: seq<Charge>, a: string)
  {
    exists i :: 0 <= i < |charges| && charges[i].receiver == a
  }

  lemma ReceivesSnoc(front: seq<Charge>, c: Charge, a: string)
    ensures Receives(front + [c], a) <==> Receives(front, a) || c.receiver == a
  {
    var charges := front + [c];
    if Receives(front, a) {
      var i :| 0 <= i < |front| && front[i].receiver == a;
      assert charges[i].receiver == a;
    }
    if c.receiver == a { assert charges[|front|].receiver == a; }
  }

  /** The table after the charges: what it holds of each account, and which accounts it knows. */
  lemma {:induction false} AddSumsIs(previous: Grid, charges: seq<Charge>, a: string)
    ensures At(AddSums(Values(previous), charges), a) == Value(Units0(previous, a) + Charged(charges, a))
    ensures a in AddSums(Values(previous), charges) <==> a in previous || Receives(charges, a)
  {
    if charges != [] {
      var front, c := charges[..|charges| - 1], charges[|charges| - 1];
      AddSumsIs(previous, front, a);
      assert charges == front + [c];
      ReceivesSnoc(front, c, a);
    }
  }

  lemma {:induction false} ChargedSome(charges: seq<Charge>, a: string)
    requires Charged(charges, a) != 0
    ensures Receives(charges, a)
  {
    var front, c := charges[..|charges| - 1], charges[|charges| - 1];
    if c.receiver != a { ChargedSome(front, a); }
    assert charges == front + [c];
    ReceivesSnoc(front, c, a);
  }

  /** The entry of an account in the table is what the account had and was due. */
  ghost predicate ReadsBack(round: Rounding, accounts: seq<string>, previous: Grid, items: Grid, sums: Amounts,
                            a: string)
  {
    && (a in sums <==> a in previous || DueCharge(accounts, items, a) >= 1)
    && (a in sums ==> Units(round, sums[a]) == Units0(previous, a) + DueCharge(accounts, items, a))
  }

  lemma ReadBackOne(round: Rounding, accounts: seq<string>, previous: Grid, items: Grid, charges: seq<Charge>,
                    a: string)
    requires Nearest(round) && AreCharges(charges, accounts, items)
    ensures ReadsBack(round, accounts, previous, items, AddSums(Values(previous), charges), a)
  {
    AddSumsIs(previous, charges, a);
    if DueCharge(accounts, items, a) >= 1 { ChargedSome(charges, a); }
    PrintedExactly(round, Units0(previous, a) + Charged(charges, a));
  }

  lemma ReadBackAll(round: Rounding, accounts: seq<string>, previous: Grid, items: Grid, sums: Amounts)
    requires forall a :: ReadsBack(round, accounts, previous, items, sums, a)
    ensures PreviousEmission(round, accounts, sums) == Carried(accounts, previous, items)
  {
    forall a ensures a in PreviousEmission(round, accounts, sums) <==> a in Carried(accounts, previous, items) {
      assert ReadsBack(round, accounts, previous, items, sums, a);
    }
    forall a | a in PreviousEmission(round, accounts, sums)
      ensures PreviousEmission(round, accounts, sums)[a] == Carried(accounts, previous, items)[a]
    {
      assert ReadsBack(round, accounts, previous, items, sums, a);
    }
  }

  /** Charging the emission, adding it up in the table and reading the table back loses no unit. */
  lemma ReadBackIsCarried(round: Rounding, accounts: seq<string>, previous: Grid, items: Grid, charges: seq<Charge>)
    requires Nearest(round) && AreCharges(charges, accounts, items)
    ensures PreviousEmission(round, accounts, AddSums(Values(previous), charges)) ==
            Carried(accounts, previous, items)
  {
    var sums := AddSums(Values(previous), charges);
    forall a ensures ReadsBack(round, accounts, previous, items, sums, a) {
      ReadBackOne(round, accounts, previous, items, charges, a);
    }
    ReadBackAll(round, accounts, previous, items, sums);
  }

  /** The table after the charges is again one of whole units: it holds what the next period starts from. */
  lemma TableIsCarried(accounts: seq<string>, previous: Grid, items: Grid, charges: seq<Charge>)
    requires AreCharges(charges, accounts, items) && AllKnown(previous, accounts)
    ensures AddSums(Values(previous), charges) == Values(Carried(accounts, previous, items))
  {
    var table, next := AddSums(Values(previous), charges), Carried(accounts, previous, items);
    forall a ensures a in table <==> a in next {
      TableOne(accounts, previous, items, charges, a);
    }
    forall a | a in table ensures table[a] == Values(next)[a] {
      TableOne(accounts, previous, items, charges, a);
    }
  }

  lemma TableOne(accounts: seq<string>, previous: Grid, items: Grid, charges: seq<Charge>, a: string)
    requires AreCharges(charges, accounts, items) && AllKnown(previous, accounts)
    ensures var table, next := AddSums(Values(previous), charges), Carried(accounts, previous, items);
            (a in table <==> a in next) && (a in table ==> table[a] == Value(next[a]))
  {
    AddSumsIs(previous, charges, a);
    if DueCharge(accounts, items, a) >= 1 { ChargedSome(charges, a); }
    if Receives(charges, a) {
      var i :| 0 <= i < |charges| && charges[i].receiver == a;
      assert DueCharge(accounts, items, charges[i].receiver) >= 1;
    }
    assert a in AddSums(Values(previous), charges) ==>
             AddSums(Values(previous), charges)[a] == At(AddSums(Values(previous), charges), a);
  }

  /** Every account that earned something is a real one whose name is not content; none earned a negative
      amount. */
  ghost predicate AllChargeable(accounts: seq<string>, content: set<string>, current: Grid)
  {
    forall a :: a in current ==> current[a] == 0 || (current[a] > 0 && a in accounts && a !in content)
  }

  /** Accounts with a sum in the table are real. */
  ghost predicate AllKnown(previous: Grid, accounts: seq<string>)
  {
    forall a :: a in previous ==> a in accounts
  }

  /** The next period starts from exactly this period's cumulative emission if and only if every account
      that earned something is a real one whose name is not content, and none earned a negative amount. */
  lemma CarriedExactly(round: Rounding, accounts: seq<string>, content: set<string>, previous: Grid, current: Grid)
    requires Nearest(round) && AllKnown(previous, accounts) && previous.Keys <= current.Keys
    ensures SameUnits(Carried(accounts, previous, Items(current, content)), CumulativeOf(round, previous, current)) <==>
            AllChargeable(accounts, content, current)
  {
    var next := Carried(accounts, previous, Items(current, content));
    var cumulative := CumulativeOf(round, previous, current);
    forall a | a in current
      ensures Units0(next, a) == Units0(cumulative, a) <==>
              current[a] == 0 || (current[a] > 0 && a in accounts && a !in content)
    {
      CumulativeIsExact(round, Units0(previous, a), current[a]);
      assert Units0(cumulative, a) == Units0(previous, a) + current[a];
    }
    if AllChargeable(accounts, content, current) {
      forall a ensures Units0(next, a) == Units0(cumulative, a) {
        if a !in current { assert a !in next && a !in cumulative; }
      }
    }
  }

  /** An account without an entry counts as zero. */
  ghost predicate SameUnits(m: Grid, n: Grid)
  {
    forall a :: Units0(m, a) == Units0(n, a)
  }

  // ---- runs over many periods ---------------------------------------------------------------

  /** A period: the real accounts, the accounts and contents known from snapshot and history, the importance
      of the accounts, the resulting emission, and the charges that were queued, in some order. */
  datatype Period = Period(accounts: seq<string>, names: set<string>, content: set<string>, importance: Amounts,
                           resulting: int, charges: seq<Charge>)

  /** What a period reads back from the table, and what it emits on top. */
  function Start(round: Rounding, p: Period, table: Amounts): Grid
  {
    PreviousEmission(round, p.accounts, table)
  }

  function Current(round: Rounding, p: Period, table: Amounts): Grid
  {
    CurrentOf(round, p.resulting, p.importance, p.names + Start(round, p, table).Keys)
  }

  /** The table after the periods: each adds its charges. */
  function Table(periods: seq<Period>): Amounts
  {
    if periods == [] then map[] else AddSums(Table(periods[..|periods| - 1]), periods[|periods| - 1].charges)
  }

  /** Each period reads the table back, emits by it, and queues the charges for what it emits. */
  ghost predicate IsRun(round: Rounding, periods: seq<Period>)
  {
    periods == [] ||
    (var front, p := periods[..|periods| - 1], periods[|periods| - 1];
     IsRun(round, front) && AreCharges(p.charges, p.accounts, Items(Current(round, p, Table(front)), p.content)))
  }

  /** The printed totals of the periods' emission together. */
  ghost function Issued(round: Rounding, periods: seq<Period>): int
  {
    if periods == [] then 0
    else
      var front, p := periods[..|periods| - 1], periods[|periods| - 1];
      Issued(round, front) + round(Sum(Reals(Current(round, p, Table(front)))))
  }

  /** In no period an account earned a negative amount. */
  ghost predicate NoneNegative(round: Rounding, periods: seq<Period>)
  {
    periods == [] ||
    (var front, p := periods[..|periods| - 1], periods[|periods| - 1];
     NoneNegative(round, front) && NonNegativeUnits(Current(round, p, Table(front))))
  }

  ghost predicate NonNegativeUnits(current: Grid)
  {
    forall a :: a in current ==> current[a] >= 0
  }

  /** In every period each account that earned something was a real one whose name is not content. */
  ghost predicate AllEarnersCharged(round: Rounding, periods: seq<Period>)
  {
    periods == [] ||
    (var front, p := periods[..|periods| - 1], periods[|periods| - 1];
     AllEarnersCharged(round, front) && AllChargeable(p.accounts, p.content, Current(round, p, Table(front))))
  }

  function TotalUnits(charges: seq<Charge>): int
  {
    if charges == [] then 0 else TotalUnits(charges[..|charges| - 1]) + charges[|charges| - 1].units
  }

  lemma {:induction false} AddSumsTotal(sums: Amounts, charges: seq<Charge>)
    ensures Sum(AddSums(sums, charges)) == Sum(sums) + Value(TotalUnits(charges))
  {
    if charges != [] {
      var front, c := charges[..|charges| - 1], charges[|charges| - 1];
      AddSumsTotal(sums, front);
      var m := AddSums(sums, front);
      SumPut(m, c.receiver, At(m, c.receiver) + Value(c.units));
    }
  }

  /** What the charges hold for each of some accounts. */
  function PerAccount(names: set<string>, charges: seq<Charge>): Grid
  {
    map a | a in names :: Charged(charges, a)
  }

  ghost predicate ReceiversAmong(charges: seq<Charge>, names: set<string>)
  {
    forall i :: 0 <= i < |charges| ==> charges[i].receiver in names
  }

  lemma ZeroSum(names: set<string>)
    ensures Sum(Reals(PerAccount(names, []))) == 0.0
  {
    var m := Reals(PerAccount(names, []));
    SumConstant(m, 0.0);
  }

  /** Added up account by account the charges are all the charges. */
  lemma {:induction false} PerAccountTotal(names: set<string>, charges: seq<Charge>)
    requires ReceiversAmong(charges, names)
    ensures Sum(Reals(PerAccount(names, charges))) == TotalUnits(charges) as real
  {
    if charges == [] {
      ZeroSum(names);
    } else {
      var front, c := charges[..|charges| - 1], charges[|charges| - 1];
      PerAccountTotal(names, front);
      var m := Reals(PerAccount(names, front));
      SumPut(m, c.receiver, (Charged(front, c.receiver) + c.units) as real);
      assert Reals(PerAccount(names, charges)) == m[c.receiver := (Charged(front, c.receiver) + c.units) as real];
    }
  }

  /** What is charged in a period is what is due together. */
  lemma ChargedTotal(accounts: seq<string>, current: Grid, content: set<string>, charges: seq<Charge>)
    requires AreCharges(charges, accounts, Items(current, content))
    ensures Sum(Reals(PerAccount(current.Keys, charges))) == TotalUnits(charges) as real
  {
    forall i | 0 <= i < |charges| ensures charges[i].receiver in current.Keys {
      assert DueCharge(accounts, Items(current, content), charges[i].receiver) >= 1;
    }
    PerAccountTotal(current.Keys, charges);
  }

  lemma {:induction false} SumAtMost(m: Amounts, n: Amounts)
    requires m.Keys == n.Keys && forall a :: a in m ==> m[a] <= n[a]
    ensures Sum(m) <= Sum(n)
    ensures Sum(m) == Sum(n) <==> m == n
    decreases |m|
  {
    if a :| a in m {
      SumRemove(m, a);
      SumRemove(n, a);
      Smaller(m, a);
      SumAtMost(m - {a}, n - {a});
      if m[a] == n[a] && m - {a} == n - {a} { SameMaps(m, n, a); }
    } else {
      assert m == map[] && n == map[];
    }
  }

  lemma SameMaps(m: Amounts, n: Amounts, a: string)
    requires a in m && a in n && m[a] == n[a] && m - {a} == n - {a}
    ensures m == n
  {
    assert m == (m - {a})[a := m[a]] && n == (n - {a})[a := n[a]];
  }

  /** Of non-negative amounts at most all is charged, and all exactly when every earner is a real account whose
      name is not content. */
  lemma ChargedExactly(accounts: seq<string>, current: Grid, content: set<string>, charges: seq<Charge>)
    requires AreCharges(charges, accounts, Items(current, content)) && NonNegativeUnits(current)
    ensures TotalUnits(charges) as real <= Sum(Reals(current))
    ensures TotalUnits(charges) as real == Sum(Reals(current)) <==> AllChargeable(accounts, content, current)
  {
    ChargedTotal(accounts, current, content, charges);
    var due := PerAccount(current.Keys, charges);
    forall a | a in current
      ensures due[a] == DueCharge(accounts, Items(current, content), a) <= current[a]
      ensures Reals(due)[a] == Reals(current)[a] <==> current[a] == 0 || (a in accounts && a !in content)
    {
    }
    SumAtMost(Reals(due), Reals(current));
  }

  /** Over any number of periods the table holds at most what was issued, and exactly that, to the last unit,
      if and only if in every period each account that earned something was a real one whose name is not content. */
  lemma {:induction false} TableIsIssuedExactly(round: Rounding, periods: seq<Period>)
    requires Nearest(round) && IsRun(round, periods) && NoneNegative(round, periods)
    ensures Sum(Table(periods)) <= Value(Issued(round, periods))
    ensures Sum(Table(periods)) == Value(Issued(round, periods)) <==> AllEarnersCharged(round, periods)
  {
    if periods != [] {
      var front, p := periods[..|periods| - 1], periods[|periods| - 1];
      var current := Current(round, p, Table(front));
      TableIsIssuedExactly(round, front);
      AddSumsTotal(Table(front), p.charges);
      ChargedExactly(p.accounts, current, p.content, p.charges);
      RealResultingIsSum(round, current);
    }
  }

  /** After any run the table holds whole units, whatever was charged. */
  lemma {:induction false} TableIsWhole(periods: seq<Period>) returns (g: Grid)
    ensures Table(periods) == Values(g)
  {
    if periods == [] {
      g := map[];
    } else {
      var front, p := periods[..|periods| - 1], periods[|periods| - 1];
      g := TableIsWhole(front);
      var before, table := g, AddSums(Values(g), p.charges);
      g := map a | a in table :: Units0(before, a) + Charged(p.charges, a);
      forall a | a in table ensures table[a] == Value(g[a]) { AddSumsIs(before, p.charges, a); }
    }
  }

  /** In every run, what a period reads back after another one is exactly that one's cumulative emission, for
      every account, if and only if every account that earned something in it was a real one whose name is not
      content, and none earned a negative amount; sums are only kept for real accounts. */
  lemma ReadBackExactly(round: Rounding, periods: seq<Period>)
    requires Nearest(round) && periods != [] && IsRun(round, periods)
    requires var p, table := periods[|periods| - 1], Table(periods[..|periods| - 1]);
             forall a :: a in table ==> a in p.accounts
    ensures var p, table := periods[|periods| - 1], Table(periods[..|periods| - 1]);
            SameUnits(PreviousEmission(round, p.accounts, Table(periods)),
                      CumulativeOf(round, Start(round, p, table), Current(round, p, table)))
            <==> AllChargeable(p.accounts, p.content, Current(round, p, table))
  {
    var front, p := periods[..|periods| - 1], periods[|periods| - 1];
    var table := Table(front);
    var g := TableIsWhole(front);
    var current := Current(round, p, table);
    StartIsTable(round, p, g);
    ReadBackIsCarried(round, p.accounts, g, Items(current, p.content), p.charges);
    CarriedExactly(round, p.accounts, p.content, g, current);
  }

  lemma StartIsTable(round: Rounding, p: Period, g: Grid)
    requires Nearest(round) && AllKnown(g, p.accounts)
    ensures Start(round, p, Values(g)) == g
  {
    var start := Start(round, p, Values(g));
    forall a | a in g ensures a in start && start[a] == g[a] { PrintedExactly(round, g[a]); }
  }

  // ---- when the conditions fall away --------------------------------------------------------

  /** Without a name that is both account and content, only earners without a real account are not charged. */
  ghost predicate OnlyReal(accounts: seq<string>, current: Grid)
  {
    forall a :: a in current ==> current[a] == 0 || (current[a] > 0 && a in accounts)
  }

  /** Accounts that only the table knows earn nothing, so a name that is content does no harm there. */
  lemma DisjointChargeable(round: Rounding, p: Period, table: Amounts)
    requires Nearest(round) && p.importance.Keys <= p.names && p.names !! p.content
    ensures AllChargeable(p.accounts, p.content, Current(round, p, table)) <==>
            OnlyReal(p.accounts, Current(round, p, table))
  {
    var current := Current(round, p, table);
    forall a | a in current && a in p.content ensures current[a] == 0 {
      PaidNothing(round, p.resulting);
    }
  }

  lemma {:induction false} InputsNonNegative(round: Rounding, periods: seq<Period>)
    requires Nearest(round)
    requires forall k :: 0 <= k < |periods| ==> periods[k].resulting >= 0 && NonNegative(periods[k].importance)
    ensures NoneNegative(round, periods)
  {
    if periods != [] {
      var front, p := periods[..|periods| - 1], periods[|periods| - 1];
      InputsNonNegative(round, front);
      var current := Current(round, p, Table(front));
      forall a | a in current ensures current[a] >= 0 {
        EarnsNonNegative(round, p.resulting, At(p.importance, a));
      }
    }
  }
}
