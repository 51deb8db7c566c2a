/** The arithmetic of rates, referrals and emission over real numbers, with printed values as any
    nearest rounding to their number of decimals. */
module MoneySpec {
  import opened MapSum

  /** A way of rounding to the nearest integer; which way halves go is left open. */
  type Rounding = real -> int

  ghost predicate IsNear(x: real, n: int)
  {
    Abs(x - n as real) <= 0.5
  }

  ghost predicate Nearest(round: Rounding)
  {
    forall x :: IsNear(x, round(x))
  }

  /** A value printed with ten decimals, read back. */
  function Printed10(round: Rounding, x: real): real
  {
    round(x * 10_000_000_000.0) as real * 0.0000000001
  }

  /** A value printed with four decimals, as a number of ten-thousandths, and that number as a value. */
  function Units(round: Rounding, x: real): int
  {
    round(x * 10_000.0)
  }

  function Value(units: int): real
  {
    units as real * 0.0001
  }

  function StakeRate(round: Rounding, staked: Amounts, totalStake: real, a: string): real
    requires totalStake != 0.0
  {
    Printed10(round, At(staked, a) / totalStake)
  }

  datatype Shares = Shares(social: real, transfer: real)

  /** Shares that exceed one together are replaced by the defaults. */
  function Effective(s: Shares): Shares
  {
    if s.social + s.transfer > 1.0 then Shares(0.4, 0.1) else s
  }

  function StakeShare(s: Shares): real
  {
    1.0 - (s.social + s.transfer)
  }

  /** The importance before it is printed. */
  function Due(s: Shares, social: real, transfer: real, stake: real): real
  {
    social * s.social + transfer * s.transfer + stake * StakeShare(s)
  }

  function Importance(round: Rounding, s: Shares, social: real, transfer: real, stake: real): real
  {
    Printed10(round, Due(s, social, transfer, stake))
  }

  // ---- referrals ----------------------------------------------------------------------------

  /** `source` was referred by `target`, `height` blocks ago. */
  datatype Referral = Referral(source: string, target: string, height: nat)

  const REF_PERIOD := 365 * 24 * 60 * 60 * 2

  function Fading(height: nat): real
  {
    if height >= REF_PERIOD then 0.0 else (REF_PERIOD - height) as real / REF_PERIOD as real
  }

  function Bonus(importance: real, height: nat): real
  {
    0.1 * (importance * Fading(height))
  }

  /** The referrer is credited first, then the source is set to what it had less the bonus. */
  function Refer(m: Amounts, r: Referral): Amounts
  {
    var had := At(m, r.source);
    var bonus := Bonus(had, r.height);
    m[r.target := At(m, r.target) + bonus][r.source := had - bonus]
  }

  function ReferAll(m: Amounts, refs: seq<Referral>): Amounts
  {
    if refs == [] then m else Refer(ReferAll(m, refs[..|refs| - 1]), refs[|refs| - 1])
  }

  /** The referrer recorded for each source, and the bonus of its reference; a later reference replaces both. */
  function Referrers(refs: seq<Referral>): map<string, string>
  {
    if refs == [] then map[]
    else Referrers(refs[..|refs| - 1])[refs[|refs| - 1].source := refs[|refs| - 1].target]
  }

  function Bonuses(m: Amounts, refs: seq<Referral>): Amounts
  {
    if refs == [] then map[]
    else
      var front, r := refs[..|refs| - 1], refs[|refs| - 1];
      Bonuses(m, front)[r.source := Bonus(At(ReferAll(m, front), r.source), r.height)]
  }

  // ---- emission -----------------------------------------------------------------------------

  /** Amounts on the four-decimal grid, in ten-thousandths. */
  type Grid = map<string, int>

  function Units0(m: Grid, a: string): int
  {
    if a in m then m[a] else 0
  }

  function Reals(m: Grid): Amounts
  {
    map a | a in m :: m[a] as real
  }

  /** What the emission library answers: the target for the network activity, the limit, and the resulting
      emission for a remaining target and a limit. */
  datatype Library = Library(target: real, limit: real, resulting: (real, real) -> real)

  /** The resulting emission in units: the printed target less the previous emission, and the printed limit,
      are what the library is asked with. */
  function Resulting(round: Rounding, library: Library, fullPrev: int): int
  {
    var left := Value(Units(round, library.target)) - Value(fullPrev);
    Units(round, library.resulting(left, Value(Units(round, library.limit))))
  }

  function CurrentEmission(round: Rounding, resulting: int, importance: real): int
  {
    Units(round, Value(resulting) * importance)
  }

  function CumulativeEmission(round: Rounding, previous: int, current: int): int
  {
    Units(round, Value(previous) + Value(current))
  }

  function CurrentOf(round: Rounding, resulting: int, importance: Amounts, names: set<string>): Grid
  {
    map a | a in names :: CurrentEmission(round, resulting, At(importance, a))
  }

  function CumulativeOf(round: Rounding, previous: Grid, current: Grid): Grid
  {
    map a | a in current :: CumulativeEmission(round, Units0(previous, a), current[a])
  }
}
