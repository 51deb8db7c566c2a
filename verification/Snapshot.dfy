/** The staked balance snapshot: a CSV file read back as one record per account, from which the
    stake of each account and the total stake are taken. */
module Snapshot {
  import opened MapSum
  import Csv

  type Record = map<string, string>

  const HEADING := ["name", "cpu_weight", "net_weight", "liquid"]

  /** One line as a map from column name to cell; a repeated column name keeps the last cell. */
  function RecordOf(names: seq<string>, row: seq<string>): Record
    requires |row| <= |names|
  {
    if row == [] then map[] else RecordOf(names, row[..|row| - 1])[names[|row| - 1] := row[|row| - 1]]
  }

  /** `read_csv_map`; a row longer than the heading makes it read past the column names. */
  method ReadCsvMap(csv: seq<seq<string>>) returns (inRange: bool, result: seq<Record>)
    ensures |csv| < 2 ==> inRange && result == []
    ensures |csv| >= 2 ==> (inRange <==> forall i :: 1 <= i < |csv| ==> |csv[i]| <= |csv[0]|)
    ensures |csv| >= 2 && inRange ==> |result| == |csv| - 1
    ensures |csv| >= 2 && inRange ==> forall i :: 1 <= i < |csv| ==> result[i - 1] == RecordOf(csv[0], csv[i])
  {
    result := [];
    if |csv| < 2 {
      return true, [];
    }
    var names := csv[0];
    for i := 1 to |csv|
      invariant |result| == i - 1 && forall k :: 1 <= k < i ==> |csv[k]| <= |names|
      invariant forall k :: 1 <= k < i ==> result[k - 1] == RecordOf(names, csv[k])
    {
      var line: Record := map[];
      for j := 0 to |csv[i]|
        invariant j <= |names| && line == RecordOf(names, csv[i][..j])
      {
        if j >= |names| {
          return false, result;
        }
        assert csv[i][..j + 1][..j] == csv[i][..j];
        line := line[names[j] := csv[i][j]];
      }
      assert csv[i][..|csv[i]|] == csv[i];
      result := result + [line];
    }
    inRange := true;
  }

  lemma {:induction false} RecordFields(names: seq<string>, row: seq<string>)
    requires |row| <= |names| && forall i, j :: 0 <= i < j < |names| ==> names[i] != names[j]
    ensures forall j :: 0 <= j < |row| ==> names[j] in RecordOf(names, row) && RecordOf(names, row)[names[j]] == row[j]
  {
    if row != [] {
      var n := |row| - 1;
      RecordFields(names, row[..n]);
      forall j | 0 <= j < |row| ensures names[j] in RecordOf(names, row) && RecordOf(names, row)[names[j]] == row[j] {
        if j < n { assert row[..n][j] == row[j]; }
      }
    }
  }

  /** A missing field reads as the empty string. */
  function Field(r: Record, k: string): string
  {
    if k in r then r[k] else ""
  }

  /** The staked balance of a record; an unlimited weight counts as zero. `parse` stands for `stol`. */
  function Stake(parse: string -> int, r: Record): int
  {
    var cpu, net := Field(r, "cpu_weight"), Field(r, "net_weight");
    parse(if cpu == "-1" then "0" else cpu) + parse(if net == "-1" then "0" else net)
  }

  class StakeTable {
    var staked: Amounts
    var totalStake: int

    constructor ()
      ensures staked == map[] && totalStake == 0
    {
      staked, totalStake := map[], 0;
    }

    /** `prepare_actor_ids`. */
    method PrepareActorIds(balances: seq<Record>, parse: string -> int)
      requires staked == map[] && totalStake == 0
      modifies this
      ensures staked == Staked(parse, balances)
      ensures totalStake == Total(parse, balances)
    {
      for i := 0 to |balances|
        invariant staked == Staked(parse, balances[..i]) && totalStake == Total(parse, balances[..i])
      {
        var item := balances[i];
        assert balances[..i + 1][..i] == balances[..i];
        var balance := Stake(parse, item);
        totalStake := totalStake + balance;
        staked := staked[Field(item, "name") := balance as real];
      }
      assert balances[..|balances|] == balances;
    }
  }

  function Total(parse: string -> int, balances: seq<Record>): int
  {
    if balances == [] then 0
    else Total(parse, balances[..|balances| - 1]) + Stake(parse, balances[|balances| - 1])
  }

  function Staked(parse: string -> int, balances: seq<Record>): Amounts
  {
    if balances == [] then map[]
    else
      var last := balances[|balances| - 1];
      Staked(parse, balances[..|balances| - 1])[Field(last, "name") := Stake(parse, last) as real]
  }

  lemma {:induction false} StakesNonNegative(parse: string -> int, balances: seq<Record>)
    requires forall i :: 0 <= i < |balances| ==> Stake(parse, balances[i]) >= 0
    ensures Total(parse, balances) >= 0
    ensures forall a :: a in Staked(parse, balances) ==> Staked(parse, balances)[a] >= 0.0
  {
    if balances != [] { StakesNonNegative(parse, balances[..|balances| - 1]); }
  }

  /** What later records of the same account replaced. */
  function Replaced(parse: string -> int, balances: seq<Record>): real
  {
    if balances == [] then 0.0
    else
      var front := balances[..|balances| - 1];
      Replaced(parse, front) + At(Staked(parse, front), Field(balances[|balances| - 1], "name"))
  }

  lemma {:induction false} TotalSplits(parse: string -> int, balances: seq<Record>)
    ensures Total(parse, balances) as real == Sum(Staked(parse, balances)) + Replaced(parse, balances)
  {
    if balances != [] {
      var n := |balances| - 1;
      TotalSplits(parse, balances[..n]);
      SumPut(Staked(parse, balances[..n]), Field(balances[n], "name"), Stake(parse, balances[n]) as real);
    }
  }

  /** Every record that a later one of the same name follows holds no stake. */
  ghost predicate RepeatsEmpty(parse: string -> int, balances: seq<Record>)
  {
    forall i, j :: 0 <= i < j < |balances| && Field(balances[i], "name") == Field(balances[j], "name") ==>
                     Stake(parse, balances[i]) == 0
  }

  /** The entry of a name is the stake of its last record. */
  lemma {:induction false} LastRecord(parse: string -> int, balances: seq<Record>, name: string) returns (i: int)
    ensures -1 <= i < |balances|
    ensures forall j :: i < j < |balances| ==> Field(balances[j], "name") != name
    ensures i >= 0 ==> Field(balances[i], "name") == name
    ensures i >= 0 ==> At(Staked(parse, balances), name) == Stake(parse, balances[i]) as real
    ensures i < 0 ==> At(Staked(parse, balances), name) == 0.0
  {
    if balances == [] {
      i := -1;
    } else if Field(balances[|balances| - 1], "name") == name {
      i := |balances| - 1;
    } else {
      var front := balances[..|balances| - 1];
      i := LastRecord(parse, front, name);
      assert forall j :: 0 <= j < |front| ==> front[j] == balances[j];
    }
  }

  /** One more record: repeats stay empty when the record it replaces, if any, was empty. */
  lemma RepeatsStep(parse: string -> int, balances: seq<Record>, k: int)
    requires balances != [] && -1 <= k < |balances| - 1
    requires k >= 0 ==> Field(balances[k], "name") == Field(balances[|balances| - 1], "name")
    requires forall j :: k < j < |balances| - 1 ==>
                           Field(balances[j], "name") != Field(balances[|balances| - 1], "name")
    ensures RepeatsEmpty(parse, balances) <==>
            RepeatsEmpty(parse, balances[..|balances| - 1]) && (k >= 0 ==> Stake(parse, balances[k]) == 0)
  {
    var n := |balances| - 1;
    var front := balances[..n];
    if RepeatsEmpty(parse, front) && (k >= 0 ==> Stake(parse, balances[k]) == 0) {
      forall i, j | 0 <= i < j <= n && Field(balances[i], "name") == Field(balances[j], "name")
        ensures Stake(parse, balances[i]) == 0
      {
        if j < n {
          assert front[i] == balances[i] && front[j] == balances[j];
        } else if i < k {
          assert front[i] == balances[i] && front[k] == balances[k];
        }
      }
    }
  }

  lemma {:induction false} ReplacedIsZero(parse: string -> int, balances: seq<Record>)
    requires forall i :: 0 <= i < |balances| ==> Stake(parse, balances[i]) >= 0
    ensures Replaced(parse, balances) >= 0.0
    ensures Replaced(parse, balances) == 0.0 <==> RepeatsEmpty(parse, balances)
  {
    if balances != [] {
      var n := |balances| - 1;
      ReplacedIsZero(parse, balances[..n]);
      var k := LastRecord(parse, balances[..n], Field(balances[n], "name"));
      RepeatsStep(parse, balances, k);
    }
  }

  /** The total stake is the sum of the accounts' stakes if and only if no repeated record held stake. */
  lemma TotalIsSumExactly(parse: string -> int, balances: seq<Record>)
    requires forall i :: 0 <= i < |balances| ==> Stake(parse, balances[i]) >= 0
    ensures Total(parse, balances) as real == Sum(Staked(parse, balances)) <==> RepeatsEmpty(parse, balances)
  {
    TotalSplits(parse, balances);
    ReplacedIsZero(parse, balances);
  }

  /** With one record per account the two agree, whatever the signs. */
  lemma {:induction false} TotalIsSum(parse: string -> int, balances: seq<Record>)
    requires forall i, j :: 0 <= i < j < |balances| ==> Field(balances[i], "name") != Field(balances[j], "name")
    ensures Total(parse, balances) as real == Sum(Staked(parse, balances))
  {
    if balances != [] {
      var n := |balances| - 1;
      TotalIsSum(parse, balances[..n]);
      var k := LastRecord(parse, balances[..n], Field(balances[n], "name"));
      SumPut(Staked(parse, balances[..n]), Field(balances[n], "name"), Stake(parse, balances[n]) as real);
    }
  }

  /** A snapshot file: the heading, then one row of four cells per account. */
  ghost predicate IsSnapshot(rows: seq<seq<string>>)
  {
    Csv.CleanRows(rows) && forall i :: 0 <= i < |rows| ==> |rows[i]| == 4
  }

  ghost predicate UniqueNames(rows: seq<seq<string>>)
    requires forall i :: 0 <= i < |rows| ==> |rows[i]| == 4
  {
    forall i, j :: 0 <= i < j < |rows| ==> rows[i][0] != rows[j][0]
  }

  lemma TotalOfRows(parse: string -> int, rows: seq<seq<string>>, records: seq<Record>)
    requires |records| == |rows| && forall i :: 0 <= i < |rows| ==> |rows[i]| == 4
    requires UniqueNames(rows) && forall i :: 0 <= i < |rows| ==> IsRecordOf(records[i], rows[i])
    ensures Total(parse, records) as real == Sum(Staked(parse, records))
  {
    forall i, j | 0 <= i < j < |records| ensures Field(records[i], "name") != Field(records[j], "name") {
      assert rows[i][0] != rows[j][0];
    }
    TotalIsSum(parse, records);
  }

  /** Writing a snapshot, reading it back and taking the stakes: one record per row with the row's
      cells, and with unique names a total that is the sum of the stakes. */
  method SnapshotRoundTrip(rows: seq<seq<string>>, parse: string -> int)
    returns (records: seq<Record>, table: StakeTable)
    requires IsSnapshot(rows)
    ensures |records| == |rows|
    ensures forall i :: 0 <= i < |rows| ==> IsRecordOf(records[i], rows[i])
    ensures table.staked == Staked(parse, records) && table.totalStake == Total(parse, records)
    ensures UniqueNames(rows) ==> table.totalStake as real == Sum(table.staked)
  {
    var all := [HEADING] + rows;
    assert Csv.CleanRow(HEADING);
    var w := Csv.WriteRows(all);
    var csv := Csv.ReadCsv(w.file);
    var inRange;
    inRange, records := ReadCsvMap(csv);
    forall i | 0 <= i < |rows| ensures IsRecordOf(records[i], rows[i]) {
      assert csv[i + 1] == rows[i];
      RecordOfRow(rows[i]);
    }
    table := new StakeTable();
    table.PrepareActorIds(records, parse);
    if UniqueNames(rows) {
      TotalOfRows(parse, rows, records);
    }
  }

  lemma RecordOfRow(row: seq<string>)
    requires |row| == 4
    ensures IsRecordOf(RecordOf(HEADING, row), row)
  {
    RecordFields(HEADING, row);
    assert HEADING[0] == "name" && HEADING[1] == "cpu_weight" && HEADING[2] == "net_weight" && HEADING[3] == "liquid";
  }

  ghost predicate IsRecordOf(r: Record, row: seq<string>)
    requires |row| == 4
  {
    && Field(r, "name") == row[0]
    && Field(r, "cpu_weight") == row[1]
    && Field(r, "net_weight") == row[2]
    && Field(r, "liquid") == row[3]
  }

  ghost predicate AreRecordsOf(records: seq<Record>, rows: seq<seq<string>>)
  {
    |records| == |rows| && forall i :: 0 <= i < |rows| ==> |rows[i]| == 4 && IsRecordOf(records[i], rows[i])
  }

  /** The stake of a row: both weights count. */
  function StakeOfRow(parse: string -> int, row: seq<string>): int
    requires |row| == 4
  {
    parse(if row[1] == "-1" then "0" else row[1]) + parse(if row[2] == "-1" then "0" else row[2])
  }

  lemma StakeIsOfRow(parse: string -> int, record: Record, row: seq<string>)
    requires |row| == 4 && IsRecordOf(record, row)
    ensures Stake(parse, record) == StakeOfRow(parse, row) && Field(record, "name") == row[0]
  {
  }

  /** The stake of each account read back is that of its row. */
  lemma {:induction false} StakesOfRows(parse: string -> int, rows: seq<seq<string>>, records: seq<Record>, i: nat)
    requires AreRecordsOf(records, rows) && UniqueNames(rows) && i < |rows|
    ensures rows[i][0] in Staked(parse, records)
    ensures Staked(parse, records)[rows[i][0]] == StakeOfRow(parse, rows[i]) as real
    decreases |rows|
  {
    var n := |rows| - 1;
    StakeIsOfRow(parse, records[n], rows[n]);
    if i < n {
      assert rows[i][0] != rows[n][0];
      StakesOfRows(parse, rows[..n], records[..n], i);
    }
  }

  /** Each record counts in the total with the stake of its row, repeated names too. */
  lemma TotalOfRecords(parse: string -> int, rows: seq<seq<string>>, records: seq<Record>)
    requires AreRecordsOf(records, rows) && rows != []
    ensures Total(parse, []) == 0
    ensures Total(parse, records) == Total(parse, records[..|rows| - 1]) + StakeOfRow(parse, rows[|rows| - 1])
  {
    StakeIsOfRow(parse, records[|rows| - 1], rows[|rows| - 1]);
  }
}
