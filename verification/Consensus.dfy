/** The report table, the view of it that a node reads, the quorum on a hash, and the leader. */
module Consensus {

  datatype Report = Report(key: nat, acc: string, hash: string, block: nat)

  const MAX_UINT32 := 0xFFFF_FFFF

  // ---- reading the table --------------------------------------------------------------------

  /** The place of a new row in the index by block: behind all rows of its own and of lower blocks. */
  function InsertRow(rows: seq<Report>, r: Report): seq<Report>
  {
    if rows == [] || r.block < rows[0].block then [r] + rows else [rows[0]] + InsertRow(rows[1..], r)
  }

  /** The rows of a log, whose keys increase, in the order (block, key). */
  function ByBlock(log: seq<Report>): seq<Report>
  {
    if log == [] then [] else InsertRow(ByBlock(log[..|log| - 1]), log[|log| - 1])
  }

  function LowerBound(rows: seq<Report>, block: nat): seq<Report>
  {
    if rows == [] || rows[0].block >= block then rows else LowerBound(rows[1..], block)
  }

  function Take(rows: seq<Report>, n: nat): seq<Report>
  {
    if n < |rows| then rows[..n] else rows
  }

  function WhileBlock(rows: seq<Report>, block: nat): seq<Report>
  {
    if rows == [] || rows[0].block != block then [] else [rows[0]] + WhileBlock(rows[1..], block)
  }

  /** What a node reads: at most `n` rows from the lower bound on, up to the first of another block. */
  function Read(log: seq<Report>, block: nat, n: nat): seq<Report>
  {
    WhileBlock(Take(LowerBound(ByBlock(log), block), n), block)
  }

  /** The reports for a block, in the order they came in. */
  function OfBlock(log: seq<Report>, block: nat): seq<Report>
  {
    if log == [] then []
    else if log[|log| - 1].block == block then OfBlock(log[..|log| - 1], block) + [log[|log| - 1]]
    else OfBlock(log[..|log| - 1], block)
  }

  /** The same with the head first. */
  function Keep(rows: seq<Report>, block: nat): seq<Report>
  {
    if rows == [] then []
    else if rows[0].block == block then [rows[0]] + Keep(rows[1..], block)
    else Keep(rows[1..], block)
  }

  ghost predicate BlockSorted(rows: seq<Report>)
  {
    forall i, j :: 0 <= i < j < |rows| ==> rows[i].block <= rows[j].block
  }

  lemma {:induction false} InsertRowSorted(rows: seq<Report>, r: Report)
    requires BlockSorted(rows)
    ensures BlockSorted(InsertRow(rows, r))
    ensures forall x :: x in InsertRow(rows, r) ==> x == r || x in rows
  {
    if rows != [] && r.block >= rows[0].block {
      InsertRowSorted(rows[1..], r);
      var rest := InsertRow(rows[1..], r);
      forall i | 0 <= i < |rest| ensures rows[0].block <= rest[i].block {
        assert rest[i] in rest;
      }
    }
  }

  lemma {:induction false} InsertRowKeep(rows: seq<Report>, r: Report, block: nat)
    requires BlockSorted(rows)
    ensures Keep(InsertRow(rows, r), block) ==
            if r.block == block then Keep(rows, block) + [r] else Keep(rows, block)
  {
    if rows == [] {
      assert [r][1..] == [];
    } else if r.block < rows[0].block {
      if r.block == block { KeepNone(rows, block); }
      assert ([r] + rows)[1..] == rows;
    } else {
      InsertRowKeep(rows[1..], r, block);
    }
  }

  lemma {:induction false} KeepNone(rows: seq<Report>, block: nat)
    requires forall i :: 0 <= i < |rows| ==> rows[i].block > block
    ensures Keep(rows, block) == []
  {
    if rows != [] { KeepNone(rows[1..], block); }
  }

  lemma {:induction false} ByBlockKeeps(log: seq<Report>, block: nat)
    ensures BlockSorted(ByBlock(log)) && Keep(ByBlock(log), block) == OfBlock(log, block)
  {
    if log != [] {
      ByBlockKeeps(log[..|log| - 1], block);
      InsertRowSorted(ByBlock(log[..|log| - 1]), log[|log| - 1]);
      InsertRowKeep(ByBlock(log[..|log| - 1]), log[|log| - 1], block);
    }
  }

  lemma {:induction false} WhileIsKeep(rows: seq<Report>, block: nat, n: nat)
    requires BlockSorted(rows) && (rows != [] ==> rows[0].block >= block)
    ensures WhileBlock(Take(rows, n), block) == Take(Keep(rows, block), n)
  {
    if rows == [] || n == 0 {
    } else if rows[0].block != block {
      KeepNone(rows, block);
    } else {
      WhileIsKeep(rows[1..], block, n - 1);
      assert Take(rows, n)[1..] == Take(rows[1..], n - 1);
      assert Take([rows[0]] + Keep(rows[1..], block), n) == [rows[0]] + Take(Keep(rows[1..], block), n - 1);
    }
  }

  lemma {:induction false} LowerBoundKeep(rows: seq<Report>, block: nat)
    requires BlockSorted(rows)
    ensures Keep(LowerBound(rows, block), block) == Keep(rows, block)
    ensures BlockSorted(LowerBound(rows, block))
    ensures LowerBound(rows, block) != [] ==> LowerBound(rows, block)[0].block >= block
  {
    if rows != [] && rows[0].block < block { LowerBoundKeep(rows[1..], block); }
  }

  /** A node's view is the first `n` reports for the block, in the order they came in. */
  lemma ReadIsPrefix(log: seq<Report>, block: nat, n: nat)
    ensures Read(log, block, n) == Take(OfBlock(log, block), n)
  {
    ByBlockKeeps(log, block);
    LowerBoundKeep(ByBlock(log), block);
    WhileIsKeep(LowerBound(ByBlock(log), block), block, n);
  }

  lemma {:induction false} OfBlockPrefix(log: seq<Report>, m: nat, block: nat)
    requires m <= |log|
    ensures OfBlock(log[..m], block) <= OfBlock(log, block)
    decreases |log|
  {
    if m == |log| {
      assert log[..m] == log;
    } else {
      OfBlockPrefix(log[..|log| - 1], m, block);
      assert log[..|log| - 1][..m] == log[..m];
    }
  }

  /** Reading later shows the same rows, and maybe more behind them. */
  lemma ReadGrows(log: seq<Report>, early: nat, late: nat, block: nat, n: nat)
    requires early <= late <= |log|
    ensures Read(log[..early], block, n) <= Read(log[..late], block, n)
    ensures |Read(log[..late], block, n)| <= n
  {
    ReadIsPrefix(log[..early], block, n);
    ReadIsPrefix(log[..late], block, n);
    OfBlockPrefix(log[..late], early, block);
    assert log[..late][..early] == log[..early];
  }

  ghost predicate AreRowsOf(rows: seq<Report>, log: seq<Report>, block: nat)
  {
    forall i :: 0 <= i < |rows| ==> rows[i] in log && rows[i].block == block
  }

  lemma {:induction false} OfBlockMembers(log: seq<Report>, block: nat)
    ensures AreRowsOf(OfBlock(log, block), log, block)
  {
    if log != [] {
      OfBlockMembers(log[..|log| - 1], block);
    }
  }

  ghost predicate KeysIncrease(rows: seq<Report>)
  {
    forall i, j :: 0 <= i < j < |rows| ==> rows[i].key < rows[j].key
  }

  lemma {:induction false} OfBlockKeys(log: seq<Report>, block: nat)
    requires KeysIncrease(log)
    ensures KeysIncrease(OfBlock(log, block))
  {
    if log != [] {
      var front := log[..|log| - 1];
      OfBlockKeys(front, block);
      OfBlockMembers(front, block);
      assert forall r :: r in front ==> r.key < log[|log| - 1].key;
    }
  }

  lemma ReadRows(log: seq<Report>, block: nat, n: nat)
    ensures AreRowsOf(Read(log, block, n), log, block)
    ensures KeysIncrease(log) ==> KeysIncrease(Read(log, block, n))
  {
    ReadIsPrefix(log, block, n);
    OfBlockMembers(log, block);
    if KeysIncrease(log) { OfBlockKeys(log, block); }
  }

  // ---- votes, quorum, leader ----------------------------------------------------------------

  function Votes(view: seq<Report>, hash: string): nat
  {
    if view == [] then 0
    else Votes(view[..|view| - 1], hash) + if view[|view| - 1].hash == hash then 1 else 0
  }

  /** Three quarters of the calculators, rounded up. */
  function ConsensusMinimum(n: nat): nat
  {
    (3 * n + 3) / 4
  }

  predicate HasQuorum(view: seq<Report>, hash: string, n: nat)
  {
    Votes(view, hash) > 0 && Votes(view, hash) >= ConsensusMinimum(n)
  }

  lemma {:induction false} VotesExclude(view: seq<Report>, a: string, b: string)
    requires a != b
    ensures Votes(view, a) + Votes(view, b) <= |view|
  {
    if view != [] { VotesExclude(view[..|view| - 1], a, b); }
  }

  lemma {:induction false} VotesGrow(view: seq<Report>, later: seq<Report>, hash: string)
    requires view <= later
    ensures Votes(view, hash) <= Votes(later, hash)
    decreases |later|
  {
    if |view| < |later| {
      VotesGrow(view, later[..|later| - 1], hash);
    } else {
      assert view == later;
    }
  }

  /** Two quorums in views of which one extends the other are on the same hash; with equal views: no
      view has two quorum hashes, so the order in which hashes are looked at does not matter. */
  lemma QuorumAgreement(view: seq<Report>, later: seq<Report>, a: string, b: string, n: nat)
    requires view <= later && |later| <= n
    requires HasQuorum(view, a, n) && HasQuorum(later, b, n)
    ensures a == b
  {
    VotesGrow(view, later, a);
    if a != b { VotesExclude(later, a, b); }
  }

  /** The lowest-key report of a hash, among those below the largest 32-bit key. */
  function Lowest(view: seq<Report>, hash: string): (r: seq<Report>)
    ensures |r| <= 1
  {
    if view == [] then []
    else
      var before, last := Lowest(view[..|view| - 1], hash), view[|view| - 1];
      if last.hash != hash then before
      else if last.key >= (if before == [] then MAX_UINT32 else before[0].key) then before
      else [last]
  }

  /** The account of the elected leader, empty when there is none. */
  function LeaderOf(view: seq<Report>, hash: string): string
  {
    if Lowest(view, hash) == [] then "" else Lowest(view, hash)[0].acc
  }

  /** The outcome of the election on a view of at most `n` rows. The empty hash stands for no
      consensus, as it does in the source. */
  ghost function Elect(view: seq<Report>, n: nat): string
  {
    if hash :| HasQuorum(view, hash, n) then (if hash == "" then "" else LeaderOf(view, hash)) else ""
  }

  lemma {:induction false} LowestIsReport(view: seq<Report>, hash: string)
    ensures Lowest(view, hash) != [] ==> Lowest(view, hash)[0] in view && Lowest(view, hash)[0].hash == hash
    ensures Lowest(view, hash) != [] ==> Lowest(view, hash)[0].key < MAX_UINT32
    ensures forall r :: r in view && r.hash == hash && r.key < MAX_UINT32 ==>
              Lowest(view, hash) != [] && Lowest(view, hash)[0].key <= r.key
  {
    if view != [] {
      LowestIsReport(view[..|view| - 1], hash);
      assert view == view[..|view| - 1] + [view[|view| - 1]];
    }
  }

  /** Rows that come in later have higher keys and do not change the lowest one. */
  lemma {:induction false} LowestStable(view: seq<Report>, later: seq<Report>, hash: string)
    requires view <= later && KeysIncrease(later)
    requires Votes(view, hash) > 0
    ensures Lowest(later, hash) == Lowest(view, hash)
    decreases |later|
  {
    if |view| < |later| {
      var front, last := later[..|later| - 1], later[|later| - 1];
      LowestStable(view, front, hash);
      LowestIsReport(front, hash);
      VoterExists(view, hash);
      var r :| r in view && r.hash == hash;
      assert r in front && r.key < last.key;
    } else {
      assert view == later;
    }
  }

  lemma {:induction false} VoterExists(view: seq<Report>, hash: string)
    requires Votes(view, hash) > 0
    ensures exists r :: r in view && r.hash == hash
  {
    if view[|view| - 1].hash == hash {
      assert view[|view| - 1] in view;
    } else {
      VoterExists(view[..|view| - 1], hash);
      var r :| r in view[..|view| - 1] && r.hash == hash;
      assert r in view;
    }
  }

  /** The quorum hash of a view decides the election. */
  lemma ElectIs(view: seq<Report>, hash: string, n: nat)
    requires |view| <= n && HasQuorum(view, hash, n)
    ensures Elect(view, n) == if hash == "" then "" else LeaderOf(view, hash)
  {
    var b :| HasQuorum(view, b, n) && Elect(view, n) == if b == "" then "" else LeaderOf(view, b);
    QuorumAgreement(view, view, hash, b, n);
  }

  lemma ElectedHasQuorum(view: seq<Report>, n: nat) returns (hash: string)
    requires Elect(view, n) != ""
    ensures hash != "" && HasQuorum(view, hash, n)
    ensures exists r :: r in view && r.hash == hash && r.acc == Elect(view, n)
  {
    hash :| HasQuorum(view, hash, n) && Elect(view, n) == if hash == "" then "" else LeaderOf(view, hash);
    LowestIsReport(view, hash);
    if hash != "" {
      assert LeaderOf(view, hash) != "";
      assert Lowest(view, hash) != [];
      assert Lowest(view, hash)[0].acc == Elect(view, n);
    }
  }

  /** Once a view has a quorum, every later view elects the same leader. */
  lemma LeaderKept(view: seq<Report>, later: seq<Report>, hash: string, n: nat)
    requires view <= later && |later| <= n && KeysIncrease(later)
    requires HasQuorum(view, hash, n)
    ensures HasQuorum(later, hash, n) && Elect(later, n) == Elect(view, n)
  {
    VotesGrow(view, later, hash);
    ElectIs(view, hash, n);
    ElectIs(later, hash, n);
    LowestStable(view, later, hash);
  }

  /** Whoever reads the log later than a node that found a leader finds the same leader. */
  lemma LeaderStable(log: seq<Report>, early: nat, late: nat, block: nat, n: nat)
    requires early <= late <= |log| && KeysIncrease(log)
    requires Elect(Read(log[..early], block, n), n) != ""
    ensures Elect(Read(log[..early], block, n), n) == Elect(Read(log[..late], block, n), n)
  {
    ReadGrows(log, early, late, block, n);
    ReadRows(log[..late], block, n);
    var hash := ElectedHasQuorum(Read(log[..early], block, n), n);
    LeaderKept(Read(log[..early], block, n), Read(log[..late], block, n), hash, n);
  }

  // ---- the election in plain terms ----------------------------------------------------------

  /** The votes for a hash are the rows that report it. */
  lemma {:induction false} VotesAreRows(view: seq<Report>, hash: string)
    ensures Votes(view, hash) == |set i | 0 <= i < |view| && view[i].hash == hash|
  {
    if view != [] {
      var front, n := view[..|view| - 1], |view| - 1;
      VotesAreRows(front, hash);
      var before := set i | 0 <= i < |front| && front[i].hash == hash;
      var now := set i | 0 <= i < |view| && view[i].hash == hash;
      assert forall i :: 0 <= i < n ==> front[i] == view[i];
      assert now == if view[n].hash == hash then before + {n} else before;
      assert n !in before;
    }
  }

  /** A quorum is three quarters of the calculators or more, and at least one vote. */
  lemma QuorumIsThreeQuarters(view: seq<Report>, hash: string, n: nat)
    ensures HasQuorum(view, hash, n) <==> Votes(view, hash) > 0 && 4 * Votes(view, hash) >= 3 * n
  {
  }

  /** Row `i` reports a non-empty hash that at least three quarters of the `n` calculators report, its key is below
      the largest 32-bit number and the lowest, first among equals, and its account is not empty. */
  ghost predicate LeadingRow(view: seq<Report>, n: nat, i: int)
  {
    && 0 <= i < |view| && view[i].hash != "" && view[i].acc != "" && view[i].key < 0xFFFF_FFFF
    && 4 * |set j | 0 <= j < |view| && view[j].hash == view[i].hash| >= 3 * n
    && forall j :: 0 <= j < |view| && view[j].hash == view[i].hash ==>
                     view[i].key < view[j].key || (view[i].key == view[j].key && i <= j)
  }

  lemma {:induction false} LowestIsFirst(view: seq<Report>, hash: string, i: nat)
    requires i < |view| && view[i].hash == hash && view[i].key < 0xFFFF_FFFF
    requires forall j :: 0 <= j < |view| && view[j].hash == hash ==>
                           view[i].key < view[j].key || (view[i].key == view[j].key && i <= j)
    ensures Lowest(view, hash) == [view[i]]
  {
    var front, n := view[..|view| - 1], |view| - 1;
    if i < n {
      forall j | 0 <= j < n && front[j].hash == hash
        ensures front[i].key < front[j].key || (front[i].key == front[j].key && i <= j)
      {
        assert front[j] == view[j];
      }
      LowestIsFirst(front, hash, i);
    } else {
      LowestIsReport(front, hash);
      if Lowest(front, hash) != [] {
        var j :| 0 <= j < n && front[j] == Lowest(front, hash)[0];
        assert view[j] == front[j];
      }
    }
  }

  lemma {:induction false} LowestRow(view: seq<Report>, hash: string) returns (i: nat)
    requires Lowest(view, hash) != []
    ensures i < |view| && view[i] == Lowest(view, hash)[0] && view[i].hash == hash && view[i].key < 0xFFFF_FFFF
    ensures forall j :: 0 <= j < |view| && view[j].hash == hash ==>
                          view[i].key < view[j].key || (view[i].key == view[j].key && i <= j)
  {
    var front, n := view[..|view| - 1], |view| - 1;
    if Lowest(front, hash) != [] && Lowest(view, hash) == Lowest(front, hash) {
      i := LowestRow(front, hash);
    } else {
      i := n;
      LowestIsReport(front, hash);
    }
    LowestIsReport(view, hash);
    forall j | 0 <= j < |view| && view[j].hash == hash
      ensures view[i].key < view[j].key || (view[i].key == view[j].key && i <= j)
    {
      if j < n { assert front[j] == view[j] && front[j] in front; }
    }
  }

  /** The elected account is that of a leading row, there is one when a row leads, and all leading rows agree. */
  lemma ElectIsLeadingRow(view: seq<Report>, n: nat)
    requires |view| <= n
    ensures Elect(view, n) != "" ==> exists i :: LeadingRow(view, n, i) && view[i].acc == Elect(view, n)
    ensures forall i :: LeadingRow(view, n, i) ==> Elect(view, n) == view[i].acc
  {
    if Elect(view, n) != "" {
      var hash := ElectedHasQuorum(view, n);
      ElectIs(view, hash, n);
      QuorumIsThreeQuarters(view, hash, n);
      VotesAreRows(view, hash);
      var i := LowestRow(view, hash);
      assert LeadingRow(view, n, i);
    }
    forall i | LeadingRow(view, n, i) ensures Elect(view, n) == view[i].acc {
      var hash := view[i].hash;
      VotesAreRows(view, hash);
      VotesOfRow(view, i);
      QuorumIsThreeQuarters(view, hash, n);
      ElectIs(view, hash, n);
      LowestIsFirst(view, hash, i);
    }
  }

  lemma VotesOfRow(view: seq<Report>, i: nat)
    requires i < |view|
    ensures Votes(view, view[i].hash) > 0
  {
    VotesAreRows(view, view[i].hash);
    assert i in set j | 0 <= j < |view| && view[j].hash == view[i].hash;
  }
}
