/** The transaction cache: each call resumes behind the last cached transaction and appends what the
    blocks up to its limit hold. */
module TrxCache {
  import opened Basics

  datatype Action = Action(account: string, name: string, data: string)

  datatype Transaction = Transaction(id: string, actions: seq<Action>)

  /** An action as cached: the id of its transaction, the number of its block, and the action. */
  datatype Tx = Tx(id: string, blockNum: nat, action: Action)

  const TOKEN_CONTRACT := "eosio.token"
  const ACTION_NAMES := {
    "usertouser", "makecontent", "usertocont", "makecontorg",
    "transfer", "socialaction", "socialactndt", "histactndt"
  }

  predicate Wanted(a: Action, activityContract: string)
  {
    (a.account == activityContract || a.account == TOKEN_CONTRACT) && a.name in ACTION_NAMES
  }

  /** What is cached of the actions of one transaction. */
  function MatchingActions(id: string, actions: seq<Action>, contract: string, block: nat): seq<Tx>
  {
    if actions == [] then []
    else
      var before, last := MatchingActions(id, actions[..|actions| - 1], contract, block), actions[|actions| - 1];
      if Wanted(last, contract) then before + [Tx(id, block, last)] else before
  }

  /** What is cached of a block with the transactions `trxs`. */
  function Matching(trxs: seq<Transaction>, contract: string, block: nat): seq<Tx>
  {
    if trxs == [] then []
    else
      var last := trxs[|trxs| - 1];
      Matching(trxs[..|trxs| - 1], contract, block) + MatchingActions(last.id, last.actions, contract, block)
  }

  /** The immutable irreversible chain: the transactions of each block. */
  type Chain = nat -> seq<Transaction>

  /** What reading each block yields; a block that cannot be read yields nothing. */
  type Reading = nat -> seq<Tx>

  function ReadingOf(chain: Chain, contract: string, failed: set<nat>): Reading
  {
    (block: nat) => if block in failed then [] else Matching(chain(block), contract, block)
  }

  /** What a scan of the blocks `lo..hi` finds. */
  function Scan(reading: Reading, lo: nat, hi: nat): seq<Tx>
    decreases hi
  {
    if hi < lo || hi == 0 then [] else Scan(reading, lo, hi - 1) + reading(hi)
  }

  method GetTransactionsFromBlock(trxs: seq<Transaction>, contract: string, block: nat) returns (result: seq<Tx>)
    ensures result == Matching(trxs, contract, block)
  {
    result := [];
    for j := 0 to |trxs|
      invariant result == Matching(trxs[..j], contract, block)
    {
      assert trxs[..j + 1][..j] == trxs[..j];
      var id, actions := trxs[j].id, trxs[j].actions;
      ghost var before := result;
      for i := 0 to |actions|
        invariant result == before + MatchingActions(id, actions[..i], contract, block)
      {
        assert actions[..i + 1][..i] == actions[..i];
        if actions[i].account != contract && actions[i].account != TOKEN_CONTRACT {
          continue;
        }
        if actions[i].name !in ACTION_NAMES {
          continue;
        }
        Associative(before, MatchingActions(id, actions[..i], contract, block), [Tx(id, block, actions[i])]);
        result := result + [Tx(id, block, actions[i])];
      }
      assert actions[..|actions|] == actions;
    }
    assert trxs[..|trxs|] == trxs;
  }

  /** The block a call starts at. */
  function StartBlock(cached: seq<Tx>): nat
  {
    if cached == [] then 1 else cached[|cached| - 1].blockNum + 1
  }

  class Cache {
    var file: seq<Tx>

    constructor ()
      ensures file == []
    {
      file := [];
    }

    /** The inner loop of `get_transactions`: each transaction goes to the result and to the end of the file. */
    method AppendAll(known: seq<Tx>, blockTrx: seq<Tx>) returns (result: seq<Tx>)
      modifies this
      ensures result == known + blockTrx && file == old(file) + blockTrx
    {
      result := known;
      for k := 0 to |blockTrx|
        invariant result == known + blockTrx[..k] && file == old(file) + blockTrx[..k]
      {
        result := result + [blockTrx[k]];
        file := file + [blockTrx[k]];
      }
      assert blockTrx[..|blockTrx|] == blockTrx;
    }

    /** The loop of `get_transactions` over the blocks. */
    method ScanBlocks(chain: Chain, contract: string, failed: set<nat>, known: seq<Tx>,
                      startBlock: nat, lastBlockNum: nat)
      returns (result: seq<Tx>)
      requires known == file && startBlock > 0
      modifies this
      ensures result == file == old(file) + Scan(ReadingOf(chain, contract, failed), startBlock, lastBlockNum)
    {
      ghost var reading := ReadingOf(chain, contract, failed);
      ghost var added := [];
      result := known;
      var i := startBlock;
      while i <= lastBlockNum
        invariant startBlock <= i && (i <= lastBlockNum + 1 || i == startBlock)
        invariant result == file == old(file) + added
        invariant added == Scan(reading, startBlock, i - 1)
      {
        var blockTrx := [];
        if i !in failed {
          blockTrx := GetTransactionsFromBlock(chain(i), contract, i);
        }
        Associative(old(file), added, blockTrx);
        ScanNext(reading, startBlock, i, added, blockTrx);
        added := added + blockTrx;
        result := AppendAll(result, blockTrx);
        i := i + 1;
      }
    }

    /** `get_transactions`; `custom` holds what is in a custom cache file, when one is configured. */
    method GetTransactions(custom: Option<seq<Tx>>, chain: Chain, contract: string, failed: set<nat>, lastBlockNum: nat)
      returns (result: seq<Tx>)
      modifies this
      ensures custom.Some? ==> result == custom.value && file == old(file)
      ensures custom.None? ==> result == file
      ensures custom.None? ==>
                file == old(file) + Scan(ReadingOf(chain, contract, failed), StartBlock(old(file)), lastBlockNum)
    {
      if custom.Some? {
        return custom.value;
      }
      result := file;
      var startBlock := 1;
      if |result| > 0 {
        startBlock := result[|result| - 1].blockNum + 1;
      }
      result := ScanBlocks(chain, contract, failed, result, startBlock, lastBlockNum);
    }
  }

  lemma ScanNext(reading: Reading, lo: nat, i: nat, before: seq<Tx>, found: seq<Tx>)
    requires lo <= i && i > 0 && before == Scan(reading, lo, i - 1) && found == reading(i)
    ensures before + found == Scan(reading, lo, i)
  {
  }

  ghost predicate AllOfBlock(s: seq<Tx>, block: nat)
  {
    forall i :: 0 <= i < |s| ==> s[i].blockNum == block
  }

  lemma {:induction false} ActionsOfBlock(id: string, actions: seq<Action>, contract: string, block: nat)
    ensures AllOfBlock(MatchingActions(id, actions, contract, block), block)
  {
    if actions != [] { ActionsOfBlock(id, actions[..|actions| - 1], contract, block); }
  }

  lemma {:induction false} MatchingBlock(trxs: seq<Transaction>, contract: string, block: nat)
    ensures AllOfBlock(Matching(trxs, contract, block), block)
  {
    if trxs != [] {
      MatchingBlock(trxs[..|trxs| - 1], contract, block);
      ActionsOfBlock(trxs[|trxs| - 1].id, trxs[|trxs| - 1].actions, contract, block);
    }
  }

  /** What is read of a block carries its number. */
  ghost predicate Numbered(reading: Reading)
  {
    forall block: nat :: AllOfBlock(reading(block), block)
  }

  lemma ReadingIsNumbered(chain: Chain, contract: string, failed: set<nat>)
    ensures Numbered(ReadingOf(chain, contract, failed))
  {
    forall block: nat ensures AllOfBlock(ReadingOf(chain, contract, failed)(block), block) {
      MatchingBlock(chain(block), contract, block);
    }
  }

  /** The full scan up to the block of its last transaction is the full scan: behind it there was nothing. */
  lemma {:induction false} BehindLast(reading: Reading, hi: nat)
    requires Numbered(reading)
    ensures StartBlock(Scan(reading, 1, hi)) <= hi + 1
    ensures Scan(reading, 1, StartBlock(Scan(reading, 1, hi)) - 1) == Scan(reading, 1, hi)
    ensures forall i: nat :: StartBlock(Scan(reading, 1, hi)) <= i <= hi ==> reading(i) == []
  {
    if hi > 0 {
      BehindLast(reading, hi - 1);
      assert AllOfBlock(reading(hi), hi);
    }
  }

  lemma {:induction false} ScanSplit(reading: Reading, m: nat, hi: nat)
    requires m <= hi
    ensures Scan(reading, 1, hi) == Scan(reading, 1, m) + Scan(reading, m + 1, hi)
    decreases hi
  {
    if m < hi {
      ScanSplit(reading, m, hi - 1);
      Associative(Scan(reading, 1, m), Scan(reading, m + 1, hi - 1), reading(hi));
    }
  }

  function Max(a: nat, b: nat): nat
  {
    if a < b then b else a
  }

  lemma {:induction false} NothingBehind(reading: Reading, lo: nat, hi: nat)
    requires forall i: nat :: lo <= i <= hi ==> reading(i) == []
    ensures Scan(reading, lo, hi) == []
  {
    if lo <= hi && hi > 0 { NothingBehind(reading, lo, hi - 1); }
  }

  /** A call on a cache that is the full scan up to some block leaves the full scan up to that block or
      its limit, whichever is higher, although it resumes behind the last cached transaction. */
  lemma ResumeIsRescan(reading: Reading, scanned: nat, limit: nat)
    requires Numbered(reading)
    ensures var cached := Scan(reading, 1, scanned);
            cached + Scan(reading, StartBlock(cached), limit) == Scan(reading, 1, Max(scanned, limit))
  {
    var cached := Scan(reading, 1, scanned);
    var m := StartBlock(cached) - 1;
    BehindLast(reading, scanned);
    if m <= limit {
      ScanSplit(reading, m, limit);
    }
    if limit < scanned {
      NothingBehind(reading, m + 1, limit);
    }
  }

  /** The cache file after a sequence of calls with the given limits. */
  function AfterCalls(reading: Reading, limits: seq<nat>): seq<Tx>
  {
    if limits == [] then []
    else
      var cached := AfterCalls(reading, limits[..|limits| - 1]);
      cached + Scan(reading, StartBlock(cached), limits[|limits| - 1])
  }

  function Highest(limits: seq<nat>): nat
  {
    if limits == [] then 0 else Max(Highest(limits[..|limits| - 1]), limits[|limits| - 1])
  }

  /** After any sequence of calls, with limits in any order, the file and so the last result is the full
      scan up to the highest limit so far. */
  lemma {:induction false} CacheIsRescan(chain: Chain, contract: string, limits: seq<nat>)
    ensures var reading := ReadingOf(chain, contract, {});
            AfterCalls(reading, limits) == Scan(reading, 1, Highest(limits))
  {
    if limits != [] {
      var reading := ReadingOf(chain, contract, {});
      CacheIsRescan(chain, contract, limits[..|limits| - 1]);
      ReadingIsNumbered(chain, contract, {});
      ResumeIsRescan(reading, Highest(limits[..|limits| - 1]), limits[|limits| - 1]);
    }
  }

  /** One reading yields of each block what the other does, or nothing. */
  ghost predicate Loses(some: Reading, all: Reading)
  {
    forall block: nat :: some(block) == all(block) || some(block) == []
  }

  lemma {:induction false} ScanLength(some: Reading, all: Reading, lo: nat, hi: nat)
    requires Loses(some, all)
    ensures |Scan(some, lo, hi)| <= |Scan(all, lo, hi)|
    ensures |Scan(some, lo, hi)| == |Scan(all, lo, hi)| <==>
            forall i: nat :: lo <= i <= hi && i > 0 ==> some(i) == all(i)
    ensures |Scan(some, lo, hi)| == |Scan(all, lo, hi)| ==> Scan(some, lo, hi) == Scan(all, lo, hi)
  {
    if lo <= hi && hi > 0 {
      ScanLength(some, all, lo, hi - 1);
      assert some(hi) == all(hi) || some(hi) == [];
    }
  }

  /** A call during which some blocks cannot be read still leaves the full scan if and only if none of
      them, from the starting block on, holds a matching transaction. */
  lemma FailedBlocksExactly(chain: Chain, contract: string, failed: set<nat>, scanned: nat, limit: nat)
    ensures var all, some := ReadingOf(chain, contract, {}), ReadingOf(chain, contract, failed);
            var cached := Scan(all, 1, scanned);
            cached + Scan(some, StartBlock(cached), limit) == Scan(all, 1, Max(scanned, limit))
            <==> forall i :: StartBlock(cached) <= i <= limit && i in failed ==> Matching(chain(i), contract, i) == []
  {
    var all, some := ReadingOf(chain, contract, {}), ReadingOf(chain, contract, failed);
    var cached := Scan(all, 1, scanned);
    ReadingIsNumbered(chain, contract, {});
    ResumeIsRescan(all, scanned, limit);
    var start := StartBlock(cached);
    ScanLength(some, all, start, limit);
    forall i: nat ensures some(i) == all(i) <==> (i in failed ==> Matching(chain(i), contract, i) == []) {
    }
    var full := Scan(all, 1, Max(scanned, limit));
    assert cached + Scan(some, start, limit) == full <==> |Scan(some, start, limit)| == |Scan(all, start, limit)|;
  }

  // ---- calls with unreadable blocks ---------------------------------------------------------

  /** The file is the full scan up to the block of its last transaction. */
  ghost predicate Complete(all: Reading, file: seq<Tx>)
  {
    file == Scan(all, 1, StartBlock(file) - 1)
  }

  /** The file is shorter than that. */
  ghost predicate Behind(all: Reading, file: seq<Tx>)
  {
    |file| < |Scan(all, 1, StartBlock(file) - 1)|
  }

  /** A call with this reading passes over a block it should have cached and caches something behind it. */
  ghost predicate PassesOver(all: Reading, some: Reading, file: seq<Tx>, limit: nat)
  {
    exists i: nat, j: nat :: StartBlock(file) <= i < j <= limit && some(i) != all(i) && some(j) != []
  }

  /** The last block of a range in which something is found. */
  lemma {:induction false} LastOfRange(some: Reading, lo: nat, hi: nat) returns (m: nat)
    requires Numbered(some) && 1 <= lo
    ensures m == 0 || (lo <= m <= hi && some(m) != [])
    ensures forall i: nat :: lo <= i <= hi && m < i ==> some(i) == []
    ensures Scan(some, lo, hi) == Scan(some, lo, m)
    ensures Scan(some, lo, hi) == [] <==> m == 0
    ensures m > 0 ==> |Scan(some, lo, hi)| > 0 && Scan(some, lo, hi)[|Scan(some, lo, hi)| - 1].blockNum == m
  {
    if hi < lo {
      m := 0;
    } else if some(hi) != [] {
      m := hi;
      assert AllOfBlock(some(hi), hi);
    } else {
      m := LastOfRange(some, lo, hi - 1);
    }
  }

  lemma {:induction false} ScanJoin(reading: Reading, lo: nat, m: nat, hi: nat)
    requires 1 <= lo <= m + 1 && m <= hi
    ensures Scan(reading, lo, hi) == Scan(reading, lo, m) + Scan(reading, m + 1, hi)
    decreases hi
  {
    if m < hi {
      ScanJoin(reading, lo, m, hi - 1);
      Associative(Scan(reading, lo, m), Scan(reading, m + 1, hi - 1), reading(hi));
    }
  }

  /** Where the file ends after a call, and how much it should hold there. */
  lemma CallEnds(all: Reading, some: Reading, file: seq<Tx>, limit: nat) returns (m: nat)
    requires Numbered(all) && Numbered(some) && Loses(some, all)
    ensures var s := StartBlock(file);
            var after := file + Scan(some, s, limit);
            && (m == 0 ==> after == file)
            && (m > 0 ==> s <= m <= limit && some(m) != [] && StartBlock(after) == m + 1)
            && (m > 0 ==> after == file + Scan(some, s, m))
            && (m > 0 ==> Scan(all, 1, m) == Scan(all, 1, s - 1) + Scan(all, s, m))
            && (forall i: nat :: s <= i <= limit && m < i ==> some(i) == [])
  {
    var s := StartBlock(file);
    m := LastOfRange(some, s, limit);
    if m > 0 { ScanJoin(all, 1, s - 1, m); }
  }

  /** A call on a complete file leaves it complete exactly when it passes nothing over. */
  lemma CallOnComplete(all: Reading, some: Reading, file: seq<Tx>, limit: nat)
    requires Numbered(all) && Numbered(some) && Loses(some, all) && Complete(all, file)
    ensures var after := file + Scan(some, StartBlock(file), limit);
            if PassesOver(all, some, file, limit) then Behind(all, after) else Complete(all, after)
  {
    var s := StartBlock(file);
    var m := CallEnds(all, some, file, limit);
    if m > 0 {
      ScanLength(some, all, s, m);
      if PassesOver(all, some, file, limit) {
        var i: nat, j: nat :| s <= i < j <= limit && some(i) != all(i) && some(j) != [];
        assert j <= m;
      } else {
        forall i: nat | s <= i <= m ensures some(i) == all(i) {
          if i < m { assert m <= limit && some(m) != []; }
        }
      }
    }
  }

  /** What a file is behind, no call makes good. */
  lemma CallOnBehind(all: Reading, some: Reading, file: seq<Tx>, limit: nat)
    requires Numbered(all) && Numbered(some) && Loses(some, all) && Behind(all, file)
    ensures Behind(all, file + Scan(some, StartBlock(file), limit))
  {
    var m := CallEnds(all, some, file, limit);
    if m > 0 { ScanLength(some, all, StartBlock(file), m); }
  }

  /** A call: its limit, and the blocks it cannot read. */
  datatype Call = Call(limit: nat, failed: set<nat>)

  function AfterFailing(chain: Chain, contract: string, calls: seq<Call>): seq<Tx>
  {
    if calls == [] then []
    else
      var file, call := AfterFailing(chain, contract, calls[..|calls| - 1]), calls[|calls| - 1];
      file + Scan(ReadingOf(chain, contract, call.failed), StartBlock(file), call.limit)
  }

  /** The call does not read a block with matching transactions and caches some of a later block. */
  ghost predicate CallPassesOver(chain: Chain, contract: string, file: seq<Tx>, call: Call)
  {
    exists i: nat, j: nat ::
      && StartBlock(file) <= i < j <= call.limit && i in call.failed && j !in call.failed
      && Matching(chain(i), contract, i) != [] && Matching(chain(j), contract, j) != []
  }

  ghost predicate NonePassesOver(chain: Chain, contract: string, calls: seq<Call>)
  {
    calls == []
    || (var front := calls[..|calls| - 1];
        NonePassesOver(chain, contract, front)
        && !CallPassesOver(chain, contract, AfterFailing(chain, contract, front), calls[|calls| - 1]))
  }

  lemma PassesOverIs(chain: Chain, contract: string, file: seq<Tx>, call: Call)
    ensures CallPassesOver(chain, contract, file, call) <==>
            PassesOver(ReadingOf(chain, contract, {}), ReadingOf(chain, contract, call.failed), file, call.limit)
  {
    var all, some := ReadingOf(chain, contract, {}), ReadingOf(chain, contract, call.failed);
    if CallPassesOver(chain, contract, file, call) {
      var i: nat, j: nat :|
        && StartBlock(file) <= i < j <= call.limit && i in call.failed && j !in call.failed
        && Matching(chain(i), contract, i) != [] && Matching(chain(j), contract, j) != [];
      assert some(i) != all(i) && some(j) != [];
    }
    if PassesOver(all, some, file, call.limit) {
      var i: nat, j: nat :| StartBlock(file) <= i < j <= call.limit && some(i) != all(i) && some(j) != [];
      assert i in call.failed && j !in call.failed;
    }
  }

  /** After any sequence of calls the file is complete up to its own last block if and only if no call passed
      over an unreadable block with matching transactions in front of one it cached; otherwise it stays behind. */
  lemma {:induction false} CompleteExactly(chain: Chain, contract: string, calls: seq<Call>)
    ensures var all, file := ReadingOf(chain, contract, {}), AfterFailing(chain, contract, calls);
            if NonePassesOver(chain, contract, calls) then Complete(all, file) else Behind(all, file)
  {
    if calls != [] {
      var front, call := calls[..|calls| - 1], calls[|calls| - 1];
      var all, some := ReadingOf(chain, contract, {}), ReadingOf(chain, contract, call.failed);
      var file := AfterFailing(chain, contract, front);
      CompleteExactly(chain, contract, front);
      ReadingIsNumbered(chain, contract, {});
      ReadingIsNumbered(chain, contract, call.failed);
      PassesOverIs(chain, contract, file, call);
      if NonePassesOver(chain, contract, front) {
        CallOnComplete(all, some, file, call.limit);
      } else {
        CallOnBehind(all, some, file, call.limit);
      }
    }
  }

  function HighestLimit(calls: seq<Call>): nat
  {
    if calls == [] then 0 else Max(HighestLimit(calls[..|calls| - 1]), calls[|calls| - 1].limit)
  }

  lemma {:induction false} NotAboveLimit(chain: Chain, contract: string, calls: seq<Call>)
    ensures StartBlock(AfterFailing(chain, contract, calls)) <= HighestLimit(calls) + 1
  {
    if calls != [] {
      var front, call := calls[..|calls| - 1], calls[|calls| - 1];
      NotAboveLimit(chain, contract, front);
      ReadingIsNumbered(chain, contract, {});
      ReadingIsNumbered(chain, contract, call.failed);
      var m := CallEnds(ReadingOf(chain, contract, {}), ReadingOf(chain, contract, call.failed),
                        AfterFailing(chain, contract, front), call.limit);
    }
  }

  /** A file that is complete or behind is the full scan exactly when it is complete and nothing is left. */
  lemma FullExactly(all: Reading, file: seq<Tx>, hi: nat)
    requires Numbered(all) && StartBlock(file) <= hi + 1 && (Complete(all, file) || Behind(all, file))
    ensures file == Scan(all, 1, hi) <==>
            Complete(all, file) && forall i: nat :: StartBlock(file) <= i <= hi ==> all(i) == []
  {
    var s := StartBlock(file);
    ScanJoin(all, 1, s - 1, hi);
    if forall i: nat :: s <= i <= hi ==> all(i) == [] { NothingBehind(all, s, hi); }
    if file == Scan(all, 1, hi) { BehindLast(all, hi); }
  }

  /** After any sequence of calls, with limits in any order and any blocks unreadable at any time, the file is the
      full scan up to the highest limit if and only if no call passed anything over and nothing matching is left
      behind the file's last block. */
  lemma FailedCallsExactly(chain: Chain, contract: string, calls: seq<Call>)
    ensures var all, file := ReadingOf(chain, contract, {}), AfterFailing(chain, contract, calls);
            file == Scan(all, 1, HighestLimit(calls)) <==>
            NonePassesOver(chain, contract, calls)
            && forall i: nat :: StartBlock(file) <= i <= HighestLimit(calls) ==> all(i) == []
  {
    ReadingIsNumbered(chain, contract, {});
    CompleteExactly(chain, contract, calls);
    NotAboveLimit(chain, contract, calls);
    FullExactly(ReadingOf(chain, contract, {}), AfterFailing(chain, contract, calls), HighestLimit(calls));
  }

  // ---- what is cached of a block ------------------------------------------------------------

  /** Wanted are eight actions of two contracts. */
  lemma WantedIs(a: Action, contract: string)
    ensures Wanted(a, contract) <==>
            (a.account == contract || a.account == "eosio.token")
            && (a.name == "usertouser" || a.name == "makecontent" || a.name == "usertocont" || a.name == "makecontorg"
                || a.name == "transfer" || a.name == "socialaction" || a.name == "socialactndt"
                || a.name == "histactndt")
  {
  }

  /** One action is cached with its transaction and block, or not at all; more actions one after the other. */
  lemma {:induction false} ActionsAreFiltered(id: string, a: seq<Action>, b: seq<Action>, contract: string, block: nat)
    ensures MatchingActions(id, a + b, contract, block) ==
            MatchingActions(id, a, contract, block) + MatchingActions(id, b, contract, block)
    ensures |a| == 1 ==>
              MatchingActions(id, a, contract, block) == if Wanted(a[0], contract) then [Tx(id, block, a[0])] else []
    decreases |b|
  {
    if |a| == 1 { assert a[..0] == []; }
    if b == [] {
      assert a + b == a;
    } else {
      ActionsAreFiltered(id, a, b[..|b| - 1], contract, block);
      assert (a + b)[..|a + b| - 1] == a + b[..|b| - 1];
    }
  }

  /** The same for the transactions of a block. */
  lemma {:induction false} BlockIsFiltered(a: seq<Transaction>, b: seq<Transaction>, contract: string, block: nat)
    ensures Matching(a + b, contract, block) == Matching(a, contract, block) + Matching(b, contract, block)
    ensures |a| == 1 ==> Matching(a, contract, block) == MatchingActions(a[0].id, a[0].actions, contract, block)
    decreases |b|
  {
    if |a| == 1 { assert a[..0] == []; }
    if b == [] {
      assert a + b == a;
    } else {
      BlockIsFiltered(a, b[..|b| - 1], contract, block);
      assert (a + b)[..|a + b| - 1] == a + b[..|b| - 1];
    }
  }

  /** A scan of one block is what it yields, and a longer one the scans of its parts. */
  lemma ScanIsAllBlocks(reading: Reading, lo: nat, m: nat, hi: nat)
    requires 1 <= lo <= m + 1 && m <= hi
    ensures Scan(reading, lo, lo) == reading(lo)
    ensures Scan(reading, lo, hi) == Scan(reading, lo, m) + Scan(reading, m + 1, hi)
  {
    ScanJoin(reading, lo, m, hi);
  }
}
