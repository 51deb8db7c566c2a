/** The stored action traces and the walk that makes them agree with the irreversible chain. */
module TraceStore {
  import opened Basics

  /** A block id carries its height. */
  datatype BlockId = BlockId(num: nat, digest: string)

  /** A stored trace; its block id is missing when the block had none yet. */
  datatype Doc = Doc(blockNum: nat, trxId: string, blockId: Option<BlockId>, irreversible: bool, body: string)

  type Key = (nat, string)

  datatype LastState = LastState(blockNum: int, blockId: string, irrBlockNum: int, irrBlockId: Option<BlockId>)

  function KeyOf(d: Doc): Key
  {
    (d.blockNum, d.trxId)
  }

  // ---- operations on the collection ---------------------------------------------------------

  /** `delete_many` on block number and transaction id. */
  function DeleteKey(docs: seq<Doc>, k: Key): seq<Doc>
  {
    if docs == [] then []
    else
      var front, last := DeleteKey(docs[..|docs| - 1], k), docs[|docs| - 1];
      if KeyOf(last) == k then front else front + [last]
  }

  function PutDoc(docs: seq<Doc>, d: Doc): seq<Doc>
  {
    DeleteKey(docs, KeyOf(d)) + [d]
  }

  /** The ids of the irreversible chain from height 1 on. */
  ghost predicate IsChain(chain: seq<BlockId>)
  {
    forall i :: 0 <= i < |chain| ==> chain[i].num == i + 1
  }

  /** `previous` finds the parent of every block of the chain. */
  ghost predicate Linked(previous: BlockId -> BlockId, chain: seq<BlockId>)
  {
    forall i {:trigger previous(chain[i])} :: 1 <= i < |chain| ==> previous(chain[i]) == chain[i - 1]
  }

  /** A document at one of the heights `lo+1..hi` must be of the chain's block. */
  predicate Stays(chain: seq<BlockId>, lo: nat, hi: nat, d: Doc)
    requires hi <= |chain|
  {
    lo < d.blockNum <= hi ==> d.blockId == Some(chain[d.blockNum - 1])
  }

  function Mark(lo: nat, hi: nat, d: Doc): Doc
  {
    if lo < d.blockNum <= hi then d.(irreversible := true) else d
  }

  /** The collection after the heights `lo+1..hi` have become irreversible. */
  function Settle(docs: seq<Doc>, chain: seq<BlockId>, lo: nat, hi: nat): seq<Doc>
    requires hi <= |chain|
  {
    if docs == [] then []
    else
      var front, last := Settle(docs[..|docs| - 1], chain, lo, hi), docs[|docs| - 1];
      if Stays(chain, lo, hi, last) then front + [Mark(lo, hi, last)] else front
  }

  class Exporter {
    var traces: seq<Doc>
    var lastState: LastState
    var storedState: Option<LastState>

    constructor ()
      ensures traces == [] && lastState == LastState(0, "", 0, None) && storedState == None
    {
      traces, lastState, storedState := [], LastState(0, "", 0, None), None;
    }

    /** `put_by_uniq_blocknum_trxid`. */
    method PutByUniqBlocknumTrxid(d: Doc)
      modifies this`traces
      ensures traces == PutDoc(old(traces), d)
    {
      var kept := [];
      for i := 0 to |traces|
        invariant traces == old(traces) && kept == DeleteKey(traces[..i], KeyOf(d))
      {
        assert traces[..i + 1][..i] == traces[..i];
        if !(traces[i].blockNum == d.blockNum && traces[i].trxId == d.trxId) {
          kept := kept + [traces[i]];
        }
      }
      assert traces[..|traces|] == traces;
      traces := kept + [d];
    }

    /** The put of `applied_transaction_catcher`: a fresh trace is not irreversible. */
    method PutTrace(blockNum: nat, blockId: Option<BlockId>, trxId: string, body: string)
      modifies this`traces
      ensures traces == PutDoc(old(traces), Doc(blockNum, trxId, blockId, false, body))
    {
      PutByUniqBlocknumTrxid(Doc(blockNum, trxId, blockId, false, body));
    }

    /** `set_irreversible_block`: deletes the traces of other blocks of the height, then marks the rest. */
    method SetIrreversibleBlock(blockNum: nat, blockId: BlockId, ghost chain: seq<BlockId>)
      requires 1 <= blockNum <= |chain| && chain[blockNum - 1] == blockId
      modifies this`traces
      ensures traces == Settle(old(traces), chain, blockNum - 1, blockNum)
    {
      var kept: seq<Doc> := [];
      for i := 0 to |traces|
        invariant traces == old(traces) && kept == Settle(traces[..i], chain, blockNum - 1, blockNum)
      {
        assert traces[..i + 1][..i] == traces[..i];
        var d := traces[i];
        if !(d.blockNum == blockNum && d.blockId != Some(blockId)) {
          if d.blockNum == blockNum && d.blockId == Some(blockId) && !d.irreversible {
            d := d.(irreversible := true);
          }
          kept := kept + [d];
        }
      }
      assert traces[..|traces|] == traces;
      traces := kept;
    }

    /** The walk of `irreversible_block_catcher`: back along the chain to the last height already
        settled, one height at a time. */
    method WalkBack(previous: BlockId -> BlockId, lastId: BlockId, settled: nat, ghost chain: seq<BlockId>)
      requires IsChain(chain) && Linked(previous, chain)
      requires settled <= |chain| && chain != [] && lastId == chain[|chain| - 1]
      modifies this`traces
      ensures traces == Settle(old(traces), chain, settled, |chain|)
    {
      var irrBlockNum, irrBlockId := lastId.num, lastId;
      SettleNothing(traces, chain, |chain|);
      while irrBlockNum > settled
        invariant settled <= irrBlockNum <= |chain|
        invariant irrBlockNum >= 1 ==> irrBlockId == chain[irrBlockNum - 1]
        invariant traces == Settle(old(traces), chain, irrBlockNum, |chain|)
        decreases irrBlockNum
      {
        SetIrreversibleBlock(irrBlockNum, irrBlockId, chain);
        SettleJoin(old(traces), chain, irrBlockNum, |chain|);
        if irrBlockNum == 1 {
          irrBlockNum := 0;
          break;
        }
        ParentOf(previous, chain, irrBlockNum - 1);
        irrBlockId := previous(irrBlockId);
        irrBlockNum := irrBlockId.num;
      }
    }

    /** `irreversible_block_catcher`. */
    method IrreversibleBlockCatcher(previous: BlockId -> BlockId, lastId: BlockId, ghost chain: seq<BlockId>)
      requires IsChain(chain) && Linked(previous, chain) && chain != [] && lastId == chain[|chain| - 1]
      requires lastState.irrBlockNum >= 0
      modifies this
      ensures traces == if |chain| <= old(lastState).irrBlockNum then old(traces)
                        else Settle(old(traces), chain, old(lastState).irrBlockNum, |chain|)
      ensures lastState == old(lastState).(irrBlockNum := |chain|, irrBlockId := Some(lastId))
      ensures storedState == Some(lastState)
    {
      if lastId.num > lastState.irrBlockNum {
        WalkBack(previous, lastId, lastState.irrBlockNum, chain);
      }
      lastState := lastState.(irrBlockId := Some(lastId), irrBlockNum := lastId.num);
      storedState := Some(lastState);
    }
  }

  lemma ParentOf(previous: BlockId -> BlockId, chain: seq<BlockId>, i: nat)
    requires IsChain(chain) && Linked(previous, chain) && 1 <= i < |chain|
    ensures previous(chain[i]) == chain[i - 1] && chain[i - 1].num == i
  {
  }

  lemma {:induction false} SettleNothing(docs: seq<Doc>, chain: seq<BlockId>, h: nat)
    requires h <= |chain|
    ensures Settle(docs, chain, h, h) == docs
  {
    if docs != [] {
      SettleNothing(docs[..|docs| - 1], chain, h);
      assert docs == docs[..|docs| - 1] + [docs[|docs| - 1]];
    }
  }

  /** Settling the heights above `h` and then `h` itself is settling from `h` on. */
  lemma {:induction false} SettleJoin(docs: seq<Doc>, chain: seq<BlockId>, h: nat, hi: nat)
    requires 1 <= h <= hi <= |chain|
    ensures Settle(Settle(docs, chain, h, hi), chain, h - 1, h) == Settle(docs, chain, h - 1, hi)
  {
    if docs != [] {
      var front, last := docs[..|docs| - 1], docs[|docs| - 1];
      SettleJoin(front, chain, h, hi);
      if Stays(chain, h, hi, last) {
        var s := Settle(front, chain, h, hi);
        assert (s + [Mark(h, hi, last)])[..|s|] == s;
      }
    }
  }

  // ---- runs ---------------------------------------------------------------------------------

  /** A run of the exporter: its collection, the irreversible chain it has settled, and, for the
      record, the last trace put for each block number and transaction. */
  datatype State = State(docs: seq<Doc>, chain: seq<BlockId>, lastPut: map<Key, Doc>)

  datatype Event =
    | Put(blockNum: nat, trxId: string, blockId: Option<BlockId>, body: string)
    | Catch(more: seq<BlockId>)

  /** Traces come for heights that are not irreversible yet; the irreversible chain only grows. */
  ghost predicate Enabled(s: State, e: Event)
  {
    match e
    case Put(blockNum, _, _, _) => blockNum > |s.chain|
    case Catch(more) => IsChain(s.chain + more)
  }

  ghost function Next(s: State, e: Event): State
  {
    if !Enabled(s, e) then s
    else match e
      case Put(blockNum, trxId, blockId, body) =>
        var d := Doc(blockNum, trxId, blockId, false, body);
        s.(docs := PutDoc(s.docs, d), lastPut := s.lastPut[KeyOf(d) := d])
      case Catch(more) =>
        s.(docs := Settle(s.docs, s.chain + more, |s.chain|, |s.chain + more|), chain := s.chain + more)
  }

  ghost function Run(events: seq<Event>): State
  {
    if events == [] then State([], [], map[]) else Next(Run(events[..|events| - 1]), events[|events| - 1])
  }

  /** The document a last put should have become. */
  function Final(s: State, d: Doc): Doc
  {
    Mark(0, |s.chain|, d)
  }

  /** A last put survives unless its height is irreversible with another block. */
  predicate Survives(s: State, d: Doc)
  {
    Stays(s.chain, 0, |s.chain|, d)
  }

  ghost predicate UniqueKeys(docs: seq<Doc>)
  {
    forall i, j :: 0 <= i < j < |docs| ==> KeyOf(docs[i]) != KeyOf(docs[j])
  }

  /** The store holds, once each, exactly what the last puts should have become. */
  ghost predicate Exact(s: State)
  {
    && IsChain(s.chain)
    && (forall k :: k in s.lastPut ==> KeyOf(s.lastPut[k]) == k && k.0 >= 1 && !s.lastPut[k].irreversible)
    && UniqueKeys(s.docs)
    && (forall d :: d in s.docs <==>
          KeyOf(d) in s.lastPut && Survives(s, s.lastPut[KeyOf(d)]) && d == Final(s, s.lastPut[KeyOf(d)]))
  }

  lemma {:induction false} DeleteKeyMembers(docs: seq<Doc>, k: Key)
    ensures forall d :: d in DeleteKey(docs, k) <==> d in docs && KeyOf(d) != k
  {
    if docs != [] {
      DeleteKeyMembers(docs[..|docs| - 1], k);
      assert docs == docs[..|docs| - 1] + [docs[|docs| - 1]];
    }
  }

  lemma UniqueKeysSnoc(docs: seq<Doc>, d: Doc)
    requires UniqueKeys(docs) && forall e :: e in docs ==> KeyOf(e) != KeyOf(d)
    ensures UniqueKeys(docs + [d])
  {
  }

  lemma {:induction false} DeleteKeyUnique(docs: seq<Doc>, k: Key)
    requires UniqueKeys(docs)
    ensures UniqueKeys(DeleteKey(docs, k))
  {
    if docs != [] {
      var front, last := docs[..|docs| - 1], docs[|docs| - 1];
      DeleteKeyUnique(front, k);
      DeleteKeyMembers(front, k);
      if KeyOf(last) != k {
        forall e | e in DeleteKey(front, k) ensures KeyOf(e) != KeyOf(last) { }
        UniqueKeysSnoc(DeleteKey(front, k), last);
      }
    }
  }

  lemma {:induction false} SettleMembers(docs: seq<Doc>, chain: seq<BlockId>, lo: nat, hi: nat)
    requires hi <= |chain|
    ensures forall d :: d in Settle(docs, chain, lo, hi) <==>
                        exists e :: e in docs && Stays(chain, lo, hi, e) && d == Mark(lo, hi, e)
  {
    if docs != [] {
      var front, last := docs[..|docs| - 1], docs[|docs| - 1];
      SettleMembers(front, chain, lo, hi);
      assert docs == front + [last];
      forall d
        ensures d in Settle(docs, chain, lo, hi) <==>
                exists e :: e in docs && Stays(chain, lo, hi, e) && d == Mark(lo, hi, e)
      {
        if d in Settle(front, chain, lo, hi) {
          var e :| e in front && Stays(chain, lo, hi, e) && d == Mark(lo, hi, e);
          assert e in docs;
        }
      }
    }
  }

  lemma {:induction false} SettleUnique(docs: seq<Doc>, chain: seq<BlockId>, lo: nat, hi: nat)
    requires hi <= |chain| && UniqueKeys(docs)
    ensures UniqueKeys(Settle(docs, chain, lo, hi))
  {
    if docs != [] {
      var front, last := docs[..|docs| - 1], docs[|docs| - 1];
      SettleUnique(front, chain, lo, hi);
      SettleMembers(front, chain, lo, hi);
      if Stays(chain, lo, hi, last) {
        forall d | d in Settle(front, chain, lo, hi) ensures KeyOf(d) != KeyOf(last) {
          var e :| e in front && Stays(chain, lo, hi, e) && d == Mark(lo, hi, e);
          var i :| 0 <= i < |front| && front[i] == e;
          assert docs[i] == e;
        }
        UniqueKeysSnoc(Settle(front, chain, lo, hi), Mark(lo, hi, last));
      }
    }
  }

  lemma PutKeepsExact(s: State, e: Event)
    requires Exact(s) && e.Put? && Enabled(s, e)
    ensures Exact(Next(s, e))
  {
    var d := Doc(e.blockNum, e.trxId, e.blockId, false, e.body);
    DeleteKeyMembers(s.docs, KeyOf(d));
    DeleteKeyUnique(s.docs, KeyOf(d));
    UniqueKeysSnoc(DeleteKey(s.docs, KeyOf(d)), d);
  }

  /** Settling more heights of a grown chain refines what was settled before. */
  lemma SettledFurther(chain: seq<BlockId>, more: seq<BlockId>, d: Doc)
    requires !d.irreversible && d.blockNum >= 1
    ensures var all := chain + more;
            Stays(all, 0, |all|, d) <==> Stays(chain, 0, |chain|, d) && Stays(all, |chain|, |all|, Mark(0, |chain|, d))
    ensures Mark(|chain|, |chain + more|, Mark(0, |chain|, d)) == Mark(0, |chain + more|, d)
  {
  }

  lemma CatchKeepsExact(s: State, e: Event)
    requires Exact(s) && e.Catch? && Enabled(s, e)
    ensures Exact(Next(s, e))
  {
    var t := Next(s, e);
    var lo, hi := |s.chain|, |t.chain|;
    SettleMembers(s.docs, t.chain, lo, hi);
    SettleUnique(s.docs, t.chain, lo, hi);
    forall d | d in t.docs
      ensures KeyOf(d) in t.lastPut && Survives(t, t.lastPut[KeyOf(d)]) && d == Final(t, t.lastPut[KeyOf(d)])
    {
      var c :| c in s.docs && Stays(t.chain, lo, hi, c) && d == Mark(lo, hi, c);
      SettledFurther(s.chain, e.more, s.lastPut[KeyOf(c)]);
    }
    forall d | KeyOf(d) in t.lastPut && Survives(t, t.lastPut[KeyOf(d)]) && d == Final(t, t.lastPut[KeyOf(d)])
      ensures d in t.docs
    {
      var p := s.lastPut[KeyOf(d)];
      SettledFurther(s.chain, e.more, p);
      assert Final(s, p) in s.docs && Stays(t.chain, lo, hi, Final(s, p)) && d == Mark(lo, hi, Final(s, p));
    }
  }

  /** In every run the store is exactly what the last puts and the irreversible chain demand. */
  lemma {:induction false} ExactInEveryRun(events: seq<Event>)
    ensures Exact(Run(events))
  {
    if events != [] {
      ExactInEveryRun(events[..|events| - 1]);
      var s, e := Run(events[..|events| - 1]), events[|events| - 1];
      if Enabled(s, e) {
        match e
        case Put(_, _, _, _) => PutKeepsExact(s, e);
        case Catch(_) => CatchKeepsExact(s, e);
      }
    }
  }

  /** In every run keys are unique and, for every document: up to the last irreversible height it is of
      the chain's block and marked, above it is not marked. */
  lemma IrreversibleStoreSound(events: seq<Event>, d: Doc)
    requires d in Run(events).docs
    ensures var s := Run(events);
            && UniqueKeys(s.docs) && d.blockNum >= 1
            && (d.irreversible <==> d.blockNum <= |s.chain|)
            && (d.blockNum <= |s.chain| ==> d.blockId == Some(s.chain[d.blockNum - 1]))
  {
    ExactInEveryRun(events);
  }

  /** In every run the trace last put for a block number and transaction is present, marked up to the last
      irreversible height, if and only if its height is not irreversible yet or it is of the chain's block. */
  lemma LastPutPresent(events: seq<Event>, k: Key)
    requires k in Run(events).lastPut
    ensures var s := Run(events); KeyOf(s.lastPut[k]) == k && k.0 >= 1
    ensures var s := Run(events);
            s.lastPut[k].(irreversible := k.0 <= |s.chain|) in s.docs <==>
            (k.0 > |s.chain| || s.lastPut[k].blockId == Some(s.chain[k.0 - 1]))
  {
    ExactInEveryRun(events);
    var s := Run(events);
    assert Final(s, s.lastPut[k]) == s.lastPut[k].(irreversible := k.0 <= |s.chain|);
    assert KeyOf(Final(s, s.lastPut[k])) == k;
  }

  // ---- runs with late puts ------------------------------------------------------------------

  /** The step that performs every put, also of a trace whose height is irreversible already. */
  ghost function NextAny(s: State, e: Event): State
  {
    match e
    case Put(blockNum, trxId, blockId, body) =>
      var d := Doc(blockNum, trxId, blockId, false, body);
      s.(docs := PutDoc(s.docs, d), lastPut := s.lastPut[KeyOf(d) := d])
    case Catch(_) => Next(s, e)
  }

  ghost function RunAny(events: seq<Event>): State
  {
    if events == [] then State([], [], map[]) else NextAny(RunAny(events[..|events| - 1]), events[|events| - 1])
  }

  predicate IsLate(s: State, e: Event)
  {
    e.Put? && e.blockNum <= |s.chain|
  }

  /** No put of the run came for a height that was irreversible by then. */
  ghost predicate NoneLate(events: seq<Event>)
  {
    events == []
    || (NoneLate(events[..|events| - 1]) && !IsLate(RunAny(events[..|events| - 1]), events[|events| - 1]))
  }

  /** A document is marked exactly up to the last irreversible height, and there of the chain's block. */
  predicate SoundDoc(chain: seq<BlockId>, d: Doc)
  {
    && (d.irreversible <==> d.blockNum <= |chain|)
    && (d.irreversible ==> d.blockNum >= 1 && d.blockId == Some(chain[d.blockNum - 1]))
  }

  ghost predicate SoundStore(s: State)
  {
    forall d :: d in s.docs ==> SoundDoc(s.chain, d)
  }

  predicate IsMissed(s: State, d: Doc)
  {
    d in s.docs && !d.irreversible && d.blockNum <= |s.chain|
  }

  lemma {:induction false} NoneLateIsRun(events: seq<Event>)
    requires NoneLate(events)
    ensures RunAny(events) == Run(events)
  {
    if events != [] { NoneLateIsRun(events[..|events| - 1]); }
  }

  /** A late put leaves an unmarked document at a settled height. */
  lemma LatePutIsMissed(s: State, e: Event) returns (d: Doc)
    requires IsLate(s, e)
    ensures IsMissed(NextAny(s, e), d)
  {
    d := Doc(e.blockNum, e.trxId, e.blockId, false, e.body);
    assert d in PutDoc(s.docs, d);
  }

  /** Once there is one, no event brings the store back: a put of its key puts another one, and settling
      never returns to its height. */
  lemma MissedStays(s: State, e: Event, d: Doc) returns (c: Doc)
    requires IsMissed(s, d)
    ensures IsMissed(NextAny(s, e), c)
  {
    c := d;
    match e
    case Put(blockNum, trxId, blockId, body) =>
      var put := Doc(blockNum, trxId, blockId, false, body);
      DeleteKeyMembers(s.docs, KeyOf(put));
      if KeyOf(d) == KeyOf(put) {
        c := put;
      }
      assert c in PutDoc(s.docs, put);
    case Catch(more) =>
      if Enabled(s, e) {
        SettleMembers(s.docs, s.chain + more, |s.chain|, |s.chain + more|);
        assert Stays(s.chain + more, |s.chain|, |s.chain + more|, d) && d == Mark(|s.chain|, |s.chain + more|, d);
      }
  }

  lemma {:induction false} LateIsMissed(events: seq<Event>) returns (d: Doc)
    requires !NoneLate(events)
    ensures IsMissed(RunAny(events), d)
  {
    var front, e := events[..|events| - 1], events[|events| - 1];
    if NoneLate(front) {
      d := LatePutIsMissed(RunAny(front), e);
    } else {
      d := LateIsMissed(front);
      d := MissedStays(RunAny(front), e, d);
    }
  }

  /** After a run, whatever its puts, the store is sound if and only if none of them came late. */
  lemma SoundExactly(events: seq<Event>)
    ensures SoundStore(RunAny(events)) <==> NoneLate(events)
  {
    if NoneLate(events) {
      NoneLateIsRun(events);
      forall d | d in RunAny(events).docs ensures SoundDoc(RunAny(events).chain, d) {
        IrreversibleStoreSound(events, d);
      }
    } else {
      var d := LateIsMissed(events);
      assert !SoundDoc(RunAny(events).chain, d);
    }
  }
}
