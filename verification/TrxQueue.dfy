/** The transaction queue: entries are taken from the front and sent in batches of one account and
    action. */
module TrxQueue {
  import opened Basics

  /** `data` stands for the action's arguments. */
  datatype Trx = Trx(account: string, action: string, data: string, pubKey: string, privKey: string, accFrom: string)

  /** An action of a sent transaction, with the account whose authority and the key whose signature it carries. */
  datatype Sent = Sent(account: string, action: string, data: string, authority: string, signedWith: string)

  predicate SameKind(a: Trx, b: Trx)
  {
    a.account == b.account && a.action == b.action
  }

  ghost predicate Uniform(batch: seq<Trx>)
  {
    batch != [] &&
    forall i :: 0 <= i < |batch| ==> batch[0].account == batch[i].account && batch[0].action == batch[i].action
  }

  function Flatten<T>(batches: seq<seq<T>>): seq<T>
  {
    if batches == [] then [] else Flatten(batches[..|batches| - 1]) + batches[|batches| - 1]
  }

  /** Batches are uniform, and each is of another kind than the one before, so none could be longer. */
  ghost predicate Maximal(batches: seq<seq<Trx>>)
  {
    && (forall b :: 0 <= b < |batches| ==> Uniform(batches[b]))
    && (forall b :: 0 <= b < |batches| - 1 ==>
                      || batches[b][0].account != batches[b + 1][0].account
                      || batches[b][0].action != batches[b + 1][0].action)
  }

  /** One more entry joins the last batch if it is of its kind, and opens a new one otherwise. */
  function Push(batches: seq<seq<Trx>>, trx: Trx): seq<seq<Trx>>
  {
    if batches != [] && batches[|batches| - 1] != [] && SameKind(batches[|batches| - 1][0], trx)
    then batches[..|batches| - 1] + [batches[|batches| - 1] + [trx]]
    else batches + [[trx]]
  }

  /** The batches of a sequence of entries. */
  function Batches(s: seq<Trx>): seq<seq<Trx>>
  {
    if s == [] then [] else Push(Batches(s[..|s| - 1]), s[|s| - 1])
  }

  /** The actions of one batch: all under the authority and key of its first entry. */
  function SendBatch(batch: seq<Trx>): seq<Sent>
    requires batch != []
  {
    SendUnder(batch[0], batch)
  }

  function SendUnder(front: Trx, batch: seq<Trx>): (r: seq<Sent>)
    ensures |r| == |batch|
  {
    if batch == [] then []
    else [Sent(front.account, front.action, batch[0].data, front.accFrom, front.privKey)] + SendUnder(front, batch[1..])
  }

  lemma {:induction false} SendUnderAt(front: Trx, batch: seq<Trx>, i: nat)
    requires i < |batch|
    ensures SendUnder(front, batch)[i] == Sent(front.account, front.action, batch[i].data, front.accFrom, front.privKey)
  {
    if i > 0 { SendUnderAt(front, batch[1..], i - 1); }
  }

  function Min(a: nat, b: nat): (r: nat)
    ensures r <= a && r <= b && (r == a || r == b)
  {
    if a < b then a else b
  }

  class Queue {
    var trxQueue: seq<Trx>
    var sent: seq<seq<Sent>>
    ghost var batches: seq<seq<Trx>>

    /** What was sent is the sent form of the batches. */
    ghost predicate Valid()
      reads this
    {
      |sent| == |batches| && forall b :: 0 <= b < |sent| ==> batches[b] != [] && sent[b] == SendBatch(batches[b])
    }

    constructor ()
      ensures Valid() && trxQueue == [] && batches == []
    {
      trxQueue, sent, batches := [], [], [];
    }

    method AddTransaction(trx: Trx)
      requires Valid()
      modifies this`trxQueue
      ensures Valid() && trxQueue == old(trxQueue) + [trx]
    {
      trxQueue := trxQueue + [trx];
    }

    /** `run_transaction(temp)`: signs with the keys of the front entry and empties the batch. */
    method RunTransaction(temp: seq<Trx>)
      requires Valid() && temp != []
      modifies this`sent, this`batches
      ensures Valid() && batches == old(batches) + [temp]
    {
      var front := temp[0];
      var rest := temp;
      var actions: seq<Sent> := [];
      while rest != []
        invariant sent == old(sent) && batches == old(batches)
        invariant actions + SendUnder(front, rest) == SendUnder(front, temp)
        decreases |rest|
      {
        Associative(actions, [Sent(front.account, front.action, rest[0].data, front.accFrom, front.privKey)],
                    SendUnder(front, rest[1..]));
        actions := actions + [Sent(front.account, front.action, rest[0].data, front.accFrom, front.privKey)];
        rest := rest[1..];
      }
      sent := sent + [actions];
      batches := batches + [temp];
    }

    /** `run_trx_queue`; `synced` is the check that the head block is recent. */
    method RunTrxQueue(num: nat, synced: bool)
      requires Valid()
      modifies this
      ensures Valid()
      ensures var taken := if synced then Min(num, |old(trxQueue)|) else 0;
              && trxQueue == old(trxQueue)[taken..]
              && batches == old(batches) + Batches(old(trxQueue)[..taken])
    {
      if num == 0 || !synced || trxQueue == [] {
        assert batches + [] == batches;
        return;
      }
      ghost var all := trxQueue;
      var last := trxQueue[0];
      trxQueue := trxQueue[1..];
      var temp := [last];
      var i := 1;
      assert all[..1] == [last] && [last][..0] == [];
      while i < num
        invariant 1 <= i <= num && i <= |all| && trxQueue == all[i..]
        invariant Valid() && temp != [] && temp[0] == last
        invariant batches + [temp] == old(batches) + Batches(all[..i])
        decreases num - i
      {
        if trxQueue == [] {
          break;
        }
        ghost var now := batches;
        BatchesStep(old(batches), now, temp, all, i);
        if SameKind(last, trxQueue[0]) {
          temp := temp + [trxQueue[0]];
          trxQueue := trxQueue[1..];
        } else {
          RunTransaction(temp);
          last := trxQueue[0];
          temp := [last];
          trxQueue := trxQueue[1..];
        }
        i := i + 1;
      }
      RunTransaction(temp);
    }
  }

  /** The next entry either joins the open batch or opens a new one. */
  lemma BatchesStep(before: seq<seq<Trx>>, now: seq<seq<Trx>>, temp: seq<Trx>, all: seq<Trx>, i: nat)
    requires 0 < i < |all| && temp != []
    requires now + [temp] == before + Batches(all[..i])
    ensures before + Batches(all[..i + 1]) ==
            if SameKind(temp[0], all[i]) then now + [temp + [all[i]]] else now + [temp] + [[all[i]]]
  {
    assert all[..i + 1][..i] == all[..i];
    var b := Batches(all[..i]);
    BatchesNonEmpty(all[..i]);
    assert b[|b| - 1] == (now + [temp])[|now|] == temp;
    assert (now + [temp])[..|now|] == now && (before + b)[..|now|] == before + b[..|b| - 1];
  }

  ghost predicate NoneEmpty(batches: seq<seq<Trx>>)
  {
    forall b :: 0 <= b < |batches| ==> batches[b] != []
  }

  lemma PushNonEmpty(batches: seq<seq<Trx>>, trx: Trx)
    requires NoneEmpty(batches)
    ensures Push(batches, trx) != [] && NoneEmpty(Push(batches, trx))
  {
  }

  lemma {:induction false} BatchesNonEmpty(s: seq<Trx>)
    ensures s != [] ==> Batches(s) != []
    ensures NoneEmpty(Batches(s))
  {
    if s != [] {
      BatchesNonEmpty(s[..|s| - 1]);
      PushNonEmpty(Batches(s[..|s| - 1]), s[|s| - 1]);
    }
  }

  lemma FlattenSnoc<T>(front: seq<seq<T>>, b: seq<T>)
    ensures Flatten(front + [b]) == Flatten(front) + b
  {
    assert (front + [b])[..|front|] == front;
  }

  lemma MaximalSnoc(front: seq<seq<Trx>>, b: seq<Trx>)
    requires Maximal(front) && Uniform(b)
    requires front != [] ==> !SameKind(front[|front| - 1][0], b[0])
    ensures Maximal(front + [b])
  {
  }

  lemma MaximalFront(x: seq<seq<Trx>>)
    requires x != [] && Maximal(x)
    ensures Maximal(x[..|x| - 1]) && Uniform(x[|x| - 1])
    ensures |x| > 1 ==> Uniform(x[|x| - 2]) && !SameKind(x[|x| - 2][0], x[|x| - 1][0])
  {
  }

  lemma UniformSnoc(b: seq<Trx>, last: Trx)
    requires Uniform(b) && SameKind(b[0], last)
    ensures Uniform(b + [last]) && (b + [last])[0] == b[0]
  {
  }

  lemma PushMaximal(b: seq<seq<Trx>>, last: Trx)
    requires Maximal(b)
    ensures Maximal(Push(b, last)) && Flatten(Push(b, last)) == Flatten(b) + [last]
  {
    if b != [] { MaximalFront(b); }
    if b != [] && SameKind(b[|b| - 1][0], last) {
      var front, open := b[..|b| - 1], b[|b| - 1];
      UniformSnoc(open, last);
      MaximalSnoc(front, open + [last]);
      FlattenSnoc(front, open + [last]);
      assert Flatten(front) + open + [last] == Flatten(front) + (open + [last]);
    } else {
      MaximalSnoc(b, [last]);
      FlattenSnoc(b, [last]);
    }
  }

  /** The batches are the entries in order, uniform and maximal. */
  lemma {:induction false} BatchesAreMaximal(s: seq<Trx>)
    ensures Flatten(Batches(s)) == s && Maximal(Batches(s))
  {
    if s != [] {
      BatchesAreMaximal(s[..|s| - 1]);
      PushMaximal(Batches(s[..|s| - 1]), s[|s| - 1]);
      assert s == s[..|s| - 1] + [s[|s| - 1]];
    }
  }

  /** The length of the longest suffix of one kind. */
  function SuffixLen(s: seq<Trx>): nat
  {
    if |s| <= 1 then |s|
    else if SameKind(s[|s| - 2], s[|s| - 1]) then 1 + SuffixLen(s[..|s| - 1])
    else 1
  }

  lemma {:induction false} SuffixIsBatch(pre: seq<Trx>, b: seq<Trx>)
    requires Uniform(b) && (pre != [] ==> !SameKind(pre[|pre| - 1], b[0]))
    ensures SuffixLen(pre + b) == |b|
    decreases |b|
  {
    var s := pre + b;
    if |b| > 1 {
      assert s[..|s| - 1] == pre + b[..|b| - 1];
      assert SameKind(b[0], b[|b| - 2]) && SameKind(b[0], b[|b| - 1]);
      SuffixIsBatch(pre, b[..|b| - 1]);
    }
  }

  /** The last batch is the longest suffix of one kind. */
  lemma LastBatchLength(x: seq<seq<Trx>>)
    requires x != [] && Maximal(x)
    ensures Flatten(x) == Flatten(x[..|x| - 1]) + x[|x| - 1]
    ensures SuffixLen(Flatten(x)) == |x[|x| - 1]| > 0
  {
    var front := x[..|x| - 1];
    MaximalFront(x);
    if |x| > 1 {
      var c := x[|x| - 2];
      assert front[|front| - 1] == c && SameKind(c[0], c[|c| - 1]);
    }
    SuffixIsBatch(Flatten(front), x[|x| - 1]);
  }

  /** There is only one way to cut a sequence into maximal batches. */
  lemma {:induction false} MaximalIsUnique(x: seq<seq<Trx>>, y: seq<seq<Trx>>)
    requires Maximal(x) && Maximal(y) && Flatten(x) == Flatten(y)
    ensures x == y
    decreases |x|
  {
    if x != [] { LastBatchLength(x); }
    if y != [] { LastBatchLength(y); }
    if x != [] && y != [] {
      var p, q, a, b := x[..|x| - 1], y[..|y| - 1], x[|x| - 1], y[|y| - 1];
      MaximalFront(x);
      MaximalFront(y);
      SameSplit(Flatten(p), a, Flatten(q), b);
      MaximalIsUnique(p, q);
      assert x == p + [a] && y == q + [b];
    }
  }

  lemma SameSplit<T>(p: seq<T>, a: seq<T>, q: seq<T>, b: seq<T>)
    requires p + a == q + b && |a| == |b|
    ensures p == q && a == b
  {
    assert |p + a| == |q + b|;
    assert p == (p + a)[..|p|] && q == (q + b)[..|q|];
    assert a == (p + a)[|p|..] && b == (q + b)[|q|..];
  }

  // ---- authority ----------------------------------------------------------------------------

  /** The action goes out under the entry's own account and key. */
  predicate SentAsOwn(t: Trx, o: Sent)
  {
    && o.account == t.account && o.action == t.action && o.data == t.data
    && o.authority == t.accFrom && o.signedWith == t.privKey
  }

  /** Every action of the batch goes out as its entry's own. */
  ghost predicate BatchSentAsOwn(batch: seq<Trx>)
  {
    batch != [] && forall i :: 0 <= i < |batch| ==> SentAsOwn(batch[i], SendBatch(batch)[i])
  }

  ghost predicate AllSentAsOwn(batches: seq<seq<Trx>>)
  {
    forall b :: 0 <= b < |batches| ==> BatchSentAsOwn(batches[b])
  }

  predicate SameSender(a: Trx, b: Trx)
  {
    a.accFrom == b.accFrom && a.privKey == b.privKey
  }

  /** Neighbours of one account and action share sender and key. */
  ghost predicate NeighboursShare(s: seq<Trx>)
  {
    forall i :: 0 <= i < |s| - 1 && s[i].account == s[i + 1].account && s[i].action == s[i + 1].action ==>
                  SameSender(s[i], s[i + 1])
  }

  ghost predicate OneSender(b: seq<Trx>)
  {
    forall i :: 0 <= i < |b| ==> SameSender(b[0], b[i])
  }

  ghost predicate AllOneSender(batches: seq<seq<Trx>>)
  {
    forall b :: 0 <= b < |batches| ==> OneSender(batches[b])
  }

  lemma OwnIsOneSender(b: seq<Trx>)
    requires Uniform(b)
    ensures BatchSentAsOwn(b) <==> OneSender(b)
  {
    forall i | 0 <= i < |b|
      ensures SentAsOwn(b[i], SendBatch(b)[i]) <==> SameSender(b[0], b[i])
    {
      SendUnderAt(b[0], b, i);
    }
  }

  lemma NeighboursStep(s: seq<Trx>)
    requires s != []
    ensures NeighboursShare(s) <==>
            NeighboursShare(s[..|s| - 1])
            && (|s| > 1 && SameKind(s[|s| - 2], s[|s| - 1]) ==> SameSender(s[|s| - 2], s[|s| - 1]))
  {
    var front := s[..|s| - 1];
    assert forall i :: 0 <= i < |front| ==> front[i] == s[i];
  }

  lemma AllOneSenderSnoc(front: seq<seq<Trx>>, b: seq<Trx>)
    ensures AllOneSender(front + [b]) <==> AllOneSender(front) && OneSender(b)
  {
    var all := front + [b];
    assert all[|front|] == b && forall i :: 0 <= i < |front| ==> all[i] == front[i];
  }

  lemma OneSenderSnoc(b: seq<Trx>, last: Trx)
    requires b != []
    ensures OneSender(b + [last]) <==> OneSender(b) && SameSender(b[|b| - 1], last)
  {
    var c := b + [last];
    assert c[|b|] == last && forall i :: 0 <= i < |b| ==> c[i] == b[i];
  }

  lemma PushOneSender(b: seq<seq<Trx>>, last: Trx)
    requires Maximal(b)
    ensures AllOneSender(Push(b, last)) <==>
            AllOneSender(b) && (b != [] && SameKind(b[|b| - 1][0], last) ==>
                                  SameSender(b[|b| - 1][|b[|b| - 1]| - 1], last))
  {
    if b != [] { MaximalFront(b); }
    if b != [] && SameKind(b[|b| - 1][0], last) {
      AllOneSenderSnoc(b[..|b| - 1], b[|b| - 1] + [last]);
      AllOneSenderSnoc(b[..|b| - 1], b[|b| - 1]);
      assert b == b[..|b| - 1] + [b[|b| - 1]];
      OneSenderSnoc(b[|b| - 1], last);
    } else {
      AllOneSenderSnoc(b, [last]);
    }
  }

  /** The last batch ends with the last entry. */
  lemma LastOfBatches(s: seq<Trx>)
    requires s != []
    ensures Batches(s) != [] && Uniform(Batches(s)[|Batches(s)| - 1])
    ensures var b := Batches(s)[|Batches(s)| - 1]; b[|b| - 1] == s[|s| - 1]
  {
    BatchesAreMaximal(s);
    MaximalFront(Batches(s));
    LastBatchLength(Batches(s));
  }

  lemma {:induction false} OneSenderStep(s: seq<Trx>)
    ensures AllOneSender(Batches(s)) <==> NeighboursShare(s)
  {
    if s != [] {
      var front := s[..|s| - 1];
      OneSenderStep(front);
      NeighboursStep(s);
      BatchesAreMaximal(front);
      PushOneSender(Batches(front), s[|s| - 1]);
      if front != [] {
        LastOfBatches(front);
        var b := Batches(front)[|Batches(front)| - 1];
        assert SameKind(b[0], b[|b| - 1]);
      }
    }
  }

  /** Every action goes out under its own account and key if and only if neighbouring entries of one
      account and action share them. */
  lemma OwnAuthorityExactly(s: seq<Trx>)
    ensures AllSentAsOwn(Batches(s)) <==> NeighboursShare(s)
  {
    OneSenderStep(s);
    BatchesAreMaximal(s);
    forall b | 0 <= b < |Batches(s)| ensures BatchSentAsOwn(Batches(s)[b]) <==> OneSender(Batches(s)[b]) {
      OwnIsOneSender(Batches(s)[b]);
    }
  }

  /** Two reports that a node queues for two of its calculators differ only in data and sender; they
      form one batch, and the second goes out in the name of the first. */
  lemma SecondReportGoesOutAsFirst(a: Trx, b: Trx)
    requires a.account == b.account && a.action == b.action && a.accFrom != b.accFrom
    ensures Batches([a, b]) == [[a, b]] && SendBatch([a, b])[1].authority == a.accFrom
    ensures !AllSentAsOwn(Batches([a, b]))
  {
    var s := [a, b];
    assert Batches([a]) == [[a]] by { assert [a][..0] == []; }
    assert Batches(s) == Push([[a]], b) by { assert s[..1] == [a]; }
    assert Push([[a]], b) == [[a] + [b]];
    assert [a] + [b] == s;
    SendUnderAt(a, s, 1);
    OwnAuthorityExactly(s);
    assert !NeighboursShare(s) by { assert SameKind(s[0], s[1]); }
  }

  // ---- interleavings ------------------------------------------------------------------------

  datatype Op = Add(trx: Trx) | Run(num: nat, synced: bool)

  datatype State = State(queue: seq<Trx>, batches: seq<seq<Trx>>)

  function Apply(s: State, op: Op): State
  {
    match op
    case Add(trx) => s.(queue := s.queue + [trx])
    case Run(num, synced) =>
      var taken := if synced then Min(num, |s.queue|) else 0;
      State(s.queue[taken..], s.batches + Batches(s.queue[..taken]))
  }

  function ApplyAll(s: State, ops: seq<Op>): State
  {
    if ops == [] then s else Apply(ApplyAll(s, ops[..|ops| - 1]), ops[|ops| - 1])
  }

  function Added(ops: seq<Op>): seq<Trx>
  {
    if ops == [] then []
    else Added(ops[..|ops| - 1]) + (match ops[|ops| - 1] case Add(trx) => [trx] case Run(_, _) => [])
  }

  lemma {:induction false} FlattenConcat<T>(a: seq<seq<T>>, b: seq<seq<T>>)
    ensures Flatten(a + b) == Flatten(a) + Flatten(b)
  {
    if b == [] {
      assert a + b == a;
    } else {
      FlattenConcat(a, b[..|b| - 1]);
      assert (a + b)[..|a + b| - 1] == a + b[..|b| - 1];
    }
  }

  lemma FifoStep(s: State, op: Op)
    ensures Flatten(Apply(s, op).batches) + Apply(s, op).queue ==
            Flatten(s.batches) + s.queue + (match op case Add(trx) => [trx] case Run(_, _) => [])
  {
    match op
    case Add(trx) =>
      assert Flatten(s.batches) + (s.queue + [trx]) == Flatten(s.batches) + s.queue + [trx];
    case Run(num, synced) =>
      var taken := if synced then Min(num, |s.queue|) else 0;
      BatchesAreMaximal(s.queue[..taken]);
      FlattenConcat(s.batches, Batches(s.queue[..taken]));
      Rejoin(Flatten(s.batches), s.queue, taken);
  }

  lemma Rejoin<T>(a: seq<T>, q: seq<T>, n: nat)
    requires n <= |q|
    ensures a + q[..n] + q[n..] == a + q + []
  {
  }

  /** Over any interleaving of adds and runs nothing is lost, doubled or reordered: what was sent,
      followed by what is queued, is what was added. */
  lemma {:induction false} FifoInEveryRun(ops: seq<Op>)
    ensures var s := ApplyAll(State([], []), ops);
            Flatten(s.batches) + s.queue == Added(ops)
  {
    if ops != [] {
      FifoInEveryRun(ops[..|ops| - 1]);
      FifoStep(ApplyAll(State([], []), ops[..|ops| - 1]), ops[|ops| - 1]);
    }
  }

  /** The entries that an operation takes from the queue. */
  function Taken(s: State, op: Op): seq<Trx>
  {
    match op
    case Add(_) => []
    case Run(num, synced) => s.queue[..if synced then Min(num, |s.queue|) else 0]
  }

  /** In each run neighbours of one account and action among the entries taken share sender and key; entries
      that different runs take need not. */
  ghost predicate AllRunsShare(ops: seq<Op>)
  {
    ops == []
    || (var front, op := ops[..|ops| - 1], ops[|ops| - 1];
        AllRunsShare(front) && NeighboursShare(Taken(ApplyAll(State([], []), front), op)))
  }

  lemma AllSentConcat(x: seq<seq<Trx>>, y: seq<seq<Trx>>)
    ensures AllSentAsOwn(x + y) <==> AllSentAsOwn(x) && AllSentAsOwn(y)
  {
    var all := x + y;
    assert forall b :: 0 <= b < |x| ==> all[b] == x[b];
    assert forall b :: 0 <= b < |y| ==> all[|x| + b] == y[b];
  }

  /** Over any interleaving of adds and runs every action went out under its own account and key if and only if
      in each run like neighbours among the entries taken shared them. */
  lemma {:induction false} OwnAuthorityInEveryRun(ops: seq<Op>)
    ensures AllSentAsOwn(ApplyAll(State([], []), ops).batches) <==> AllRunsShare(ops)
  {
    if ops != [] {
      var front, op := ops[..|ops| - 1], ops[|ops| - 1];
      var s := ApplyAll(State([], []), front);
      OwnAuthorityInEveryRun(front);
      if op.Run? {
        AllSentConcat(s.batches, Batches(Taken(s, op)));
        OwnAuthorityExactly(Taken(s, op));
      }
    }
  }
}
