/** The result hash of a calculation: the Merkle root over one emission and one importance statement
    per account, and what two equal result hashes say about the accounts. */
module ResultHash {
  import opened Basics
  import opened KeyOrder
  import opened PowerOfTwo
  import opened MerkleSpec
  import opened MerkleTree

  datatype Account = Account(name: string, emission: string, importance: string)

  function EmissionStatement(a: Account): string
  {
    "emission " + (a.name + (" " + a.emission))
  }

  function ImportanceStatement(a: Account): string
  {
    "importance " + (a.name + (" " + a.importance))
  }

  predicate IsStatement(a: Account, s: string)
  {
    s == EmissionStatement(a) || s == ImportanceStatement(a)
  }

  ghost predicate Stated(accounts: seq<Account>, s: string)
  {
    exists a :: a in accounts && IsStatement(a, s)
  }

  /** Names are the keys of a map. */
  ghost predicate DistinctNames(accounts: seq<Account>)
  {
    forall i, j :: 0 <= i < j < |accounts| ==> accounts[i].name != accounts[j].name
  }

  /** Values are printed numbers, so they hold no blank; names may hold any character. */
  ghost predicate BlankFreeValues(accounts: seq<Account>)
  {
    forall a :: a in accounts ==> ' ' !in a.emission && ' ' !in a.importance
  }

  /** The tree holds each statement as key and as value, and nothing else. */
  ghost predicate HoldsStatements(sum: seq<Entry>, accounts: seq<Account>)
  {
    && Sorted(sum)
    && (forall i :: 0 <= i < |sum| ==> Stated(accounts, sum[i].key) && sum[i].value == sum[i].key)
    && (forall s :: Stated(accounts, s) ==> exists i :: 0 <= i < |sum| && sum[i].key == s)
  }

  function Input(accounts: seq<Account>): (r: seq<(string, string)>)
    ensures |r| == 2 * |accounts|
  {
    if accounts == [] then []
    else
      var a := accounts[|accounts| - 1];
      Input(accounts[..|accounts| - 1])
      + [(EmissionStatement(a), EmissionStatement(a)), (ImportanceStatement(a), ImportanceStatement(a))]
  }

  /** The loop of `calculate_hash`: two statements per account, as key and as value. */
  method MakeInput(accounts: seq<Account>) returns (input: seq<(string, string)>)
    ensures input == Input(accounts)
  {
    input := [];
    for i := 0 to |accounts|
      invariant input == Input(accounts[..i])
    {
      var emission := EmissionStatement(accounts[i]);
      input := input + [(emission, emission)];
      var importance := ImportanceStatement(accounts[i]);
      input := input + [(importance, importance)];
      assert accounts[..i + 1][..i] == accounts[..i];
    }
    assert accounts[..|accounts|] == accounts;
  }

  /** `calculate_hash`: fills and counts a fresh tree and takes its last node as the result hash. No hash
      stands for a read past the end: of a layer, or of the empty list of layers. */
  method CalculateHash(h: Hasher, accounts: seq<Account>) returns (tree: Tree, hash: Option<Digest>)
    requires DistinctNames(accounts)
    ensures |accounts| <= 1 ==> hash == None
    ensures |accounts| >= 2 && BlankFreeValues(accounts) ==> hash.Some?
    ensures hash.Some? ==>
              && tree.h == h && tree.Once() && HoldsStatements(tree.sum, accounts)
              && hash == Some(Root(h, Hashes(tree.leafsList)))
  {
    var input := MakeInput(accounts);
    tree := new Tree(h);
    var size := tree.SetAccounts(input);
    ghost var filled := tree.sum;
    InputHolds(accounts);
    StatementCount(filled, accounts);
    var status := tree.CountFresh();
    hash := None;
    if status == Counted {
      SameHolds(filled, tree.sum, accounts);
      OnceRoot(h, tree.sum, tree.leafsList, tree.nodesList);
      hash := Some(tree.nodesList[|tree.nodesList| - 1][0]);
    }
  }

  lemma OnceRoot(h: Hasher, sum: seq<Entry>, leaves: seq<Leaf>, nodes: seq<seq<Digest>>)
    requires IsOnce(h, sum, leaves, nodes)
    ensures nodes != [] && nodes[|nodes| - 1] == [Root(h, Hashes(leaves))]
  {
    StoredProof(h, sum, leaves, 0);
  }

  lemma SameHolds(s: seq<Entry>, t: seq<Entry>, accounts: seq<Account>)
    requires HoldsStatements(s, accounts) && SameEntries(s, t)
    ensures HoldsStatements(t, accounts)
  {
    forall k | Stated(accounts, k) ensures exists i :: 0 <= i < |t| && t[i].key == k {
      var i :| 0 <= i < |s| && s[i].key == k;
      assert t[i].key == k;
    }
  }

  ghost predicate ValuesAreKeys(s: seq<Entry>)
  {
    Sorted(s) && forall k :: k in Contents(s) ==> Contents(s)[k] == k
  }

  /** Every entry written has equal key and value, and the keys written are those of the input. */
  lemma {:induction false} WritesHold(s: seq<Entry>, input: seq<(string, string)>)
    requires ValuesAreKeys(s) && forall i :: 0 <= i < |input| ==> input[i].0 == input[i].1
    ensures ValuesAreKeys(Writes(s, input)) && |Writes(s, input)| <= |s| + |input|
    ensures forall k :: k in Contents(Writes(s, input)) <==> k in Contents(s) || (k, k) in input
    decreases |input|
  {
    if input != [] {
      var t := Put(s, input[0].0, input[0].1);
      PutSorted(s, input[0].0, input[0].1);
      PutContents(s, input[0].0, input[0].1);
      PutSize(s, input[0].0, input[0].1);
      WritesHold(t, input[1..]);
      assert input == [input[0]] + input[1..];
    }
  }

  lemma {:induction false} InputPairs(accounts: seq<Account>)
    ensures forall i :: 0 <= i < |Input(accounts)| ==> Input(accounts)[i].0 == Input(accounts)[i].1
    ensures forall s :: (s, s) in Input(accounts) <==> Stated(accounts, s)
  {
    if accounts != [] {
      var n := |accounts| - 1;
      InputPairs(accounts[..n]);
      assert accounts == accounts[..n] + [accounts[n]];
      forall s ensures Stated(accounts, s) <==> Stated(accounts[..n], s) || IsStatement(accounts[n], s) {
        if Stated(accounts[..n], s) {
          var a :| a in accounts[..n] && IsStatement(a, s);
          assert a in accounts;
        }
      }
    }
  }

  lemma InputHolds(accounts: seq<Account>)
    ensures HoldsStatements(Writes([], Input(accounts)), accounts)
    ensures |Writes([], Input(accounts))| <= 2 * |accounts|
  {
    var s := Writes([], Input(accounts));
    InputPairs(accounts);
    WritesHold([], Input(accounts));
    ContentsKeys(s);
    forall k | Stated(accounts, k) ensures exists i :: 0 <= i < |s| && s[i].key == k {
      assert k in Contents(s);
    }
  }

  lemma ThreeStatements(a: Account, b: Account)
    requires a.name != b.name && BlankFreeValues([a, b])
    ensures EmissionStatement(a) != ImportanceStatement(a)
    ensures EmissionStatement(b) != EmissionStatement(a) && EmissionStatement(b) != ImportanceStatement(a)
  {
    KindsDiffer(a, a);
    KindsDiffer(b, a);
    assert a in [a, b] && b in [a, b];
    if EmissionStatement(a) == EmissionStatement(b) {
      StatementInjective("emission ", a.name, a.emission, b.name, b.emission);
    }
  }

  lemma StatementHeld(sum: seq<Entry>, accounts: seq<Account>, a: Account, s: string) returns (i: nat)
    requires HoldsStatements(sum, accounts) && a in accounts && IsStatement(a, s)
    ensures i < |sum| && sum[i].key == s
  {
    assert Stated(accounts, s);
    i :| 0 <= i < |sum| && sum[i].key == s;
  }

  /** How many entries the tree has for no, one, and more accounts. */
  lemma StatementCount(sum: seq<Entry>, accounts: seq<Account>)
    requires HoldsStatements(sum, accounts) && DistinctNames(accounts) && |sum| <= 2 * |accounts|
    ensures accounts == [] <==> sum == []
    ensures |accounts| >= 2 && BlankFreeValues(accounts) ==> |sum| >= 3
  {
    if accounts != [] {
      var a := accounts[0];
      var i := StatementHeld(sum, accounts, a, EmissionStatement(a));
      if |accounts| >= 2 && BlankFreeValues(accounts) {
        var b := accounts[1];
        ThreeStatements(a, b);
        var j := StatementHeld(sum, accounts, a, ImportanceStatement(a));
        var k := StatementHeld(sum, accounts, b, EmissionStatement(b));
      }
    }
  }

  lemma KindsDiffer(a: Account, b: Account)
    ensures EmissionStatement(a) != ImportanceStatement(b)
  {
    assert EmissionStatement(a)[0] == 'e' && ImportanceStatement(b)[0] == 'i';
  }

  lemma CancelPrefix(p: string, s: string, t: string)
    requires p + s == p + t
    ensures s == t
  {
    assert s == (p + s)[|p|..] && t == (p + t)[|p|..];
  }

  /** The last blank of a statement separates name and value. */
  lemma StatementInjective(kind: string, n: string, v: string, m: string, w: string)
    requires ' ' !in v && ' ' !in w
    requires kind + (n + (" " + v)) == kind + (m + (" " + w))
    ensures n == m && v == w
  {
    CancelPrefix(kind, n + (" " + v), m + (" " + w));
    var s := n + (" " + v);
    assert s == m + (" " + w);
    assert s[|n|] == ' ' && s[|m|] == ' ';
    assert n == s[..|n|] && m == s[..|m|];
    CancelPrefix(n, " " + v, " " + w);
    CancelPrefix(" ", v, w);
  }

  lemma DoubleInjective(s: string, t: string)
    requires s + s == t + t
    ensures s == t
  {
    assert |s + s| == |t + t|;
    assert s == (s + s)[..|s|] && t == (t + t)[..|t|];
  }

  lemma PaddingShows(h: Hasher, a: seq<Entry>, la: seq<Leaf>, b: seq<Entry>, lb: seq<Leaf>)
    requires AreLeaves(h, a, la) && AreLeaves(h, b, lb) && |a| < |b|
    requires Hashes(la) == Hashes(lb)
    ensures h.text("") == h.text(LeafText(b[|a|]))
  {
    assert Hashes(la)[|a|] == Hashes(lb)[|a|];
  }

  /** Equal padded leaf hashes mean equal entries: a statement is never the padding text. */
  lemma EqualLeavesEqualEntries(h: Hasher, a: seq<Entry>, la: seq<Leaf>, b: seq<Entry>, lb: seq<Leaf>)
    requires InjectiveText(h)
    requires AreLeaves(h, a, la) && AreLeaves(h, b, lb) && |a| <= |b|
    requires forall i :: 0 <= i < |a| ==> a[i].key == a[i].value
    requires forall i :: 0 <= i < |b| ==> b[i].key == b[i].value != ""
    requires Hashes(la) == Hashes(lb)
    ensures SameEntries(a, b)
  {
    if |a| < |b| {
      assert NoTextCollision(h, "", LeafText(b[|a|]));
      PaddingShows(h, a, la, b, lb);
    }
    forall i | 0 <= i < |a| ensures a[i].key == b[i].key {
      assert Hashes(la)[i] == Hashes(lb)[i];
      assert la[i] == EntryLeaf(h, a[i]) && lb[i] == EntryLeaf(h, b[i]);
      assert NoTextCollision(h, LeafText(a[i]), LeafText(b[i]));
      DoubleInjective(a[i].key, b[i].key);
    }
  }

  /** The statements determine name, emission and importance of every account. */
  lemma StatementsDetermineAccounts(accounts: seq<Account>, others: seq<Account>)
    requires DistinctNames(others) && BlankFreeValues(accounts) && BlankFreeValues(others)
    requires forall s :: Stated(accounts, s) ==> Stated(others, s)
    ensures forall a :: a in accounts ==> a in others
  {
    forall a | a in accounts ensures a in others {
      assert IsStatement(a, EmissionStatement(a)) && IsStatement(a, ImportanceStatement(a));
      assert Stated(accounts, EmissionStatement(a)) && Stated(accounts, ImportanceStatement(a));
      var b :| b in others && IsStatement(b, EmissionStatement(a));
      KindsDiffer(a, b);
      StatementInjective("emission ", a.name, a.emission, b.name, b.emission);
      var c :| c in others && IsStatement(c, ImportanceStatement(a));
      KindsDiffer(c, a);
      StatementInjective("importance ", a.name, a.importance, c.name, c.importance);
      assert b == c;
    }
  }

  ghost predicate SameAccounts(accounts: seq<Account>, others: seq<Account>)
  {
    forall a :: a in accounts <==> a in others
  }

  /** A counted tree of a calculation. */
  ghost predicate IsResultTree(h: Hasher, accounts: seq<Account>, sum: seq<Entry>, leaves: seq<Leaf>)
  {
    && DistinctNames(accounts) && BlankFreeValues(accounts)
    && |sum| > 0 && HoldsStatements(sum, accounts) && AreLeaves(h, sum, leaves)
  }

  lemma EqualEntriesEqualResult(accounts: seq<Account>, a: seq<Entry>, others: seq<Account>, b: seq<Entry>)
    requires DistinctNames(accounts) && DistinctNames(others) && BlankFreeValues(accounts) && BlankFreeValues(others)
    requires HoldsStatements(a, accounts) && HoldsStatements(b, others) && SameEntries(a, b)
    ensures SameAccounts(accounts, others)
  {
    forall s | Stated(accounts, s) ensures Stated(others, s) {
      var i :| 0 <= i < |a| && a[i].key == s;
      assert b[i].key == s;
    }
    forall s | Stated(others, s) ensures Stated(accounts, s) {
      var i :| 0 <= i < |b| && b[i].key == s;
      assert a[i].key == s;
    }
    StatementsDetermineAccounts(accounts, others);
    StatementsDetermineAccounts(others, accounts);
  }

  lemma HeldKeys(sum: seq<Entry>, accounts: seq<Account>, k: string)
    requires HoldsStatements(sum, accounts)
    ensures HasKey(sum, k) <==> Stated(accounts, k)
  {
    if HasKey(sum, k) {
      var i :| 0 <= i < |sum| && sum[i].key == k;
      assert Stated(accounts, sum[i].key);
    }
  }

  lemma EqualResultEqualLeaves(h: Hasher, accounts: seq<Account>, a: seq<Entry>, la: seq<Leaf>,
                               others: seq<Account>, b: seq<Entry>, lb: seq<Leaf>)
    requires IsResultTree(h, accounts, a, la) && IsResultTree(h, others, b, lb)
    requires SameAccounts(accounts, others)
    ensures Hashes(la) == Hashes(lb)
  {
    forall k ensures HasKey(a, k) <==> HasKey(b, k) {
      HeldKeys(a, accounts, k);
      HeldKeys(b, others, k);
    }
    SortedUnique(a, b);
    forall i | 0 <= i < |la| ensures la[i] == lb[i] {
      if i < |a| { assert la[i] == EntryLeaf(h, a[i]) && lb[i] == EntryLeaf(h, b[i]); }
    }
    assert la == lb;
  }

  lemma EqualLeavesEqualResult(h: Hasher, accounts: seq<Account>, a: seq<Entry>, la: seq<Leaf>,
                               others: seq<Account>, b: seq<Entry>, lb: seq<Leaf>)
    requires InjectiveText(h) && IsResultTree(h, accounts, a, la) && IsResultTree(h, others, b, lb)
    requires Hashes(la) == Hashes(lb)
    ensures SameAccounts(accounts, others)
  {
    if |a| <= |b| {
      EqualLeavesEqualEntries(h, a, la, b, lb);
    } else {
      EqualLeavesEqualEntries(h, b, lb, a, la);
    }
    EqualEntriesEqualResult(accounts, a, others, b);
  }

  lemma EqualLeavesExactly(h: Hasher, accounts: seq<Account>, a: seq<Entry>, la: seq<Leaf>,
                           others: seq<Account>, b: seq<Entry>, lb: seq<Leaf>)
    requires InjectiveText(h) && IsResultTree(h, accounts, a, la) && IsResultTree(h, others, b, lb)
    ensures Hashes(la) == Hashes(lb) <==> SameAccounts(accounts, others)
  {
    if Hashes(la) == Hashes(lb) {
      EqualLeavesEqualResult(h, accounts, a, la, others, b, lb);
    }
    if SameAccounts(accounts, others) {
      EqualResultEqualLeaves(h, accounts, a, la, others, b, lb);
    }
  }

  lemma FirstLeaf(h: Hasher, a: seq<Entry>, la: seq<Leaf>) returns (k: nat, text: string)
    requires |a| > 0 && AreLeaves(h, a, la)
    ensures |Hashes(la)| == Exp2(k) && Hashes(la)[0] == h.text(text)
  {
    k, text := CeilLog2(|a|), LeafText(a[0]);
    assert la[0] == EntryLeaf(h, a[0]);
  }

  /** Two calculations have equal result hashes if and only if they have the same accounts with the same
      emission and importance. */
  lemma EqualHashExactly(h: Hasher, accounts: seq<Account>, a: seq<Entry>, la: seq<Leaf>,
                         others: seq<Account>, b: seq<Entry>, lb: seq<Leaf>)
    requires InjectivePair(h) && InjectiveText(h)
    requires IsResultTree(h, accounts, a, la) && IsResultTree(h, others, b, lb)
    requires |la| == |lb| || Separated(h)
    ensures Root(h, Hashes(la)) == Root(h, Hashes(lb)) <==> SameAccounts(accounts, others)
  {
    EqualLeavesExactly(h, accounts, a, la, others, b, lb);
    var j, x := FirstLeaf(h, a, la);
    var k, y := FirstLeaf(h, b, lb);
    EqualRootsEqualLeaves(h, Hashes(la), Hashes(lb), j, k, x, y);
  }

  /** Each account has two leaves, with their texts written out. */
  lemma LeavesOfAccount(h: Hasher, accounts: seq<Account>, sum: seq<Entry>, leaves: seq<Leaf>, a: Account)
    returns (i: nat, j: nat)
    requires HoldsStatements(sum, accounts) && AreLeaves(h, sum, leaves) && a in accounts
    ensures i < |leaves| && j < |leaves|
    ensures var s := "emission " + a.name + " " + a.emission; leaves[i] == Leaf(s + s, h.text(s + s))
    ensures var s := "importance " + a.name + " " + a.importance; leaves[j] == Leaf(s + s, h.text(s + s))
  {
    i := StatementHeld(sum, accounts, a, EmissionStatement(a));
    j := StatementHeld(sum, accounts, a, ImportanceStatement(a));
    assert EmissionStatement(a) == "emission " + a.name + " " + a.emission;
    assert ImportanceStatement(a) == "importance " + a.name + " " + a.importance;
    LeafIs(h, sum, leaves, i);
    LeafIs(h, sum, leaves, j);
  }

  /** And every other leaf is padding. */
  lemma LeafOfSome(h: Hasher, accounts: seq<Account>, sum: seq<Entry>, leaves: seq<Leaf>, i: nat)
    requires HoldsStatements(sum, accounts) && AreLeaves(h, sum, leaves) && i < |leaves|
    ensures leaves[i] == Leaf("none", h.text("")) ||
            exists a :: a in accounts && IsLeafOf(a, leaves[i].text)
  {
    LeafIs(h, sum, leaves, i);
    if i < |sum| {
      var a :| a in accounts && IsStatement(a, sum[i].key);
      assert EmissionStatement(a) == "emission " + a.name + " " + a.emission;
      assert ImportanceStatement(a) == "importance " + a.name + " " + a.importance;
      assert IsLeafOf(a, leaves[i].text);
    }
  }

  predicate IsLeafOf(a: Account, text: string)
  {
    var s, t := "emission " + a.name + " " + a.emission, "importance " + a.name + " " + a.importance;
    text == s + s || text == t + t
  }
}
