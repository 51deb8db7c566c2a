/** The Merkle tree of merkle_tree.hpp: accounts are set, counted once, and asked for proofs. */
module MerkleTree {
  import opened Basics
  import opened KeyOrder
  import opened PowerOfTwo
  import opened MerkleSpec

  datatype Leaf = Leaf(text: string, hash: Digest)

  /** How `count_tree` ends: no entries, a counted tree, or a read past the end of a layer. */
  datatype CountStatus = Nothing | Counted | OutOfRange

  /** The text hashed for an entry. */
  function LeafText(e: Entry): string
  {
    e.key + e.value
  }

  function EntryLeaf(h: Hasher, e: Entry): Leaf
  {
    Leaf(LeafText(e), h.text(LeafText(e)))
  }

  function Padding(h: Hasher): Leaf
  {
    Leaf("none", h.text(""))
  }

  /** The leaves of `entries` appended to those of earlier counts, padded to the least power of two that is at
      least their number together. */
  ghost predicate AreAppended(h: Hasher, before: seq<Leaf>, entries: seq<Entry>, leaves: seq<Leaf>)
  {
    var n := |before| + |entries|;
    && |leaves| == Exp2(CeilLog2(n))
    && before <= leaves
    && (forall i :: 0 <= i < |entries| ==> leaves[|before| + i] == EntryLeaf(h, entries[i]))
    && (forall i :: n <= i < |leaves| ==> leaves[i] == Padding(h))
  }

  /** The padded leaves of a first count. */
  ghost predicate AreLeaves(h: Hasher, entries: seq<Entry>, leaves: seq<Leaf>)
  {
    && |leaves| == Exp2(CeilLog2(|entries|))
    && (forall i :: 0 <= i < |entries| ==> leaves[i] == EntryLeaf(h, entries[i]))
    && (forall i :: |entries| <= i < |leaves| ==> leaves[i] == Padding(h))
  }

  /** The lowest `k` of the node lists are the layers of one tree, and its root is also the last node. */
  ghost predicate Stacked(h: Hasher, nodes: seq<seq<Digest>>, k: nat)
  {
    && 2 <= k <= |nodes|
    && |nodes[0]| == Exp2(k - 1)
    && nodes[..k] == Stack(h, nodes[0])
    && nodes[|nodes| - 1] == nodes[k - 1]
  }

  function Hashes(leaves: seq<Leaf>): (r: seq<Digest>)
    ensures |r| == |leaves|
    ensures forall i :: 0 <= i < |r| ==> r[i] == leaves[i].hash
  {
    if leaves == [] then [] else Hashes(leaves[..|leaves| - 1]) + [leaves[|leaves| - 1].hash]
  }

  /** Each entry's recorded position is its rank in key order. */
  ghost predicate Ranked(s: seq<Entry>)
  {
    forall i :: 0 <= i < |s| ==> s[i].pos == i
  }

  ghost predicate SameEntries(s: seq<Entry>, t: seq<Entry>)
  {
    |s| == |t| && forall i :: 0 <= i < |s| ==> s[i].key == t[i].key && s[i].value == t[i].value
  }

  /** All `sum[k].first = v` of a list, in order. */
  function Writes(s: seq<Entry>, accounts: seq<(string, string)>): seq<Entry>
    decreases |accounts|
  {
    if accounts == [] then s else Writes(Put(s, accounts[0].0, accounts[0].1), accounts[1..])
  }

  /** After one count: the padded leaves of the entries and all layers above them. */
  ghost predicate IsOnce(h: Hasher, sum: seq<Entry>, leaves: seq<Leaf>, nodes: seq<seq<Digest>>)
  {
    && Sorted(sum) && |sum| >= 3 && Ranked(sum)
    && AreLeaves(h, sum, leaves)
    && nodes == Layers(h, Hashes(leaves))
  }

  /** What any number of counts leaves behind: the layers of the first one stay in front. */
  ghost predicate IsBuilt(h: Hasher, sum: seq<Entry>, leaves: seq<Leaf>, nodes: seq<seq<Digest>>, k: nat)
  {
    && Sorted(sum) && |sum| >= 3
    && Stacked(h, nodes, k)
    && |leaves| >= 4 && exists j: nat :: |leaves| == Exp2(j)
  }

  /** After more than one count there are node lists behind the layers of the first one. */
  ghost predicate IsRecounted(h: Hasher, sum: seq<Entry>, leaves: seq<Leaf>, nodes: seq<seq<Digest>>, k: nat)
  {
    Ranked(sum) && |sum| <= |leaves| && IsBuilt(h, sum, leaves, nodes, k) && k < |nodes|
  }

  class Tree {
    const h: Hasher
    var sum: seq<Entry>
    var leafsList: seq<Leaf>
    var nodesList: seq<seq<Digest>>
    var counted: bool

    ghost predicate Fresh()
      reads this
    {
      leafsList == [] && nodesList == [] && !counted
    }

    /** Counted, and only once. */
    ghost predicate Once()
      reads this
    {
      counted && IsOnce(h, sum, leafsList, nodesList)
    }

    ghost predicate Built(k: nat)
      reads this
    {
      IsBuilt(h, sum, leafsList, nodesList, k)
    }

    /** Counted more than once. */
    ghost predicate Recounted()
      reads this
    {
      exists k: nat :: IsRecounted(h, sum, leafsList, nodesList, k)
    }

    ghost predicate Valid()
      reads this
    {
      && Sorted(sum)
      && (Fresh() || exists k: nat :: Built(k))
      && (counted ==> Once() || Recounted())
    }

    ghost function Depth(): nat
      reads this
    {
      CeilLog2(|sum|)
    }

    /** The node that becomes the result hash. */
    function LastNode(): seq<Digest>
      requires nodesList != []
      reads this
    {
      nodesList[|nodesList| - 1]
    }

    constructor (hasher: Hasher)
      ensures Valid() && Fresh() && h == hasher && sum == []
    {
      h := hasher;
      sum, leafsList, nodesList, counted := [], [], [], false;
    }

    method SetAccounts(accounts: seq<(string, string)>) returns (size: nat)
      requires Valid()
      modifies this`sum, this`counted
      ensures Valid()
      ensures sum == Writes(old(sum), accounts)
      ensures size == if accounts == [] then 0 else |sum|
      ensures counted == (old(counted) && accounts == [])
    {
      if |accounts| == 0 {
        return 0;
      }
      counted := false;
      for i := 0 to |accounts|
        invariant Sorted(sum) && |sum| >= |old(sum)| && !counted
        invariant Writes(sum, accounts[i..]) == Writes(old(sum), accounts)
      {
        PutSorted(sum, accounts[i].0, accounts[i].1);
        PutSize(sum, accounts[i].0, accounts[i].1);
        sum := Put(sum, accounts[i].0, accounts[i].1);
        assert accounts[i..][1..] == accounts[i + 1..];
      }
      size := |sum|;
      ghost var built := exists k: nat :: old(Built(k));
      if built {
        ghost var k: nat :| old(Built(k));
        assert Built(k);
      }
    }

    /** One layer of the tree: `layerSize / 2` pairs are read, the last of which may not be there. */
    method HashPairs(prev: seq<Digest>, layerSize: nat) returns (inRange: bool, layer: seq<Digest>)
      requires layerSize == |prev| + 1
      ensures inRange == (|prev| % 2 == 0)
      ensures inRange ==> layer == Pairs(h, prev)
    {
      layer := [];
      for j := 0 to layerSize / 2
        invariant |layer| == j && 2 * j <= |prev|
        invariant layer == PairsUpTo(h, prev, j)
      {
        if j * 2 + 1 >= |prev| {
          return false, layer;
        }
        layer := layer + [h.pair(prev[j * 2], prev[j * 2 + 1])];
      }
      inRange := true;
    }

    /** Appends the leaves of all entries, recording positions. */
    method AppendLeaves()
      modifies this`sum, this`leafsList
      ensures SameEntries(sum, old(sum)) && Ranked(sum)
      ensures |leafsList| == |old(leafsList)| + |sum| && old(leafsList) <= leafsList
      ensures forall i :: 0 <= i < |sum| ==> leafsList[|old(leafsList)| + i] == EntryLeaf(h, sum[i])
    {
      var pos := 0;
      while pos < |sum|
        invariant 0 <= pos <= |sum| == |old(sum)| && |leafsList| == |old(leafsList)| + pos
        invariant old(leafsList) <= leafsList && SameEntries(sum, old(sum))
        invariant forall i :: 0 <= i < pos ==> sum[i].pos == i
        invariant forall i :: 0 <= i < pos ==> leafsList[|old(leafsList)| + i] == EntryLeaf(h, sum[i])
      {
        leafsList := leafsList + [EntryLeaf(h, sum[pos])];
        sum := sum[pos := sum[pos].(pos := pos)];
        pos := pos + 1;
      }
    }

    /** The padding loop: up to the least power of two. */
    method PadLeaves()
      requires leafsList != []
      modifies this`leafsList
      ensures |leafsList| == Exp2(CeilLog2(|old(leafsList)|)) && old(leafsList) <= leafsList
      ensures forall i :: |old(leafsList)| <= i < |leafsList| ==> leafsList[i] == Padding(h)
    {
      ghost var before, n: nat := leafsList, |leafsList|;
      ghost var padded := Exp2(CeilLog2(n));
      ExponentIsPower(CeilLog2(n));
      while !PowerOfTwo.PowerOfTwo(|leafsList|)
        invariant n <= |leafsList| <= padded && leafsList[..n] == before
        invariant forall i :: n <= i < |leafsList| ==> leafsList[i] == Padding(h)
        decreases padded - |leafsList|
      {
        leafsList := leafsList + [Padding(h)];
      }
      PaddedIsLeast(n, |leafsList|);
    }

    method CountLeaves()
      requires sum != []
      modifies this`sum, this`leafsList
      ensures SameEntries(sum, old(sum)) && Ranked(sum)
      ensures AreAppended(h, old(leafsList), sum, leafsList)
    {
      AppendLeaves();
      PadLeaves();
    }

    /** A layer over all leaves is appended, and then one more over each node list from the lowest on, until
        the list at the same place is a single node. */
    method CountLayers(ghost k: nat)
      returns (inRange: bool)
      requires exists j: nat :: |leafsList| == Exp2(j)
      requires nodesList != [] ==> Stacked(h, nodesList, k) && |leafsList| >= 2
      modifies this`nodesList
      ensures old(nodesList) == [] ==> inRange == (|leafsList| >= 4)
      ensures old(nodesList) == [] && inRange ==> nodesList == Layers(h, Hashes(leafsList))
      ensures old(nodesList) != [] ==>
                inRange && nodesList == old(nodesList) + [Pairs(h, Hashes(leafsList))] + Layers(h, old(nodesList)[0])
    {
      ghost var j: nat :| |leafsList| == Exp2(j);
      Exp2Small(j);
      var leaves := Hashes(leafsList);
      var layer;
      inRange, layer := HashPairs(leaves, |leaves| + 1);
      if inRange {
        nodesList := nodesList + [layer];
        if |nodesList| == 1 {
          RisingStart(h, nodesList, j);
          inRange := CountUpperLayers(j);
        } else {
          StackedRises(h, old(nodesList), layer, k);
          inRange := CountUpperLayers(k);
        }
      }
    }

    /** The open-ended loop. It ends with all layers over the lowest node list appended, and runs past the end
        exactly when that list is a single node. */
    method CountUpperLayers(ghost k: nat) returns (inRange: bool)
      requires k >= 1 && Rising(h, nodesList, nodesList, k, 1)
      modifies this`nodesList
      ensures inRange == (k >= 2)
      ensures inRange ==> nodesList == old(nodesList) + Layers(h, old(nodesList)[0])
    {
      ghost var base := nodesList;
      var i: nat := 1;
      while true
        invariant 1 <= i && (i < k || i == k == 1) && Rising(h, base, nodesList, k, i)
        decreases k - i
      {
        RisingSize(h, base, nodesList, k, i);
        var layer;
        inRange, layer := HashPairs(nodesList[i - 1], |nodesList[i - 1]| + 1);
        if !inRange {
          return;
        }
        RisingStep(h, base, nodesList, k, i);
        nodesList := nodesList + [layer];
        RisingSize(h, base, nodesList, k, i + 1);
        if |nodesList[i]| == 1 {
          break;
        }
        i := i + 1;
      }
      RisingEnd(h, base, nodesList, k);
    }

    /** Leaves and layers, on a fresh tree or on one that counts have built. */
    method CountAll(ghost first: bool, ghost k: nat) returns (inRange: bool)
      requires Sorted(sum) && sum != []
      requires if first then leafsList == [] && nodesList == [] else IsBuilt(h, sum, leafsList, nodesList, k)
      modifies this`sum, this`leafsList, this`nodesList
      ensures inRange <==> first ==> |sum| >= 3
      ensures SameEntries(old(sum), sum)
      ensures inRange && first ==>
                IsOnce(h, sum, leafsList, nodesList) && IsBuilt(h, sum, leafsList, nodesList, CeilLog2(|sum|))
      ensures !first ==> nodesList != [] && old(nodesList) != [] && LastNode() == old(LastNode())
      ensures !first ==> IsRecounted(h, sum, leafsList, nodesList, k)
    {
      ghost var entries, leaves, nodes := sum, leafsList, nodesList;
      CountLeaves();
      SortedSame(entries, sum);
      SmallPadding(|sum|);
      inRange := CountLayers(k);
      if inRange && first {
        FirstCount(h, sum, leafsList, nodesList);
      }
      if !first {
        FurtherCount(h, entries, sum, leaves, leafsList, nodes, nodesList, k);
      }
    }

    /** `count_tree`. On a fresh tree one or two entries make it read past the end of a layer, and from three on
        it builds exactly the layers of the padded leaves. On a tree counted before, it appends leaves and node
        lists, but the last node stays the root of the first count, whatever was set in between. */
    method CountTree() returns (status: CountStatus)
      requires Valid()
      modifies this
      ensures status ==
              if old(sum) == [] then Nothing else if old(Fresh()) && |old(sum)| <= 2 then OutOfRange else Counted
      ensures status.Nothing? ==> unchanged(this)
      ensures status.Counted? ==> Valid() && counted && SameEntries(old(sum), sum)
      ensures status.Counted? && old(Fresh()) ==> Once()
      ensures status.Counted? && !old(Fresh()) ==>
                Recounted() && nodesList != [] && old(nodesList) != [] && LastNode() == old(LastNode())
    {
      if |sum| == 0 {
        return Nothing;
      }
      ghost var first := leafsList == [] && nodesList == [];
      ghost var k: nat := 0;
      if !first { k :| Built(k); }
      var inRange := CountAll(first, k);
      if !inRange {
        return OutOfRange;
      }
      counted := true;
      assert first ==> Built(CeilLog2(|sum|));
      assert !first ==> Built(k);
      return Counted;
    }

    /** `count_tree` where it is called on a tree that was never counted. */
    method CountFresh() returns (status: CountStatus)
      requires Fresh() && Sorted(sum)
      modifies this
      ensures status == if old(sum) == [] then Nothing else if |old(sum)| <= 2 then OutOfRange else Counted
      ensures status.Nothing? ==> unchanged(this)
      ensures status.Counted? ==> Once() && SameEntries(old(sum), sum)
    {
      status := CountTree();
    }

    /** The pair of a layer that a position belongs to, the left or the right member by parity; both members must
        be there. */
    method PairOf(layer: seq<Digest>, position: nat) returns (inRange: bool, p: DigestPair)
      ensures inRange == (position / 2 * 2 + 1 < |layer|)
      ensures inRange && |layer| % 2 == 0 ==> p == Siblings(layer, position)
    {
      p := (0, 0);
      inRange := position / 2 * 2 + 1 < |layer|;
      if inRange {
        var left, right;
        if position % 2 == 1 {
          right, left := layer[position], layer[position - 1];
        } else {
          left, right := layer[position], layer[position + 1];
        }
        p := (left, right);
      }
    }

    /** `sum.find`. */
    method Find(account: string) returns (at: nat)
      requires Valid()
      ensures at <= |sum|
      ensures forall p :: 0 <= p < |sum| ==> (sum[p].key == account <==> p == at)
    {
      at := 0;
      while at < |sum| && sum[at].key != account
        invariant at <= |sum| && forall i :: 0 <= i < at ==> sum[i].key != account
      {
        at := at + 1;
      }
      LessIrreflexive(account);
    }

    ghost predicate HasKeyAt(account: string, p: int)
      reads this
    {
      0 <= p < |sum| && sum[p].key == account
    }

    /** `get_proof`: empty for an uncounted tree or an unknown key; on a tree counted once a proof of the key's
        entry; on a tree counted again every known key makes it read past the end of a layer. */
    method GetProof(account: string) returns (inRange: bool, result: seq<DigestPair>)
      requires Valid()
      ensures !counted || (forall p :: !HasKeyAt(account, p)) ==> inRange && result == []
      ensures Once() ==> forall p :: HasKeyAt(account, p) ==>
                inRange && Proves(h, sum, leafsList, nodesList, result, p)
      ensures counted && !Once() ==> forall p :: HasKeyAt(account, p) ==> !inRange
    {
      result := [];
      var at := Find(account);
      if !(counted && at < |sum|) {
        return true, [];
      }
      var position := sum[at].pos;
      ghost var once, leaves := Once(), Hashes(leafsList);
      ghost var k: nat := Depth();
      if once {
        StoredProof(h, sum, leafsList, at);
        ClimbStart(h, leaves, position, k);
      } else {
        assert Recounted();
        k :| IsRecounted(h, sum, leafsList, nodesList, k);
        StackedRoot(h, nodesList, k);
      }
      assert position <= |leafsList|;
      if position > |leafsList| {
        return true, [];
      }
      var first;
      inRange, first := PairOf(Hashes(leafsList), position);
      assert HasKeyAt(account, at);
      if !inRange {
        return;
      }
      inRange, result := Climb([first], position / 2, once, leaves, position, k);
      assert HasKeyAt(account, at);
    }

    /** The loop of `get_proof`: one sibling pair from every node list but the last. Behind the layers of a first
        count it meets the single node of the root, which has no sibling. */
    method Climb(start: seq<DigestPair>, from: nat, ghost once: bool, ghost leaves: seq<Digest>, ghost leaf: nat,
                 ghost k: nat)
        returns (inRange: bool, result: seq<DigestPair>)
      requires nodesList != []
      requires once ==> OnTheWay(h, nodesList, leaves, leaf, k, 0, from, start)
      requires !once ==> 1 <= k < |nodesList| && |nodesList[k - 1]| == 1
      ensures once ==> inRange && result == Path(h, leaves, leaf, k)
      ensures !once ==> !inRange
    {
      result := start;
      var position: nat := from;
      var r: nat := 0;
      while r < |nodesList| - 1
        invariant r < |nodesList| && (!once ==> r < k)
        invariant once ==> OnTheWay(h, nodesList, leaves, leaf, k, r, position, result)
      {
        if once { ClimbStep(h, nodesList, leaves, leaf, k, r, position, result); }
        var p;
        inRange, p := PairOf(nodesList[r], position);
        if !inRange {
          return;
        }
        result := result + [p];
        position := position / 2;
        r := r + 1;
      }
      inRange := true;
      if once { ClimbEnd(h, nodesList, leaves, leaf, k, position, result); }
    }
  }

  /** The pairs so far, followed by the path of a position of layer `r`, are the path of the leaf. */
  ghost predicate OnTheWay(h: Hasher, nodes: seq<seq<Digest>>, leaves: seq<Digest>, leaf: nat, k: nat,
                           r: nat, position: nat, soFar: seq<DigestPair>)
  {
    && 2 <= k == |nodes| && |leaves| == Exp2(k) && nodes == Layers(h, leaves)
    && r < k && position < |nodes[r]| == Exp2(k - 1 - r)
    && Path(h, leaves, leaf, k) == soFar + Path(h, nodes[r], position, k - 1 - r)
  }

  lemma ClimbStart(h: Hasher, leaves: seq<Digest>, leaf: nat, k: nat)
    requires k >= 2 && leaf < |leaves| == Exp2(k)
    ensures |leaves| % 2 == 0
    ensures OnTheWay(h, Layers(h, leaves), leaves, leaf, k, 0, leaf / 2, [Siblings(leaves, leaf)])
  {
    Exp2Small(k);
    PathUnfold(h, leaves, leaf, k);
    LayerAt(h, leaves, k, 0);
  }

  /** One step up from layer `r` to the next one. */
  lemma ClimbStep(h: Hasher, nodes: seq<seq<Digest>>, leaves: seq<Digest>, leaf: nat, k: nat,
                  r: nat, pos: nat, soFar: seq<DigestPair>)
    requires OnTheWay(h, nodes, leaves, leaf, k, r, pos, soFar) && r < k - 1
    ensures |nodes[r]| % 2 == 0 && pos / 2 * 2 + 1 < |nodes[r]|
    ensures OnTheWay(h, nodes, leaves, leaf, k, r + 1, pos / 2, soFar + [Siblings(nodes[r], pos)])
  {
    Exp2Small(k - 1 - r);
    LayerAt(h, leaves, k, r);
    PathStep(h, nodes[r], pos, k - 1 - r, soFar);
  }

  lemma ClimbEnd(h: Hasher, nodes: seq<seq<Digest>>, leaves: seq<Digest>, leaf: nat, k: nat,
                 pos: nat, soFar: seq<DigestPair>)
    requires k > 0 && OnTheWay(h, nodes, leaves, leaf, k, k - 1, pos, soFar)
    ensures soFar == Path(h, leaves, leaf, k)
  {
  }

  /** A node list and all layers over it. */
  function Stack(h: Hasher, b: seq<Digest>): seq<seq<Digest>>
  {
    [b] + Layers(h, b)
  }

  /** While node lists are appended to `base`: `i - 1` layers over the lowest list are there, and the lowest `i`
      lists are the list and those layers, whether they are the new ones or those of an earlier count. */
  ghost predicate Rising(h: Hasher, base: seq<seq<Digest>>, nodes: seq<seq<Digest>>, k: nat, i: nat)
  {
    && base != [] && 1 <= i <= k && |base[0]| == Exp2(k - 1)
    && (|base| > 1 ==> 2 <= k <= |base| && base[..k] == Stack(h, base[0]))
    && |Stack(h, base[0])| == k
    && nodes == base + Stack(h, base[0])[1..i]
  }

  lemma RisingStart(h: Hasher, base: seq<seq<Digest>>, k: nat)
    requires base != [] && k >= 1 && |base[0]| == Exp2(k - 1)
    requires |base| > 1 ==> 2 <= k <= |base| && base[..k] == Stack(h, base[0])
    ensures Rising(h, base, base, k, 1)
  {
    LayerShape(h, base[0], k - 1);
    assert Stack(h, base[0])[1..1] == [];
  }

  lemma RisingAt(h: Hasher, base: seq<seq<Digest>>, nodes: seq<seq<Digest>>, k: nat, i: nat, j: nat)
    requires Rising(h, base, nodes, k, i) && j < i
    ensures j < |nodes| && nodes[j] == Stack(h, base[0])[j]
  {
    var all := Stack(h, base[0]);
    if |base| > 1 {
      assert base[..k][j] == base[j];
    } else if j > 0 {
      assert nodes[j] == all[1..i][j - 1];
    }
  }

  lemma RisingSize(h: Hasher, base: seq<seq<Digest>>, nodes: seq<seq<Digest>>, k: nat, i: nat)
    requires Rising(h, base, nodes, k, i)
    ensures i - 1 < |nodes|
    ensures i < k ==> |nodes[i - 1]| % 2 == 0 && |nodes[i - 1]| > 1
    ensures i == k ==> |nodes[i - 1]| == 1
  {
    RisingAt(h, base, nodes, k, i, i - 1);
    StackSize(h, base[0], k, i - 1);
  }

  lemma RisingStep(h: Hasher, base: seq<seq<Digest>>, nodes: seq<seq<Digest>>, k: nat, i: nat)
    requires Rising(h, base, nodes, k, i) && i < k
    ensures i - 1 < |nodes| && Rising(h, base, nodes + [Pairs(h, nodes[i - 1])], k, i + 1)
  {
    RisingAt(h, base, nodes, k, i, i - 1);
    StackNext(h, base[0], k, i);
    var all := Stack(h, base[0]);
    assert all[1..i + 1] == all[1..i] + [all[i]];
    Associative(base, all[1..i], [all[i]]);
  }

  lemma RisingEnd(h: Hasher, base: seq<seq<Digest>>, nodes: seq<seq<Digest>>, k: nat)
    requires Rising(h, base, nodes, k, k)
    ensures nodes == base + Layers(h, base[0])
  {
    assert Stack(h, base[0])[1..k] == Layers(h, base[0]);
  }

  /** Sizes and contents of a stack over `2^(k-1)` nodes. */
  lemma StackSize(h: Hasher, b: seq<Digest>, k: nat, i: nat)
    requires i < k && |b| == Exp2(k - 1)
    ensures |Stack(h, b)| == k && |Stack(h, b)[i]| == Exp2(k - 1 - i)
    ensures i + 1 < k ==> |Stack(h, b)[i]| % 2 == 0 && |Stack(h, b)[i]| > 1
    ensures i + 1 == k ==> |Stack(h, b)[i]| == 1
  {
    LayerShape(h, b, k - 1);
    Exp2Small(k - 1 - i);
  }

  lemma StackNext(h: Hasher, b: seq<Digest>, k: nat, i: nat)
    requires 1 <= i < k && |b| == Exp2(k - 1)
    ensures |Stack(h, b)| == k && Stack(h, b)[i] == Pairs(h, Stack(h, b)[i - 1])
  {
    LayerAt(h, b, k - 1, i - 1);
    if i > 1 { LayerAt(h, b, k - 1, i - 2); }
  }

  lemma StackedRoot(h: Hasher, nodes: seq<seq<Digest>>, k: nat)
    requires Stacked(h, nodes, k)
    ensures |nodes[k - 1]| == 1
  {
    StackSize(h, nodes[0], k, k - 1);
    assert nodes[k - 1] == nodes[..k][k - 1];
  }

  lemma StackedRises(h: Hasher, nodes: seq<seq<Digest>>, layer: seq<Digest>, k: nat)
    requires Stacked(h, nodes, k)
    ensures Rising(h, nodes + [layer], nodes + [layer], k, 1)
  {
    assert (nodes + [layer])[..k] == nodes[..k];
    RisingStart(h, nodes + [layer], k);
  }

  /** A further count keeps the layers of the first one in front and its root at the end. */
  lemma StackedAgain(h: Hasher, nodes: seq<seq<Digest>>, layer: seq<Digest>, k: nat)
    requires Stacked(h, nodes, k)
    ensures var more := nodes + [layer] + Layers(h, nodes[0]);
            Stacked(h, more, k) && k < |more| && more[|more| - 1] == nodes[|nodes| - 1]
  {
    LayerShape(h, nodes[0], k - 1);
    var above := Layers(h, nodes[0]);
    var more := nodes + [layer] + above;
    assert more[..k] == nodes[..k];
    assert nodes[k - 1] == nodes[..k][k - 1] == above[k - 2];
    assert more[|more| - 1] == above[|above| - 1];
  }

  lemma FirstCount(h: Hasher, sum: seq<Entry>, leaves: seq<Leaf>, nodes: seq<seq<Digest>>)
    requires Sorted(sum) && |sum| >= 3 && Ranked(sum) && AreLeaves(h, sum, leaves)
    requires nodes == Layers(h, Hashes(leaves))
    ensures IsOnce(h, sum, leaves, nodes) && IsBuilt(h, sum, leaves, nodes, CeilLog2(|sum|))
  {
    SmallPadding(|sum|);
    OnceIsStacked(h, Hashes(leaves), CeilLog2(|sum|));
  }

  lemma FurtherCount(h: Hasher, before: seq<Entry>, sum: seq<Entry>, few: seq<Leaf>, leaves: seq<Leaf>,
                     known: seq<seq<Digest>>, nodes: seq<seq<Digest>>, k: nat)
    requires IsBuilt(h, before, few, known, k) && SameEntries(before, sum) && Sorted(sum) && Ranked(sum)
    requires AreAppended(h, few, sum, leaves)
    requires nodes == known + [Pairs(h, Hashes(leaves))] + Layers(h, known[0])
    ensures IsRecounted(h, sum, leaves, nodes, k) && nodes[|nodes| - 1] == known[|known| - 1]
  {
    StackedAgain(h, known, Pairs(h, Hashes(leaves)), k);
  }

  /** The layers of a first count are stacked. */
  lemma OnceIsStacked(h: Hasher, leaves: seq<Digest>, k: nat)
    requires |leaves| == Exp2(k) && k >= 2
    ensures Stacked(h, Layers(h, leaves), k)
  {
    LayerShape(h, leaves, k);
    var nodes := Layers(h, leaves);
    assert nodes[0] == Pairs(h, leaves) && nodes == [nodes[0]] + Layers(h, nodes[0]);
    assert nodes[..k] == nodes;
  }

  lemma PathStep(h: Hasher, s: seq<Digest>, pos: nat, k: nat, before: seq<DigestPair>)
    requires pos < |s| == Exp2(k) && k > 0
    ensures before + Path(h, s, pos, k) ==
            before + [Siblings(s, pos)] + Path(h, Pairs(h, s), pos / 2, k - 1)
  {
    PathUnfold(h, s, pos, k);
    Associative(before, [Siblings(s, pos)], Path(h, Pairs(h, s), pos / 2, k - 1));
  }

  lemma Exp2Small(k: nat)
    ensures k > 0 ==> Exp2(k) % 2 == 0 && Exp2(k) / 2 == Exp2(k - 1)
    ensures k == 0 ==> Exp2(k) == 1
    ensures k > 0 ==> Exp2(k) >= 2
  {
  }

  lemma SmallPadding(n: nat)
    ensures Exp2(CeilLog2(n)) >= 4 <==> n >= 3
  {
    if n >= 3 { Exp2Monotone(2, CeilLog2(n)); }
  }

  lemma SortedSame(s: seq<Entry>, t: seq<Entry>)
    requires Sorted(s) && SameEntries(s, t)
    ensures Sorted(t)
  {
  }

  /** The size of layer `r`, and the layer above it. */
  lemma {:induction false} LayerAt(h: Hasher, s: seq<Digest>, k: nat, r: nat)
    requires |s| == Exp2(k) && r < k
    ensures |Layers(h, s)| == k && |Layers(h, s)[r]| == Exp2(k - 1 - r)
    ensures r == 0 ==> Layers(h, s)[0] == Pairs(h, s)
    ensures r + 1 < k ==> Layers(h, s)[r + 1] == Pairs(h, Layers(h, s)[r])
    decreases r
  {
    var up := Pairs(h, s);
    LayerShape(h, s, k);
    if r > 0 {
      LayerAt(h, up, k - 1, r - 1);
      assert Layers(h, s)[r] == Layers(h, up)[r - 1];
    } else if k > 1 {
      LayerShape(h, up, k - 1);
      assert Layers(h, s)[1] == Layers(h, up)[0];
    }
  }

  /** `proof` has one pair per layer and a verifier accepts it, for entry `p`, against the last node. */
  ghost predicate Proves(h: Hasher, sum: seq<Entry>, leaves: seq<Leaf>, nodes: seq<seq<Digest>>,
                         proof: seq<DigestPair>, p: nat)
    requires p < |sum|
  {
    && |nodes| == |proof| == CeilLog2(|sum|) >= 2
    && |leaves| == Exp2(|proof|)
    && nodes[|nodes| - 1] == [Root(h, Hashes(leaves))]
    && Verifies(h, proof, p, h.text(LeafText(sum[p])), Root(h, Hashes(leaves)))
  }

  /** The stored path of every entry is a proof of it. */
  lemma StoredProof(h: Hasher, sum: seq<Entry>, leaves: seq<Leaf>, p: nat)
    requires p < |sum| && |sum| >= 3 && AreLeaves(h, sum, leaves)
    ensures CeilLog2(|sum|) >= 2 && p < |leaves|
    ensures Proves(h, sum, leaves, Layers(h, Hashes(leaves)), Path(h, Hashes(leaves), p, CeilLog2(|sum|)), p)
  {
    var hashes := Hashes(leaves);
    var k := CeilLog2(|sum|);
    LayerShape(h, hashes, k);
    PathUnfold(h, hashes, p, k);
    PathVerifies(h, hashes, p, k);
    assert leaves[p] == EntryLeaf(h, sum[p]);
  }

  /** The leaves of a first count, with their texts written out: the key of each entry followed by its value,
      and behind them the text "none" with the hash of the empty text. */
  lemma LeafIs(h: Hasher, sum: seq<Entry>, leaves: seq<Leaf>, i: nat)
    requires AreLeaves(h, sum, leaves) && i < |leaves|
    ensures i < |sum| ==> leaves[i].text == sum[i].key + sum[i].value
    ensures i < |sum| ==> leaves[i].hash == h.text(sum[i].key + sum[i].value)
    ensures i >= |sum| ==> leaves[i].text == "none" && leaves[i].hash == h.text("")
  {
  }

  lemma SameValue(key: string, v: string, w: string)
    requires key + v == key + w
    ensures v == w
  {
    assert v == (key + v)[|key|..] && w == (key + w)[|key|..];
  }

  ghost predicate SameKeys(a: seq<Entry>, b: seq<Entry>)
  {
    |a| == |b| && forall i :: 0 <= i < |a| ==> a[i].key == b[i].key
  }

  /** Value binding: trees with the same keys have equal roots if and only if they have equal values. */
  lemma RootFixesValues(h: Hasher, a: seq<Entry>, la: seq<Leaf>, b: seq<Entry>, lb: seq<Leaf>)
    requires InjectivePair(h) && InjectiveText(h)
    requires SameKeys(a, b) && AreLeaves(h, a, la) && AreLeaves(h, b, lb)
    ensures Root(h, Hashes(la)) == Root(h, Hashes(lb)) <==> forall i :: 0 <= i < |a| ==> a[i].value == b[i].value
  {
    if Root(h, Hashes(la)) == Root(h, Hashes(lb)) {
      RootBinding(h, Hashes(la), Hashes(lb), CeilLog2(|a|));
      forall i | 0 <= i < |a| ensures a[i].value == b[i].value {
        assert Hashes(la)[i] == Hashes(lb)[i];
        LeafIs(h, a, la, i);
        LeafIs(h, b, lb, i);
        assert NoTextCollision(h, a[i].key + a[i].value, b[i].key + b[i].value);
        SameValue(a[i].key, a[i].value, b[i].value);
      }
    }
    if forall i :: 0 <= i < |a| ==> a[i].value == b[i].value {
      forall i | 0 <= i < |la| ensures la[i] == lb[i] {
        LeafIs(h, a, la, i);
        LeafIs(h, b, lb, i);
      }
      assert la == lb;
    }
  }

  /** A proof of the right length proves, for the key of an entry, no value but the entry's. */
  lemma ProofFixesValue(h: Hasher, sum: seq<Entry>, leaves: seq<Leaf>, proof: seq<DigestPair>, p: nat, value: string)
    requires InjectivePair(h) && InjectiveText(h)
    requires p < |sum| && AreLeaves(h, sum, leaves) && |proof| == CeilLog2(|sum|)
    requires Verifies(h, proof, p, h.text(sum[p].key + value), Root(h, Hashes(leaves)))
    ensures value == sum[p].value
  {
    PathBinding(h, Hashes(leaves), proof, p, h.text(sum[p].key + value));
    LeafIs(h, sum, leaves, p);
    assert NoTextCollision(h, sum[p].key + value, sum[p].key + sum[p].value);
    SameValue(sum[p].key, value, sum[p].value);
  }

  /** Of several values set for a key the last one counts, and a key that is not set keeps what it had; `i` is the
      place of the last one. */
  lemma {:induction false} LastWriteCounts(s: seq<Entry>, accounts: seq<(string, string)>, k: string, i: int)
    requires -1 <= i < |accounts| && (i >= 0 ==> accounts[i].0 == k)
    requires forall j :: i < j < |accounts| ==> accounts[j].0 != k
    ensures i >= 0 ==> k in Contents(Writes(s, accounts)) && Contents(Writes(s, accounts))[k] == accounts[i].1
    ensures i < 0 ==> (k in Contents(Writes(s, accounts)) <==> k in Contents(s))
    ensures i < 0 && k in Contents(s) ==> Contents(Writes(s, accounts))[k] == Contents(s)[k]
    decreases |accounts|
  {
    if accounts != [] {
      PutContents(s, accounts[0].0, accounts[0].1);
      LastWriteCounts(Put(s, accounts[0].0, accounts[0].1), accounts[1..], k, if i < 0 then -1 else i - 1);
    }
  }
}
