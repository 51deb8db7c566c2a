/** What a Merkle tree over a power-of-two sequence of leaf hashes is: its layers, its root, the
    path of sibling pairs of a position, and an independent check of such a path. */
module MerkleSpec {
  import opened PowerOfTwo

  /** A 256-bit digest as a number. */
  type Digest = nat

  type DigestPair = (Digest, Digest)

  /** The hash in its two uses: of a leaf text, and of two digests laid side by side. */
  datatype Hasher = Hasher(text: string -> Digest, pair: (Digest, Digest) -> Digest)

  ghost predicate NoPairCollision(h: Hasher, p: DigestPair, q: DigestPair)
  {
    h.pair(p.0, p.1) == h.pair(q.0, q.1) ==> p == q
  }

  ghost predicate InjectivePair(h: Hasher)
  {
    forall p, q :: NoPairCollision(h, p, q)
  }

  ghost predicate NoTextCollision(h: Hasher, s: string, t: string)
  {
    h.text(s) == h.text(t) ==> s == t
  }

  ghost predicate InjectiveText(h: Hasher)
  {
    forall s, t :: NoTextCollision(h, s, t)
  }

  ghost predicate NoMixedCollision(h: Hasher, s: string, p: DigestPair)
  {
    h.text(s) != h.pair(p.0, p.1)
  }

  /** No leaf text hashes to the hash of a pair. */
  ghost predicate Separated(h: Hasher)
  {
    forall s, p :: NoMixedCollision(h, s, p)
  }

  function PairsUpTo(h: Hasher, s: seq<Digest>, n: nat): (r: seq<Digest>)
    requires 2 * n <= |s|
    ensures |r| == n
  {
    if n == 0 then [] else PairsUpTo(h, s, n - 1) + [h.pair(s[2 * n - 2], s[2 * n - 1])]
  }

  /** The layer above `s`. */
  function Pairs(h: Hasher, s: seq<Digest>): (r: seq<Digest>)
    ensures |r| == |s| / 2
  {
    PairsUpTo(h, s, |s| / 2)
  }

  lemma {:induction false} PairsAt(h: Hasher, s: seq<Digest>, n: nat, j: nat)
    requires j < n && 2 * n <= |s|
    ensures PairsUpTo(h, s, n)[j] == h.pair(s[2 * j], s[2 * j + 1])
  {
    if j < n - 1 { PairsAt(h, s, n - 1, j); }
  }

  /** The pair of `s` that position `pos` belongs to. */
  function Siblings(s: seq<Digest>, pos: nat): DigestPair
    requires pos < |s| && |s| % 2 == 0
  {
    (s[pos / 2 * 2], s[pos / 2 * 2 + 1])
  }

  /** All layers above `s`, the lowest first. */
  function Layers(h: Hasher, s: seq<Digest>): seq<seq<Digest>>
    decreases |s|
  {
    if |s| <= 1 then [] else [Pairs(h, s)] + Layers(h, Pairs(h, s))
  }

  function Root(h: Hasher, s: seq<Digest>): Digest
    requires |s| > 0
    decreases |s|
  {
    if |s| == 1 then s[0] else Root(h, Pairs(h, s))
  }

  /** The sibling pairs met on the way from position `pos` of the `2^k` leaves `s` up to the root. */
  function Path(h: Hasher, s: seq<Digest>, pos: nat, k: nat): seq<DigestPair>
    decreases k
  {
    if k == 0 || pos >= |s| || |s| % 2 == 1 then []
    else [Siblings(s, pos)] + Path(h, Pairs(h, s), pos / 2, k - 1)
  }

  /** One step of a path, and its length. */
  lemma {:induction false} PathUnfold(h: Hasher, s: seq<Digest>, pos: nat, k: nat)
    requires pos < |s| == Exp2(k)
    ensures |Path(h, s, pos, k)| == k
    ensures k > 0 ==> |s| % 2 == 0 && pos / 2 < |Pairs(h, s)| == Exp2(k - 1)
    ensures k > 0 ==> Path(h, s, pos, k) == [Siblings(s, pos)] + Path(h, Pairs(h, s), pos / 2, k - 1)
    decreases k
  {
    if k > 0 { PathUnfold(h, Pairs(h, s), pos / 2, k - 1); }
  }

  /** The member of a pair that a position bit selects. */
  function Side(p: DigestPair, pos: nat): Digest
  {
    if pos % 2 == 1 then p.1 else p.0
  }

  /** A verifier's check, which knows neither tree nor layers: `d` is the member of the first pair
      on the side of the position bit, the hash of each pair is found likewise in the next, and the
      last pair hashes to the root. */
  predicate Verifies(h: Hasher, path: seq<DigestPair>, pos: nat, d: Digest, root: Digest)
    decreases |path|
  {
    if path == [] then pos == 0 && d == root
    else Side(path[0], pos) == d && Verifies(h, path[1..], pos / 2, h.pair(path[0].0, path[0].1), root)
  }

  lemma SiblingsAt(h: Hasher, s: seq<Digest>, pos: nat)
    requires pos < |s| && |s| % 2 == 0
    ensures Side(Siblings(s, pos), pos) == s[pos]
    ensures Pairs(h, s)[pos / 2] == h.pair(Siblings(s, pos).0, Siblings(s, pos).1)
  {
    PairsAt(h, s, |s| / 2, pos / 2);
    assert pos == pos / 2 * 2 || pos == pos / 2 * 2 + 1;
  }

  /** Completeness: the path of every position is accepted. */
  lemma {:induction false} PathVerifies(h: Hasher, s: seq<Digest>, pos: nat, k: nat)
    requires pos < |s| == Exp2(k)
    ensures Verifies(h, Path(h, s, pos, k), pos, s[pos], Root(h, s))
    decreases k
  {
    if k > 0 {
      var up := Pairs(h, s);
      PathUnfold(h, s, pos, k);
      PathVerifies(h, up, pos / 2, k - 1);
      SiblingsAt(h, s, pos);
      assert Path(h, s, pos, k)[1..] == Path(h, up, pos / 2, k - 1);
    }
  }

  /** Layer `r` has exactly `2^(k-1-r)` nodes and the single node of the last one is the root. */
  lemma {:induction false} LayerShape(h: Hasher, s: seq<Digest>, k: nat)
    requires |s| == Exp2(k)
    ensures |Layers(h, s)| == k
    ensures forall r :: 0 <= r < k ==> |Layers(h, s)[r]| == Exp2(k - 1 - r)
    ensures k > 0 ==> Layers(h, s)[k - 1] == [Root(h, s)]
    decreases k
  {
    if k > 0 {
      var up := Pairs(h, s);
      LayerShape(h, up, k - 1);
      var above := Layers(h, up);
      assert Layers(h, s) == [up] + above;
      if k == 1 { assert up == [up[0]]; }
    }
  }

  lemma SiblingsBinding(h: Hasher, s: seq<Digest>, p: DigestPair, pos: nat)
    requires InjectivePair(h) && pos < |s| && |s| % 2 == 0
    requires h.pair(p.0, p.1) == Pairs(h, s)[pos / 2]
    ensures p == Siblings(s, pos) && Side(p, pos) == s[pos]
  {
    SiblingsAt(h, s, pos);
    assert NoPairCollision(h, p, Siblings(s, pos));
  }

  /** Binding of a path: a chain of the right length that verifies is the stored one, and proves
      exactly the stored leaf. */
  lemma {:induction false} PathBinding(h: Hasher, s: seq<Digest>, path: seq<DigestPair>, pos: nat, d: Digest)
    requires InjectivePair(h)
    requires pos < |s| == Exp2(|path|)
    requires Verifies(h, path, pos, d, Root(h, s))
    ensures path == Path(h, s, pos, |path|) && d == s[pos]
    decreases |path|
  {
    if path != [] {
      var up := Pairs(h, s);
      PathUnfold(h, s, pos, |path|);
      PathBinding(h, up, path[1..], pos / 2, h.pair(path[0].0, path[0].1));
      SiblingsBinding(h, s, path[0], pos);
      assert path == [path[0]] + path[1..];
    }
  }

  lemma PairsInjective(h: Hasher, s: seq<Digest>, t: seq<Digest>)
    requires InjectivePair(h) && |s| == |t| && |s| % 2 == 0
    requires Pairs(h, s) == Pairs(h, t)
    ensures s == t
  {
    forall i | 0 <= i < |s| ensures s[i] == t[i] {
      SiblingsAt(h, t, i);
      SiblingsBinding(h, s, Siblings(t, i), i);
    }
  }

  /** Binding of the root: trees of equal depth with equal roots have the same leaves. */
  lemma {:induction false} RootBinding(h: Hasher, s: seq<Digest>, t: seq<Digest>, k: nat)
    requires InjectivePair(h)
    requires |s| == |t| == Exp2(k)
    requires Root(h, s) == Root(h, t)
    ensures s == t
    decreases k
  {
    if k > 0 {
      RootBinding(h, Pairs(h, s), Pairs(h, t), k - 1);
      PairsInjective(h, s, t);
    }
  }

  /** The layer with `2^j` nodes is itself a sequence of leaves with the same root. */
  lemma {:induction false} LayerRoot(h: Hasher, s: seq<Digest>, j: nat, k: nat)
    requires |s| == Exp2(k) && j < k
    ensures |Layers(h, s)| == k && |Layers(h, s)[k - 1 - j]| == Exp2(j)
    ensures Root(h, Layers(h, s)[k - 1 - j]) == Root(h, s)
    decreases k
  {
    LayerShape(h, s, k);
    if j < k - 1 {
      LayerRoot(h, Pairs(h, s), j, k - 1);
      assert Layers(h, s)[k - 1 - j] == Layers(h, Pairs(h, s))[k - 2 - j];
    }
  }

  /** A shallower tree has the root of a deeper one if and only if its leaves are the layer of the deeper
      one at its depth: the root alone does not fix the depth. */
  lemma RootsMeetExactly(h: Hasher, s: seq<Digest>, t: seq<Digest>, j: nat, k: nat)
    requires InjectivePair(h)
    requires |s| == Exp2(j) && |t| == Exp2(k) && j < k
    ensures |Layers(h, t)| == k
    ensures Root(h, s) == Root(h, t) <==> s == Layers(h, t)[k - 1 - j]
  {
    LayerRoot(h, t, j, k);
    var layer := Layers(h, t)[k - 1 - j];
    if Root(h, s) == Root(h, layer) { RootBinding(h, s, layer, j); }
  }

  /** Every member of a layer is the hash of a pair. */
  lemma {:induction false} LayerIsHashed(h: Hasher, s: seq<Digest>, k: nat, r: nat) returns (p: DigestPair)
    requires |s| == Exp2(k) && r < k
    ensures |Layers(h, s)| == k && |Layers(h, s)[r]| > 0 && Layers(h, s)[r][0] == h.pair(p.0, p.1)
    decreases k
  {
    LayerShape(h, s, k);
    if r > 0 {
      p := LayerIsHashed(h, Pairs(h, s), k - 1, r - 1);
      assert Layers(h, s)[r] == Layers(h, Pairs(h, s))[r - 1];
    } else {
      p := (s[0], s[1]);
      PairsAt(h, s, |s| / 2, 0);
    }
  }

  /** With texts and pairs kept apart, a deeper tree cannot have the root of a shallower one whose
      leaves are hashes of texts. */
  lemma DepthBinding(h: Hasher, s: seq<Digest>, t: seq<Digest>, j: nat, k: nat, x: string)
    requires InjectivePair(h) && Separated(h)
    requires |s| == Exp2(j) && |t| == Exp2(k) && j < k
    requires s[0] == h.text(x)
    ensures Root(h, s) != Root(h, t)
  {
    RootsMeetExactly(h, s, t, j, k);
    var p := LayerIsHashed(h, t, k, k - 1 - j);
    assert NoMixedCollision(h, x, p);
  }

  /** When two trees have equal roots: at equal depth, when the leaf hashes are equal; otherwise when the
      leaves of the shallower one are a layer of the deeper one. */
  ghost predicate SameRoots(h: Hasher, s: seq<Digest>, t: seq<Digest>, j: nat, k: nat)
  {
    if j == k then s == t
    else if j < k then |Layers(h, t)| == k && s == Layers(h, t)[k - 1 - j]
    else |Layers(h, s)| == j && t == Layers(h, s)[j - 1 - k]
  }

  lemma EqualRootsExactly(h: Hasher, s: seq<Digest>, t: seq<Digest>, j: nat, k: nat)
    requires InjectivePair(h) && |s| == Exp2(j) && |t| == Exp2(k)
    ensures Root(h, s) == Root(h, t) <==> SameRoots(h, s, t, j, k)
  {
    if j < k {
      RootsMeetExactly(h, s, t, j, k);
    } else if k < j {
      RootsMeetExactly(h, t, s, k, j);
    } else if Root(h, s) == Root(h, t) {
      RootBinding(h, s, t, k);
    }
  }

  /** So with texts and pairs kept apart, trees over hashes of texts have equal roots only with equal leaves. */
  lemma EqualRootsEqualLeaves(h: Hasher, s: seq<Digest>, t: seq<Digest>, j: nat, k: nat, x: string, y: string)
    requires InjectivePair(h)
    requires |s| == Exp2(j) && |t| == Exp2(k) && s[0] == h.text(x) && t[0] == h.text(y)
    requires |s| == |t| || Separated(h)
    ensures Root(h, s) == Root(h, t) <==> s == t
  {
    EqualRootsExactly(h, s, t, j, k);
    if j < k {
      Exp2Strict(j, k);
      DepthBinding(h, s, t, j, k, x);
    } else if k < j {
      Exp2Strict(k, j);
      DepthBinding(h, t, s, k, j, y);
    }
  }
}
