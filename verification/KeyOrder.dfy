/** The key order of `std::map<std::string, V>`, and such a map kept as the sequence of its
    entries in that order: iterating the map is reading the sequence from left to right. */
module KeyOrder {

  /** A map entry of the Merkle tree: the key, its value and the recorded leaf position. */
  datatype Entry = Entry(key: string, value: string, pos: nat)

  /** Byte-wise lexicographic order of strings. */
  predicate Less(a: string, b: string)
  {
    if b == [] then false
    else if a == [] then true
    else if a[0] != b[0] then a[0] < b[0]
    else Less(a[1..], b[1..])
  }

  lemma LessIrreflexive(a: string)
    ensures !Less(a, a)
  {
    if a != [] { LessIrreflexive(a[1..]); }
  }

  lemma LessTransitive(a: string, b: string, c: string)
    requires Less(a, b) && Less(b, c)
    ensures Less(a, c)
  {
    if a != [] && a[0] == b[0] && b[0] == c[0] { LessTransitive(a[1..], b[1..], c[1..]); }
  }

  lemma LessTotal(a: string, b: string)
    ensures a == b || Less(a, b) || Less(b, a)
  {
    if a == [] || b == [] {
    } else if a[0] == b[0] {
      LessTotal(a[1..], b[1..]);
      assert a == [a[0]] + a[1..] && b == [b[0]] + b[1..];
    }
  }

  ghost predicate Sorted(s: seq<Entry>)
  {
    forall i, j :: 0 <= i < j < |s| ==> Less(s[i].key, s[j].key)
  }

  /** `sum[k].first = v`: a new key gets a fresh entry at its place, an old one keeps its position field. */
  function Put(s: seq<Entry>, k: string, v: string): seq<Entry>
  {
    if s == [] then [Entry(k, v, 0)]
    else if s[0].key == k then [s[0].(value := v)] + s[1..]
    else if Less(k, s[0].key) then [Entry(k, v, 0)] + s
    else [s[0]] + Put(s[1..], k, v)
  }

  /** The map a sequence of entries stands for. */
  function Contents(s: seq<Entry>): map<string, string>
  {
    if s == [] then map[] else Contents(s[1..])[s[0].key := s[0].value]
  }

  lemma {:induction false} ContentsKeys(s: seq<Entry>)
    requires Sorted(s)
    ensures forall i :: 0 <= i < |s| ==> s[i].key in Contents(s) && Contents(s)[s[i].key] == s[i].value
    ensures forall k :: k in Contents(s) ==> exists i :: 0 <= i < |s| && s[i].key == k
  {
    if s != [] {
      ContentsKeys(s[1..]);
      forall i | 0 <= i < |s| ensures s[i].key in Contents(s) && Contents(s)[s[i].key] == s[i].value {
        if i > 0 {
          assert s[i] == s[1..][i - 1];
          LessIrreflexive(s[0].key);
        }
      }
      forall k | k in Contents(s) ensures exists i :: 0 <= i < |s| && s[i].key == k {
        if k != s[0].key {
          var i :| 0 <= i < |s[1..]| && s[1..][i].key == k;
          assert s[i + 1].key == k;
        }
      }
    }
  }

  /** A write brings no key but its own. */
  lemma {:induction false} PutKeys(s: seq<Entry>, k: string, v: string, i: nat)
    requires i < |Put(s, k, v)|
    ensures Put(s, k, v)[i].key == k || exists j :: 0 <= j < |s| && Put(s, k, v)[i].key == s[j].key
  {
    if s == [] || s[0].key == k || Less(k, s[0].key) {
      if s != [] && s[0].key != k && i > 0 { assert Put(s, k, v)[i] == s[i - 1]; }
    } else if i == 0 {
      assert Put(s, k, v)[0].key == s[0].key;
    } else {
      PutKeys(s[1..], k, v, i - 1);
      if Put(s, k, v)[i].key != k {
        var j :| 0 <= j < |s| - 1 && Put(s[1..], k, v)[i - 1].key == s[1..][j].key;
        assert Put(s, k, v)[i].key == s[j + 1].key;
      }
    }
  }

  lemma {:induction false} PutSorted(s: seq<Entry>, k: string, v: string)
    requires Sorted(s)
    ensures Sorted(Put(s, k, v))
  {
    if s == [] || s[0].key == k {
    } else if Less(k, s[0].key) {
      forall i | 0 <= i < |s| ensures Less(k, s[i].key) {
        if i > 0 { LessTransitive(k, s[0].key, s[i].key); }
      }
    } else {
      LessTotal(k, s[0].key);
      var p := Put(s[1..], k, v);
      PutSorted(s[1..], k, v);
      forall i | 0 <= i < |p| ensures Less(s[0].key, p[i].key) { PutKeys(s[1..], k, v, i); }
    }
  }

  lemma {:induction false} PutSize(s: seq<Entry>, k: string, v: string)
    ensures |s| <= |Put(s, k, v)| <= |s| + 1
  {
    if s != [] { PutSize(s[1..], k, v); }
  }

  /** Writing a key into a sorted map is the map update, wherever the key falls. */
  lemma {:induction false} PutContents(s: seq<Entry>, k: string, v: string)
    ensures Contents(Put(s, k, v)) == Contents(s)[k := v]
  {
    if s == [] || s[0].key == k || Less(k, s[0].key) {
      assert [Entry(k, v, 0)][1..] == [];
      if s != [] { assert ([Entry(k, v, 0)] + s)[1..] == s; }
    } else {
      PutContents(s[1..], k, v);
    }
  }

  ghost predicate HasKey(s: seq<Entry>, k: string)
  {
    exists i :: 0 <= i < |s| && s[i].key == k
  }

  lemma HeadIsLeast(s: seq<Entry>, t: seq<Entry>)
    requires Sorted(s) && Sorted(t) && s != [] && t != []
    requires HasKey(s, t[0].key) && HasKey(t, s[0].key)
    ensures s[0].key == t[0].key
  {
    var i :| 0 <= i < |s| && s[i].key == t[0].key;
    var j :| 0 <= j < |t| && t[j].key == s[0].key;
    if s[0].key != t[0].key {
      LessTransitive(s[0].key, t[0].key, s[0].key);
      LessIrreflexive(s[0].key);
    }
  }

  lemma TailKeys(s: seq<Entry>, k: string)
    requires Sorted(s) && s != []
    ensures HasKey(s[1..], k) <==> HasKey(s, k) && k != s[0].key
  {
    if HasKey(s[1..], k) {
      var i :| 0 <= i < |s| - 1 && s[1..][i].key == k;
      assert s[i + 1].key == k;
      LessIrreflexive(k);
    }
    if HasKey(s, k) && k != s[0].key {
      var i :| 0 <= i < |s| && s[i].key == k;
      assert s[1..][i - 1].key == k;
    }
  }

  /** There is only one order for a set of keys. */
  lemma {:induction false} SortedUnique(s: seq<Entry>, t: seq<Entry>)
    requires Sorted(s) && Sorted(t) && forall k :: HasKey(s, k) <==> HasKey(t, k)
    ensures |s| == |t| && forall i :: 0 <= i < |s| ==> s[i].key == t[i].key
  {
    if s == [] {
      if t != [] { assert HasKey(t, t[0].key); }
    } else {
      assert HasKey(s, s[0].key);
      assert t != [] && HasKey(t, t[0].key);
      HeadIsLeast(s, t);
      forall k ensures HasKey(s[1..], k) <==> HasKey(t[1..], k) {
        TailKeys(s, k);
        TailKeys(t, k);
      }
      SortedUnique(s[1..], t[1..]);
      forall i | 0 <= i < |s| ensures s[i].key == t[i].key {
        if i > 0 { assert s[1..][i - 1].key == t[1..][i - 1].key; }
      }
    }
  }

  /** A key above all others is appended at the end. */
  lemma {:induction false} PutLast(s: seq<Entry>, k: string, v: string)
    requires forall i :: 0 <= i < |s| ==> Less(s[i].key, k)
    ensures Put(s, k, v) == s + [Entry(k, v, 0)]
  {
    if s != [] {
      LessIrreflexive(k);
      if Less(k, s[0].key) { LessTransitive(k, s[0].key, k); }
      PutLast(s[1..], k, v);
    }
  }

  /** A text is below another one at the first byte that differs, or when it is a proper prefix. */
  ghost predicate BelowAt(a: string, b: string, k: int)
  {
    0 <= k <= |a| && k < |b| && a[..k] == b[..k] && (k == |a| || a[k] < b[k])
  }

  lemma {:induction false} LessIs(a: string, b: string)
    ensures Less(a, b) <==> exists k :: BelowAt(a, b, k)
  {
    if a != [] && b != [] && a[0] == b[0] {
      LessIs(a[1..], b[1..]);
      if k :| BelowAt(a[1..], b[1..], k) {
        assert a[..k + 1] == [a[0]] + a[1..][..k] && b[..k + 1] == [b[0]] + b[1..][..k];
        assert BelowAt(a, b, k + 1);
      }
      if k :| BelowAt(a, b, k) {
        assert k > 0;
        assert a[1..][..k - 1] == a[..k][1..] && b[1..][..k - 1] == b[..k][1..];
        assert BelowAt(a[1..], b[1..], k - 1);
      }
    } else if b != [] && (a == [] || a[0] < b[0]) {
      assert BelowAt(a, b, 0);
    } else if k :| BelowAt(a, b, k) {
      BelowHead(a, b, k);
    }
  }

  lemma BelowHead(a: string, b: string, k: int)
    requires BelowAt(a, b, k)
    ensures k > 0 ==> a != [] && b != [] && a[0] == b[0]
  {
    if k > 0 { assert a[..k][0] == b[..k][0]; }
  }
}
