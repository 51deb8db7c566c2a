/** The text form of a Merkle tree: `operator<<` writes `key;value` lines, `operator>>` reads
    tokens separated by ';' and by white space other than the blank. */
module MerkleDump {
  import opened KeyOrder
  import opened MerkleSpec
  import opened MerkleTree

  /** What the reader's character table classifies as space: ';' is added, the blank removed. */
  predicate IsSpace(c: char)
  {
    c == ';' || c == '\n' || c == '\t' || c == '\r' || c == '\U{0B}' || c == '\U{0C}'
  }

  /** A text that survives as one token. */
  predicate Clean(s: string)
  {
    s != "" && forall i :: 0 <= i < |s| ==> !IsSpace(s[i])
  }

  ghost predicate AllClean(s: seq<Entry>)
  {
    forall i :: 0 <= i < |s| ==> Clean(s[i].key) && Clean(s[i].value)
  }

  function Dump(s: seq<Entry>): string
  {
    if s == [] then "" else s[0].key + ([';'] + (s[0].value + (['\n'] + Dump(s[1..]))))
  }

  /** The number of leading spaces. */
  function SpaceLen(s: string): (n: nat)
    ensures n <= |s|
    ensures n < |s| ==> !IsSpace(s[n])
  {
    if s == [] || !IsSpace(s[0]) then 0 else 1 + SpaceLen(s[1..])
  }

  /** The length of the token at the front. */
  function WordLen(s: string): (n: nat)
    ensures n <= |s|
    ensures forall i :: 0 <= i < n ==> !IsSpace(s[i])
    ensures s != [] && !IsSpace(s[0]) ==> n > 0
  {
    if s == [] || IsSpace(s[0]) then 0 else 1 + WordLen(s[1..])
  }

  function Tokens(s: string): (r: seq<string>)
    decreases |s|
  {
    var t := s[SpaceLen(s)..];
    if t == [] then [] else [t[..WordLen(t)]] + Tokens(t[WordLen(t)..])
  }

  /** Tokens taken two by two; a last single one is dropped. */
  function PairUp(tokens: seq<string>): seq<(string, string)>
  {
    if |tokens| < 2 then [] else [(tokens[0], tokens[1])] + PairUp(tokens[2..])
  }

  /** The entries a fresh tree holds after reading `text`. */
  function Parse(text: string): seq<Entry>
  {
    Writes([], PairUp(Tokens(text)))
  }

  /** The place of the first token behind white space. */
  method SkipSpace(text: string) returns (start: nat)
    ensures start == SpaceLen(text)
  {
    start := 0;
    while start < |text| && IsSpace(text[start])
      invariant start <= |text| && SpaceLen(text) == start + SpaceLen(text[start..])
    {
      assert text[start..][1..] == text[start + 1..];
      start := start + 1;
    }
  }

  method SkipWord(text: string) returns (end: nat)
    ensures end == WordLen(text)
  {
    end := 0;
    while end < |text| && !IsSpace(text[end])
      invariant end <= |text| && WordLen(text) == end + WordLen(text[end..])
    {
      assert text[end..][1..] == text[end + 1..];
      end := end + 1;
    }
  }

  /** `in >> word`: on success the next token and the text behind it; on failure the word is left as it was. */
  method Extract(text: string, word: string) returns (read: string, rest: string, eof: bool)
    ensures Tokens(text) == [] ==> read == word && eof && rest == []
    ensures Tokens(text) != [] ==> read == Tokens(text)[0] && Tokens(rest) == Tokens(text)[1..] && |rest| < |text|
    ensures Tokens(text) != [] ==> read != ""
    ensures eof ==> rest == []
  {
    var start := SkipSpace(text);
    if start == |text| {
      return word, [], true;
    }
    var behind := text[start..];
    var end := SkipWord(behind);
    read, rest, eof := behind[..end], behind[end..], end == |behind|;
  }

  /** `operator<<`. */
  method Write(s: seq<Entry>) returns (out: string)
    ensures out == Dump(s)
  {
    out := "";
    for i := 0 to |s|
      invariant out + Dump(s[i..]) == Dump(s)
    {
      ghost var before := out;
      out := out + s[i].key + [';'] + s[i].value + ['\n'];
      assert s[i..][1..] == s[i + 1..];
      assert out + Dump(s[i + 1..]) == before + Dump(s[i..]);
    }
  }

  /** `operator>>`: reads pairs until one comes without a second member or the text ends. */
  method Read(text: string, sum: seq<Entry>) returns (r: seq<Entry>)
    ensures r == Writes(sum, PairUp(Tokens(text)))
  {
    r := sum;
    var rest, eof, first := text, false, "";
    ghost var goal := Writes(sum, PairUp(Tokens(text)));
    assert Tokens([]) == [];
    while !eof
      invariant Writes(r, PairUp(Tokens(rest))) == goal
      invariant eof ==> rest == []
      decreases |rest|, !eof
    {
      var second;
      ghost var tokens := Tokens(rest);
      first, rest, eof := Extract(rest, first);
      second, rest, eof := Extract(rest, "");
      if second == "" {
        assert |tokens| < 2 && r == goal;
        return;
      }
      assert tokens == [first] + ([second] + Tokens(rest));
      PairUpCons(first, second, Tokens(rest));
      r := Put(r, first, second);
    }
  }

  lemma {:induction false} TokensClean(s: string)
    ensures forall i :: 0 <= i < |Tokens(s)| ==> Clean(Tokens(s)[i])
    decreases |s|
  {
    var t := s[SpaceLen(s)..];
    if t != [] { TokensClean(t[WordLen(t)..]); }
  }

  lemma {:induction false} PairUpClean(tokens: seq<string>)
    requires forall i :: 0 <= i < |tokens| ==> Clean(tokens[i])
    ensures forall i :: 0 <= i < |PairUp(tokens)| ==> Clean(PairUp(tokens)[i].0) && Clean(PairUp(tokens)[i].1)
  {
    if |tokens| >= 2 { PairUpClean(tokens[2..]); }
  }

  ghost predicate CleanMap(s: seq<Entry>)
  {
    forall k :: k in Contents(s) ==> Clean(k) && Clean(Contents(s)[k])
  }

  /** Whatever the text, only clean keys and values are ever read. */
  lemma {:induction false} WritesClean(s: seq<Entry>, accounts: seq<(string, string)>)
    requires CleanMap(s)
    requires forall i :: 0 <= i < |accounts| ==> Clean(accounts[i].0) && Clean(accounts[i].1)
    ensures CleanMap(Writes(s, accounts))
    decreases |accounts|
  {
    if accounts != [] {
      PutContents(s, accounts[0].0, accounts[0].1);
      WritesClean(Put(s, accounts[0].0, accounts[0].1), accounts[1..]);
    }
  }

  lemma {:induction false} WordLenOf(w: string, c: char, rest: string)
    requires (forall i :: 0 <= i < |w| ==> !IsSpace(w[i])) && IsSpace(c)
    ensures WordLen(w + ([c] + rest)) == |w|
  {
    if w != "" {
      assert (w + ([c] + rest))[1..] == w[1..] + ([c] + rest);
      WordLenOf(w[1..], c, rest);
    }
  }

  /** A clean word followed by a separator is one token. */
  lemma TokenFirst(w: string, c: char, rest: string)
    requires Clean(w) && IsSpace(c)
    ensures Tokens(w + ([c] + rest)) == [w] + Tokens(rest)
  {
    var s := w + ([c] + rest);
    assert s[0] == w[0] && s[SpaceLen(s)..] == s;
    WordLenOf(w, c, rest);
    assert s[..|w|] == w && s[|w|..] == [c] + rest;
    SkipOne(c, rest);
  }

  lemma SkipOne(c: char, rest: string)
    requires IsSpace(c)
    ensures Tokens([c] + rest) == Tokens(rest)
  {
    var s := [c] + rest;
    assert s[1..] == rest;
    assert s[SpaceLen(s)..] == rest[SpaceLen(rest)..];
  }

  lemma TwoTokens(k: string, v: string, rest: string)
    requires Clean(k) && Clean(v)
    ensures Tokens(k + ([';'] + (v + (['\n'] + rest)))) == [k] + ([v] + Tokens(rest))
  {
    TokenFirst(k, ';', v + (['\n'] + rest));
    TokenFirst(v, '\n', rest);
  }

  lemma PairUpCons(k: string, v: string, tokens: seq<string>)
    ensures PairUp([k] + ([v] + tokens)) == [(k, v)] + PairUp(tokens)
  {
    assert ([k] + ([v] + tokens))[2..] == tokens;
  }

  function PairsOf(s: seq<Entry>): seq<(string, string)>
  {
    if s == [] then [] else [(s[0].key, s[0].value)] + PairsOf(s[1..])
  }

  lemma {:induction false} DumpPairs(s: seq<Entry>)
    requires AllClean(s)
    ensures PairUp(Tokens(Dump(s))) == PairsOf(s)
  {
    if s != [] {
      DumpPairs(s[1..]);
      var rest := Dump(s[1..]);
      TwoTokens(s[0].key, s[0].value, rest);
      PairUpCons(s[0].key, s[0].value, Tokens(rest));
    }
  }

  /** Writing sorted entries in order appends each of them. */
  lemma {:induction false} WritesAppend(done: seq<Entry>, s: seq<Entry>)
    requires Sorted(done + s)
    ensures SameEntries(Writes(done, PairsOf(s)), done + s)
    decreases |s|
  {
    if s != [] {
      var e := Entry(s[0].key, s[0].value, 0);
      var rest := s[1..];
      forall i | 0 <= i < |done| ensures Less(done[i].key, e.key) {
        assert done[i] == (done + s)[i] && s[0] == (done + s)[|done|];
      }
      PutLast(done, e.key, e.value);
      SortedSame(done + s, done + [e] + rest);
      WritesAppend(done + [e], rest);
    }
  }

  /** Reading back a dump gives the same entries when every key and value is clean. */
  lemma RoundTrip(s: seq<Entry>)
    requires Sorted(s) && AllClean(s)
    ensures SameEntries(Parse(Dump(s)), s)
  {
    DumpPairs(s);
    assert [] + s == s;
    WritesAppend([], s);
  }

  /** The dump of a map reads back as the same map if and only if every key and value is clean. */
  lemma RoundTripExactly(s: seq<Entry>)
    requires Sorted(s)
    ensures Contents(Parse(Dump(s))) == Contents(s) <==> AllClean(s)
  {
    var r := Parse(Dump(s));
    if AllClean(s) {
      RoundTrip(s);
      SameContents(r, s);
    }
    if Contents(r) == Contents(s) {
      TokensClean(Dump(s));
      PairUpClean(Tokens(Dump(s)));
      WritesClean([], PairUp(Tokens(Dump(s))));
      ContentsKeys(s);
    }
  }

  lemma {:induction false} SameContents(s: seq<Entry>, t: seq<Entry>)
    requires SameEntries(s, t)
    ensures Contents(s) == Contents(t)
  {
    if s != [] { SameContents(s[1..], t[1..]); }
  }

  /** Dumping a counted tree, reading the dump into a fresh tree and counting that one gives the
      same leaves and layers, and so the same root and the same proofs. */
  method Reload(tree: Tree) returns (copy: Tree)
    requires tree.Once() && AllClean(tree.sum)
    ensures copy.Once() && SameEntries(copy.sum, tree.sum)
    ensures copy.leafsList == tree.leafsList && copy.nodesList == tree.nodesList
  {
    var text := Write(tree.sum);
    copy := new Tree(tree.h);
    copy.sum := Read(text, copy.sum);
    RoundTrip(tree.sum);
    SortedSame(tree.sum, copy.sum);
    var status := copy.CountFresh();
    SameLeaves(tree.h, copy.sum, copy.leafsList, tree.sum, tree.leafsList);
  }

  lemma SameLeaves(h: Hasher, a: seq<Entry>, la: seq<Leaf>, b: seq<Entry>, lb: seq<Leaf>)
    requires SameEntries(a, b) && AreLeaves(h, a, la) && AreLeaves(h, b, lb)
    ensures la == lb
  {
    forall i | 0 <= i < |la| ensures la[i] == lb[i] {
      if i < |a| {
        assert la[i] == EntryLeaf(h, a[i]) && lb[i] == EntryLeaf(h, b[i]);
      }
    }
  }

  /** The dump, with its separators written out, is one line per entry. */
  lemma DumpIsLines(e: Entry, s: seq<Entry>)
    ensures Dump([e] + s) == e.key + ";" + e.value + "\n" + Dump(s)
  {
    assert ([e] + s)[1..] == s;
  }

  /** A text survives when it is not empty and holds none of six characters; a blank does no harm. */
  lemma CleanIs(s: string)
    ensures Clean(s) <==> s != "" && ';' !in s && '\n' !in s && '\t' !in s && '\r' !in s
                          && '\U{0B}' !in s && '\U{0C}' !in s
  {
  }
}
