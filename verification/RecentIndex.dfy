/** The indexes over the social relations: who owns a content, and for each owner and actor the most
    recent vote of the actor on a content of the owner. They are built in one pass over the relations
    that the history processor emitted. */
module RecentIndex {
  import opened Basics
  import opened HistorySpec
  import opened HistoryInvariants

  type Index = map<string, map<string, Relation>>

  function Get(m: Index, x: string, y: string): Option<Relation>
  {
    if x in m && y in m[x] then Some(m[x][y]) else None
  }

  function Put(m: Index, x: string, y: string, r: Relation): Index
  {
    m[x := (if x in m then m[x] else map[])[y := r]]
  }

  /** The ownership relation of each content, the last one winning. */
  function Owners(s: seq<Relation>): map<string, Relation>
  {
    if s == [] then map[]
    else
      var last := s[|s| - 1];
      if last.kind == Ownership then Owners(s[..|s| - 1])[last.target := last] else Owners(s[..|s| - 1])
  }

  predicate VoteOn(r: Relation, owners: map<string, Relation>, owner: string, actor: string)
  {
    IsVote(r) && r.source == actor && r.target in owners && owners[r.target].source == owner
  }

  /** The earlier of two votes stays unless the later one is strictly more recent. */
  function MoreRecent(known: Option<Relation>, r: Relation): Option<Relation>
  {
    if known.None? || r.height < known.value.height then Some(r) else known
  }

  /** What one pass finds: each vote is judged by the ownerships seen before it. */
  function Online(s: seq<Relation>, owner: string, actor: string): Option<Relation>
  {
    if s == [] then None
    else
      var front, last := s[..|s| - 1], s[|s| - 1];
      if VoteOn(last, Owners(front), owner, actor) then MoreRecent(Online(front, owner, actor), last)
      else Online(front, owner, actor)
  }

  ghost predicate Finds(byOwner: Index, s: seq<Relation>)
  {
    forall o, a :: Get(byOwner, o, a) == Online(s, o, a)
  }

  ghost predicate FindsByActor(byActor: Index, s: seq<Relation>)
  {
    forall a, o :: Get(byActor, a, o) == Online(s, o, a)
  }

  /** One more relation that is a vote more recent than the known one. */
  lemma FindsPut(byOwner: Index, byActor: Index, s: seq<Relation>, owner: string, actor: string)
    requires s != [] && Finds(byOwner, s[..|s| - 1]) && FindsByActor(byActor, s[..|s| - 1])
    requires VoteOn(s[|s| - 1], Owners(s[..|s| - 1]), owner, actor)
    requires MoreRecent(Get(byOwner, owner, actor), s[|s| - 1]) == Some(s[|s| - 1])
    ensures Finds(Put(byOwner, owner, actor, s[|s| - 1]), s)
    ensures FindsByActor(Put(byActor, actor, owner, s[|s| - 1]), s)
  {
    forall o, a
      ensures Get(Put(byOwner, owner, actor, s[|s| - 1]), o, a) == Online(s, o, a)
      ensures Get(Put(byActor, actor, owner, s[|s| - 1]), a, o) == Online(s, o, a)
    {
      GetPut(byOwner, owner, actor, s[|s| - 1], o, a);
      GetPut(byActor, actor, owner, s[|s| - 1], a, o);
    }
  }

  lemma GetPut(m: Index, x: string, y: string, r: Relation, u: string, v: string)
    ensures Get(Put(m, x, y, r), u, v) == if u == x && v == y then Some(r) else Get(m, u, v)
  {
  }

  /** One more relation that is not. */
  lemma FindsSame(byOwner: Index, byActor: Index, s: seq<Relation>)
    requires s != [] && Finds(byOwner, s[..|s| - 1]) && FindsByActor(byActor, s[..|s| - 1])
    requires var r, owners := s[|s| - 1], Owners(s[..|s| - 1]);
             IsVote(r) && r.target in owners ==>
               var known := Get(byOwner, owners[r.target].source, r.source); MoreRecent(known, r) == known
    ensures Finds(byOwner, s) && FindsByActor(byActor, s)
  {
  }

  class Indexes {
    var ownershipByContent: map<string, Relation>
    var recentInteractionByOwner: Index
    var recentInteractionByActor: Index

    constructor ()
    {
      ownershipByContent, recentInteractionByOwner, recentInteractionByActor := map[], map[], map[];
    }

    /** The index loop at the end of `calculate_rates`. Whatever the relations, the two indexes are
        each other's transpose. */
    method BuildIndexes(socialRelations: seq<Relation>)
      modifies this
      ensures ownershipByContent == Owners(socialRelations)
      ensures Finds(recentInteractionByOwner, socialRelations)
      ensures FindsByActor(recentInteractionByActor, socialRelations)
    {
      ownershipByContent, recentInteractionByOwner, recentInteractionByActor := map[], map[], map[];
      for i := 0 to |socialRelations|
        invariant ownershipByContent == Owners(socialRelations[..i])
        invariant Finds(recentInteractionByOwner, socialRelations[..i])
        invariant FindsByActor(recentInteractionByActor, socialRelations[..i])
      {
        var rel := socialRelations[i];
        var from, to := rel.source, rel.target;
        ghost var seen := socialRelations[..i + 1];
        assert seen[..i] == socialRelations[..i];
        if rel.kind == Ownership {
          ownershipByContent := ownershipByContent[to := rel];
        }
        if IsVote(rel) && to in ownershipByContent {
          var owner, actor := ownershipByContent[to].source, from;
          if Get(recentInteractionByOwner, owner, actor).None? ||
             rel.height < Get(recentInteractionByOwner, owner, actor).value.height
          {
            FindsPut(recentInteractionByOwner, recentInteractionByActor, seen, owner, actor);
            recentInteractionByOwner := Put(recentInteractionByOwner, owner, actor, rel);
            recentInteractionByActor := Put(recentInteractionByActor, actor, owner, rel);
          } else {
            FindsSame(recentInteractionByOwner, recentInteractionByActor, seen);
          }
        } else {
          FindsSame(recentInteractionByOwner, recentInteractionByActor, seen);
        }
      }
      assert socialRelations[..|socialRelations|] == socialRelations;
    }
  }

  /** Some relation gives the content to the owner. */
  ghost predicate OwnsBy(s: seq<Relation>, c: string, owner: string)
  {
    exists j :: 0 <= j < |s| && s[j].kind == Ownership && s[j].target == c && s[j].source == owner
  }

  /** The offline meaning: vote `i` is a vote of the actor on a content that the owner owns, wherever
      the ownership stands. */
  ghost predicate VotedOn(s: seq<Relation>, i: int, owner: string, actor: string)
  {
    && 0 <= i < |s| && (s[i].kind == Upvote || s[i].kind == Downvote) && s[i].source == actor
    && OwnsBy(s, s[i].target, owner)
  }

  /** The first among the votes of lowest height. */
  ghost predicate MostRecent(s: seq<Relation>, i: int, owner: string, actor: string)
  {
    && VotedOn(s, i, owner, actor)
    && forall k :: VotedOn(s, k, owner, actor) ==> s[i].height < s[k].height || (s[i].height == s[k].height && i <= k)
  }

  ghost predicate IsOffline(s: seq<Relation>, owner: string, actor: string, found: Option<Relation>)
  {
    match found
    case None => forall i :: !VotedOn(s, i, owner, actor)
    case Some(r) => exists i :: MostRecent(s, i, owner, actor) && s[i] == r
  }

  /** The ownership map holds exactly the ownerships. */
  lemma {:induction false} OwnersExactly(s: seq<Relation>, c: string, owner: string)
    requires OwnershipFirst(s)
    ensures (c in Owners(s) && Owners(s)[c].source == owner) <==> OwnsBy(s, c, owner)
    ensures c in Owners(s) ==> exists j :: 0 <= j < |s| && s[j].target == c
  {
    if s != [] {
      var front, last := s[..|s| - 1], s[|s| - 1];
      OwnersExactly(front, c, owner);
      assert forall j :: 0 <= j < |front| ==> front[j] == s[j];
      if last.kind == Ownership && last.target == c && last.source == owner {
        assert s[|s| - 1] == last;
      }
    }
  }

  /** One more relation: the votes counted before stay the same, because no earlier vote is on a
      content that only becomes owned now. */
  lemma VotedOnStep(s: seq<Relation>, i: int, owner: string, actor: string)
    requires s != [] && OwnershipFirst(s)
    ensures VotedOn(s, i, owner, actor) <==>
            VotedOn(s[..|s| - 1], i, owner, actor)
            || (i == |s| - 1 && VoteOn(s[i], Owners(s[..|s| - 1]), owner, actor))
  {
    var n := |s| - 1;
    var front := s[..n];
    if VotedOn(front, i, owner, actor) {
      var j :| 0 <= j < n && front[j].kind == Ownership &&
               front[j].target == front[i].target && front[j].source == owner;
      assert s[j] == front[j] && s[i] == front[i];
    }
    if 0 <= i <= n {
      OwnersExactly(front, s[i].target, owner);
    }
    if VotedOn(s, i, owner, actor) {
      var j :| 0 <= j < |s| && s[j].kind == Ownership && s[j].target == s[i].target && s[j].source == owner;
      assert j < n;
      assert front[j] == s[j];
    }
  }

  /** The one-pass index is the offline one whenever ownerships come before votes. */
  lemma {:induction false} OnlineIsOffline(s: seq<Relation>, owner: string, actor: string)
    requires OwnershipFirst(s)
    ensures IsOffline(s, owner, actor, Online(s, owner, actor))
  {
    if s != [] {
      var n := |s| - 1;
      var front := s[..n];
      OnlineIsOffline(front, owner, actor);
      forall i ensures VotedOn(s, i, owner, actor) <==>
                       VotedOn(front, i, owner, actor) || (i == n && VoteOn(s[i], Owners(front), owner, actor))
      {
        VotedOnStep(s, i, owner, actor);
      }
      var before := Online(front, owner, actor);
      if before.Some? {
        var i :| MostRecent(front, i, owner, actor) && front[i] == before.value;
        assert front[i] == s[i];
        assert forall k :: 0 <= k < n ==> front[k] == s[k];
        if VoteOn(s[n], Owners(front), owner, actor) && s[n].height < before.value.height {
          assert MostRecent(s, n, owner, actor);
        } else {
          assert MostRecent(s, i, owner, actor);
        }
      } else if VoteOn(s[n], Owners(front), owner, actor) {
        assert MostRecent(s, n, owner, actor);
      }
    }
  }

  /** For every history the index built over its social relations is the offline one: an entry exists
      exactly when the actor voted on a content of the owner, and it is the first vote of lowest
      height. */
  lemma IndexOfHistory(l: Limits, s: State, acts: seq<Action>, owner: string, actor: string)
    requires IsUint32(l.calcBlock) && l == BlockLimits(l.calcBlock) && Initial(s)
    ensures var social := Run(l, s, acts).social;
            IsOffline(social, owner, actor, Online(social, owner, actor))
  {
    RunKeepsInv(l, s, acts);
    OnlineIsOffline(Run(l, s, acts).social, owner, actor);
  }

  lemma SplitLast<T>(pre: seq<T>, x: T, post: seq<T>)
    requires post != []
    ensures (pre + [x] + post)[..|pre + [x] + post| - 1] == pre + [x] + post[..|post| - 1]
    ensures (pre + post)[..|pre + post| - 1] == pre + post[..|post| - 1]
    ensures (pre + [x] + post)[|pre + [x] + post| - 1] == (pre + post)[|pre + post| - 1] == post[|post| - 1]
  {
  }

  /** The order matters: a vote that comes before every ownership of its content is as good as not there,
      whatever follows, also the ownership. */
  lemma {:induction false} EarlyVoteIgnored(pre: seq<Relation>, vote: Relation, post: seq<Relation>,
                                            owner: string, actor: string)
    requires IsVote(vote) && vote.target !in Owners(pre)
    ensures Owners(pre + [vote] + post) == Owners(pre + post)
    ensures Online(pre + [vote] + post, owner, actor) == Online(pre + post, owner, actor)
    decreases |post|
  {
    if post == [] {
      assert (pre + [vote])[..|pre|] == pre && pre + [vote] + post == pre + [vote] && pre + post == pre;
    } else {
      EarlyVoteIgnored(pre, vote, post[..|post| - 1], owner, actor);
      SplitLast(pre, vote, post);
    }
  }

  /** So when the actor's only vote on contents of the owner comes too early, the pass misses it. */
  lemma EarlyVoteIsMissed(pre: seq<Relation>, vote: Relation, post: seq<Relation>, owner: string)
    requires IsVote(vote) && vote.target !in Owners(pre) && VotedOn(pre + [vote] + post, |pre|, owner, vote.source)
    requires forall i :: i != |pre| ==> !VotedOn(pre + [vote] + post, i, owner, vote.source)
    ensures var s := pre + [vote] + post;
            Online(s, owner, vote.source) == None && !IsOffline(s, owner, vote.source, Online(s, owner, vote.source))
  {
    var s, actor := pre + [vote] + post, vote.source;
    EarlyVoteIgnored(pre, vote, post, owner, actor);
    if Online(pre + post, owner, actor).Some? {
      var i := OnlineIsVote(pre + post, owner, actor);
      var j := OwnersAreRelations(pre + post, owner, (pre + post)[i].target);
      var k := if i < |pre| then i else i + 1;
      var l := if j < |pre| then j else j + 1;
      assert s[k] == (pre + post)[i] && s[l] == (pre + post)[j];
      assert VotedOn(s, k, owner, actor);
    }
  }

  /** What the pass finds is a vote of the actor on a content that some ownership gives to the owner. */
  lemma {:induction false} OnlineIsVote(s: seq<Relation>, owner: string, actor: string) returns (i: nat)
    requires Online(s, owner, actor).Some?
    ensures i < |s| && IsVote(s[i]) && s[i].source == actor
    ensures OwnsBy(s, s[i].target, owner)
  {
    var front := s[..|s| - 1];
    if VoteOn(s[|s| - 1], Owners(front), owner, actor) {
      i := |s| - 1;
      OwnersFound(front, s[i].target);
    } else {
      i := OnlineIsVote(front, owner, actor);
    }
    var j := OwnersAreRelations(front, owner, s[i].target);
    assert s[j] == front[j];
  }

  lemma OwnersAreRelations(s: seq<Relation>, owner: string, c: string) returns (j: nat)
    requires OwnsBy(s, c, owner)
    ensures j < |s| && s[j].kind == Ownership && s[j].target == c && s[j].source == owner
  {
    j :| 0 <= j < |s| && s[j].kind == Ownership && s[j].target == c && s[j].source == owner;
  }

  lemma {:induction false} OwnersFound(s: seq<Relation>, c: string)
    requires c in Owners(s)
    ensures OwnsBy(s, c, Owners(s)[c].source)
  {
    var front, last := s[..|s| - 1], s[|s| - 1];
    if last.kind == Ownership && last.target == c {
      assert s[|s| - 1] == last;
    } else {
      OwnersFound(front, c);
      var j := OwnersAreRelations(front, Owners(front)[c].source, c);
      assert s[j] == front[j];
    }
  }

  /** The ownership map holds, of each content that some ownership is about, the last one. */
  lemma {:induction false} OwnersLast(s: seq<Relation>, c: string) returns (j: int)
    ensures -1 <= j < |s| && (j >= 0 <==> c in Owners(s))
    ensures j >= 0 ==> s[j].kind == Ownership && s[j].target == c && Owners(s)[c] == s[j]
    ensures forall k :: j < k < |s| && s[k].kind == Ownership ==> s[k].target != c
  {
    if s == [] {
      j := -1;
    } else if s[|s| - 1].kind == Ownership && s[|s| - 1].target == c {
      j := |s| - 1;
    } else {
      j := OwnersLast(s[..|s| - 1], c);
    }
  }
}
