/** What every history keeps: windows and heights, ownership, and the split of names. */
module HistoryInvariants {
  import opened Basics
  import opened HistorySpec

  // ---- windows ----------------------------------------------------------------------------

  predicate IsUint32(x: int)
  {
    0 <= x < TWO_TO_THE_32
  }

  lemma Wrap(x: int)
    requires -TWO_TO_THE_32 <= x < 2 * TWO_TO_THE_32
    ensures ToUint32(x) == if x < 0 then x + TWO_TO_THE_32 else if x < TWO_TO_THE_32 then x else x - TWO_TO_THE_32
  {
    if x < 0 {
      assert (x + TWO_TO_THE_32) % TWO_TO_THE_32 == x % TWO_TO_THE_32;
    }
  }

  /** The start of a window of `w` blocks as the mixed arithmetic computes it. */
  lemma WindowStart(calcBlock: int, w: int)
    requires IsUint32(calcBlock) && 1 < w < TWO_TO_THE_31
    ensures ToInt32(calcBlock) == if calcBlock < TWO_TO_THE_31 then calcBlock else calcBlock - TWO_TO_THE_32
    ensures ToInt32(ToUint32(ToUint32(ToInt32(calcBlock)) - w) + 1) ==
            if TWO_TO_THE_31 <= calcBlock < TWO_TO_THE_31 + w - 1 then calcBlock - w + 1
            else ToInt32(calcBlock) - w + 1
  {
    Wrap(calcBlock);
    Wrap(ToInt32(calcBlock));
    Wrap(calcBlock - w);
    Wrap(ToUint32(calcBlock - w) + 1);
  }

  /** Below 2^31 a window is exactly a range of true block distances; above, heights still never wrap. */
  lemma WindowExact(calcBlock: int, block: int)
    requires IsUint32(calcBlock)
    ensures var l := BlockLimits(calcBlock);
            && (InWindow(l, block) ==> 0 <= Height(l, block) <= 17_279_998)
            && (InActivityWindow(l, block) ==> 0 <= Height(l, block) <= 5_183_998)
    ensures calcBlock < 0x8000_0000 ==>
              var l := BlockLimits(calcBlock);
              && (l.start < block <= l.end <==> 0 <= calcBlock - block <= 17_279_998)
              && (l.activityStart < block <= l.activityEnd <==> 0 <= calcBlock - block <= 5_183_998)
              && (InWindow(l, block) ==> Height(l, block) == calcBlock - block)
  {
    WindowStart(calcBlock, TRANSACTION_WINDOW);
    WindowStart(calcBlock, ACTIVITY_WINDOW);
    var l := BlockLimits(calcBlock);
    if InWindow(l, block) || InActivityWindow(l, block) { Wrap(calcBlock - block); }
  }

  /** The calculation blocks for which one window start wraps around and the other does not. */
  predicate WindowGap(calcBlock: int)
  {
    TWO_TO_THE_31 + ACTIVITY_WINDOW - 1 <= calcBlock <= TWO_TO_THE_31 + TRANSACTION_WINDOW - 2
  }

  lemma ActivityWithin(calcBlock: int, block: int)
    requires IsUint32(calcBlock) && !WindowGap(calcBlock)
    ensures var l := BlockLimits(calcBlock);
            InActivityWindow(l, block) <==> InWindow(l, block) && Height(l, block) <= ACTIVITY_WINDOW - 2
  {
    WindowStart(calcBlock, TRANSACTION_WINDOW);
    WindowStart(calcBlock, ACTIVITY_WINDOW);
    var l := BlockLimits(calcBlock);
    if InWindow(l, block) || InActivityWindow(l, block) { Wrap(calcBlock - block); }
  }

  lemma GapSeparates(calcBlock: int)
    requires WindowGap(calcBlock)
    ensures var l := BlockLimits(calcBlock); InActivityWindow(l, l.end) && !InWindow(l, l.end)
  {
    WindowStart(calcBlock, TRANSACTION_WINDOW);
    WindowStart(calcBlock, ACTIVITY_WINDOW);
  }

  function Select(s: seq<Relation>, keep: Relation -> bool): (r: seq<Relation>)
  {
    if s == [] then []
    else PushIf(Select(s[..|s| - 1], keep), s[|s| - 1], keep(s[|s| - 1]))
  }

  lemma SelectPush(s: seq<Relation>, r: Relation, wanted: bool, keep: Relation -> bool)
    ensures Select(PushIf(s, r, wanted), keep) == PushIf(Select(s, keep), r, wanted && keep(r))
  {
    assert (s + [r])[..|s|] == s;
  }

  function IsTransfer(): Relation -> bool
  {
    (r: Relation) => r.kind == Transaction
  }

  function IsSocial(): Relation -> bool
  {
    (r: Relation) => r.kind != Transaction
  }

  function IsRecent(): Relation -> bool
  {
    (r: Relation) => r.height <= ACTIVITY_WINDOW - 2
  }

  /** The activity list is the recent part of the social and of the transfer list, each in order. */
  ghost predicate ActivityRefines(s: State)
  {
    Select(s.activity, IsSocial()) == Select(s.social, IsRecent())
    && Select(s.activity, IsTransfer()) == Select(s.transfers, IsRecent())
  }

  lemma StepRefines(l: Limits, s: State, a: Action)
    requires IsUint32(l.calcBlock) && l == BlockLimits(l.calcBlock) && !WindowGap(l.calcBlock) && ActivityRefines(s)
    ensures ActivityRefines(Step(l, s, a))
  {
    if Refusal(s, a).None? && (IsSocialAction(a) || a.AddTransfer?) {
      var r := if IsSocialAction(a) then SocialRelation(l, a)
               else Relation(Transaction, a.from, a.to, Height(l, a.block), a.quantity);
      ActivityWithin(l.calcBlock, a.block);
      SelectPush(s.activity, r, InActivityWindow(l, a.block), IsSocial());
      SelectPush(s.activity, r, InActivityWindow(l, a.block), IsTransfer());
      SelectPush(s.social, r, InWindow(l, a.block), IsRecent());
      SelectPush(s.transfers, r, InWindow(l, a.block), IsRecent());
    }
  }

  lemma {:induction false} RunRefines(l: Limits, s: State, acts: seq<Action>)
    requires IsUint32(l.calcBlock) && l == BlockLimits(l.calcBlock) && !WindowGap(l.calcBlock) && Initial(s)
    ensures ActivityRefines(Run(l, s, acts))
  {
    if acts != [] {
      RunRefines(l, s, acts[..|acts| - 1]);
      StepRefines(l, Run(l, s, acts[..|acts| - 1]), acts[|acts| - 1]);
    }
  }

  lemma GapBreaks(l: Limits, s: State)
    requires Initial(s) && InActivityWindow(l, l.end) && !InWindow(l, l.end)
    ensures !ActivityRefines(Run(l, s, [AddTransfer("a", "b", 0, l.end)]))
  {
    var a := AddTransfer("a", "b", 0, l.end);
    assert [a][..0] == [] && Run(l, s, []) == s;
    var r := Relation(Transaction, "a", "b", Height(l, l.end), 0);
    assert Step(l, s, a).activity == [r] && Step(l, s, a).transfers == [];
    assert [r][..0] == [];
  }

  /** For every calculation block: the activity list refines the other two for all histories if and
      only if the block is outside the gap between the two wrap-arounds. */
  lemma WindowRefinementExactly(calcBlock: int, s: State)
    requires IsUint32(calcBlock) && Initial(s)
    ensures (forall acts :: ActivityRefines(Run(BlockLimits(calcBlock), s, acts))) <==> !WindowGap(calcBlock)
  {
    var l := BlockLimits(calcBlock);
    if WindowGap(calcBlock) {
      GapSeparates(calcBlock);
      GapBreaks(l, s);
    } else {
      forall acts ensures ActivityRefines(Run(l, s, acts)) { RunRefines(l, s, acts); }
    }
  }

  // ---- ownership --------------------------------------------------------------------------

  /** No vote on a content comes before an ownership of it, and no content is owned twice. */
  ghost predicate OwnershipFirst(social: seq<Relation>)
  {
    forall i, j :: 0 <= i < j < |social| && social[j].kind == Ownership ==> social[i].target != social[j].target
  }

  /** A reference joins known accounts, at a distance that did not wrap below zero. */
  ghost predicate ReferenceWithin(r: Relation, accounts: set<string>)
  {
    r.source in accounts && r.target in accounts && r.height >= 0
  }

  ghost predicate ReferencesWithin(references: seq<Relation>, accounts: set<string>)
  {
    forall i :: 0 <= i < |references| ==> ReferenceWithin(references[i], accounts)
  }

  ghost predicate SocialWithin(r: Relation, accounts: set<string>, content: set<string>)
  {
    && r.kind in {Ownership, Upvote, Downvote}
    && r.source in accounts && r.target in content
    && 0 <= r.height <= TRANSACTION_WINDOW - 2
  }

  /** Social relations lead from known accounts to known contents, reference relations join known
      accounts, and heights lie in the window. */
  ghost predicate Inv(s: State)
  {
    && OwnershipFirst(s.social)
    && (forall i :: 0 <= i < |s.social| ==> SocialWithin(s.social[i], s.accounts.Keys, s.content.Keys))
    && (forall i :: 0 <= i < |s.transfers| ==> 0 <= s.transfers[i].height <= TRANSACTION_WINDOW - 2)
    && ReferencesWithin(s.references, s.accounts.Keys)
  }

  lemma StepKeepsInv(l: Limits, s: State, a: Action)
    requires IsUint32(l.calcBlock) && l == BlockLimits(l.calcBlock) && Inv(s)
    ensures Inv(Step(l, s, a))
  {
    if Refusal(s, a).None? && (IsSocialAction(a) || a.AddTransfer?) {
      WindowExact(l.calcBlock, a.block);
    }
    if Refusal(s, a).None? && IsSocialAction(a) {
      SocialStep(l, s, a);
    }
    ReferencesStep(l, s, a);
  }

  lemma ReferencesStep(l: Limits, s: State, a: Action)
    requires ReferencesWithin(s.references, s.accounts.Keys)
    ensures s.accounts.Keys <= Step(l, s, a).accounts.Keys
    ensures ReferencesWithin(Step(l, s, a).references, Step(l, s, a).accounts.Keys)
  {
    var t := Step(l, s, a);
    forall i | 0 <= i < |t.references| ensures ReferenceWithin(t.references[i], t.accounts.Keys) {
      if i < |s.references| { assert ReferenceWithin(s.references[i], s.accounts.Keys); }
    }
  }

  /** Known accounts stay known. */
  lemma {:induction false} AccountsGrow(l: Limits, s: State, acts: seq<Action>)
    requires ReferencesWithin(s.references, s.accounts.Keys)
    ensures s.accounts.Keys <= Run(l, s, acts).accounts.Keys
    ensures ReferencesWithin(Run(l, s, acts).references, Run(l, s, acts).accounts.Keys)
  {
    if acts != [] {
      AccountsGrow(l, s, acts[..|acts| - 1]);
      ReferencesStep(l, Run(l, s, acts[..|acts| - 1]), acts[|acts| - 1]);
    }
  }

  lemma SocialStep(l: Limits, s: State, a: Action)
    requires IsSocialAction(a) && Refusal(s, a).None? && Inv(s)
    requires InWindow(l, a.block) ==> 0 <= Height(l, a.block) <= TRANSACTION_WINDOW - 2
    ensures Inv(Accept(l, s, a))
  {
    var t := Accept(l, s, a);
    ReferencesStep(l, s, a);
    forall i | 0 <= i < |t.social| ensures SocialWithin(t.social[i], t.accounts.Keys, t.content.Keys) {
      if i < |s.social| { assert SocialWithin(s.social[i], s.accounts.Keys, s.content.Keys); }
    }
    forall i, j | 0 <= i < j < |t.social| && t.social[j].kind == Ownership
      ensures t.social[i].target != t.social[j].target
    {
      assert SocialWithin(s.social[i], s.accounts.Keys, s.content.Keys);
    }
  }

  /** Every history keeps the invariant. */
  lemma {:induction false} RunKeepsInv(l: Limits, s: State, acts: seq<Action>)
    requires IsUint32(l.calcBlock) && l == BlockLimits(l.calcBlock) && Inv(s)
    ensures Inv(Run(l, s, acts))
  {
    if acts != [] {
      RunKeepsInv(l, s, acts[..|acts| - 1]);
      StepKeepsInv(l, Run(l, s, acts[..|acts| - 1]), acts[|acts| - 1]);
    }
  }

  /** The first accepted action that mentioned a content. */
  function FirstMention(l: Limits, s: State, acts: seq<Action>, c: string): Option<Action>
  {
    if acts == [] then None
    else
      var front := acts[..|acts| - 1];
      if c in Run(l, s, front).content then FirstMention(l, s, front, c)
      else if c in Run(l, s, acts).content then Some(acts[|acts| - 1])
      else None
  }

  function Owns(c: string): Relation -> bool
  {
    (r: Relation) => r.kind == Ownership && r.target == c
  }

  /** The ownerships a content should have: one, by the author, if its creation was its first
      accepted mention and in the window. */
  function DueOwnerships(l: Limits, first: Option<Action>): seq<Relation>
  {
    match first
    case Some(AddContent(author, c, block)) =>
      PushIf([], Relation(Ownership, author, c, Height(l, block), 0), InWindow(l, block))
    case _ => []
  }

  lemma StepOwnerships(l: Limits, s: State, a: Action, c: string)
    ensures Select(Step(l, s, a).social, Owns(c)) ==
            if c !in s.content && c in Step(l, s, a).content
            then Select(s.social, Owns(c)) + DueOwnerships(l, Some(a))
            else Select(s.social, Owns(c))
    ensures c in s.content ==> c in Step(l, s, a).content
    ensures c !in s.content && c in Step(l, s, a).content && a.AddContent? ==> a.content == c
  {
    if Refusal(s, a).None? && IsSocialAction(a) {
      SelectPush(s.social, SocialRelation(l, a), InWindow(l, a.block), Owns(c));
    }
  }

  /** After every history each content has exactly the ownerships it is due: at most one. */
  lemma {:induction false} OwnershipExactly(l: Limits, s: State, acts: seq<Action>, c: string)
    requires Initial(s)
    ensures Select(Run(l, s, acts).social, Owns(c)) == DueOwnerships(l, FirstMention(l, s, acts, c))
    ensures c in Run(l, s, acts).content <==> FirstMention(l, s, acts, c).Some?
  {
    if acts != [] {
      var front := acts[..|acts| - 1];
      OwnershipExactly(l, s, front, c);
      StepOwnerships(l, Run(l, s, front), acts[|acts| - 1], c);
    }
  }

  // ---- accounts and content ---------------------------------------------------------------

  ghost predicate Disjoint(s: State)
  {
    s.accounts.Keys !! s.content.Keys
  }

  /** An action that uses one unknown name both as the actor and as the content. */
  predicate ConfusesName(s: State, a: Action)
  {
    IsSocialAction(a) && Actor(a) == Object(a) && Actor(a) !in s.accounts && Actor(a) !in s.content
  }

  lemma StepDisjoint(l: Limits, s: State, a: Action)
    ensures Disjoint(Step(l, s, a)) <==> Disjoint(s) && !ConfusesName(s, a)
  {
    var t := Step(l, s, a);
    assert s.accounts.Keys <= t.accounts.Keys && s.content.Keys <= t.content.Keys;
    if ConfusesName(s, a) {
      assert Actor(a) in t.accounts && Actor(a) in t.content;
    }
  }

  /** No action of the history used an unknown name as actor and content at once. */
  ghost predicate NoneConfuses(l: Limits, s: State, acts: seq<Action>)
  {
    acts == [] || (NoneConfuses(l, s, acts[..|acts| - 1])
                   && !ConfusesName(Run(l, s, acts[..|acts| - 1]), acts[|acts| - 1]))
  }

  /** No name is both an account and a content if and only if no action of the history used an
      unknown name as actor and content at once. */
  lemma {:induction false} DisjointExactly(l: Limits, s: State, acts: seq<Action>)
    requires Disjoint(s)
    ensures Disjoint(Run(l, s, acts)) <==> NoneConfuses(l, s, acts)
  {
    if acts != [] {
      DisjointExactly(l, s, acts[..|acts| - 1]);
      StepDisjoint(l, Run(l, s, acts[..|acts| - 1]), acts[|acts| - 1]);
    }
  }

  /** A confused name can earn: any known account may name it as its referrer. */
  lemma ConfusedNameIsReferred(l: Limits, s: State, x: string, known: string, block: int)
    requires x !in s.accounts && x !in s.content && known in s.accounts
    ensures var t := Run(l, s, [AddUpvote(x, x, block), AddReferral(known, x, block)]);
            && x in t.accounts && x in t.content
            && t.references == s.references + [Relation(Reference, known, x, Height(l, block), 0)]
  {
    var acts := [AddUpvote(x, x, block), AddReferral(known, x, block)];
    assert acts[..1] == [acts[0]] && [acts[0]][..0] == [] && Run(l, s, []) == s;
  }
}
