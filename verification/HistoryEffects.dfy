/** What each kind of transaction does to the history processor, field by field: which list grows, by which
    relation, which names become known, and what is rejected. */
module HistoryEffects {
  import opened Basics
  import opened HistorySpec
  import opened HistoryDecode

  // ---- transactions by their texts ----------------------------------------------------------

  ghost predicate NoBreak(text: string)
  {
    forall i :: 0 <= i < |text| ==>
                  && text[i] != '\n' && text[i] != '\r'
                  && (text[i] == '\\' && i + 1 < |text| ==> text[i + 1] != 'n' && text[i + 1] != 'r')
  }

  /** An action of the activity contract, with a block number that parses. */
  ghost predicate IsOld(parsers: Parsers, t: Trx, action: string, block: int)
  {
    && NoBreak(t.text) && t.acc == Some("uos.activity") && t.action == Some(action)
    && t.blockNum.Some? && parsers.number(t.blockNum.value) == Some(block)
  }

  /** An interaction of the activity contract; a historic one takes its block from its time stamp. */
  ghost predicate IsInteraction(parsers: Parsers, t: Trx, kind: string, data: map<string, string>, block: int)
  {
    && NoBreak(t.text) && t.acc == Some("uos.activity") && t.blockNum.Some?
    && "acc" in t.data && "action_json" in t.data
    && parsers.json(t.data["action_json"]) == Some(Interaction(Some(kind), data))
    && (|| (t.action in {Some("socialaction"), Some("socialactndt")}
            && parsers.number(t.blockNum.value) == Some(block))
        || (t.action == Some("histactndt") && parsers.number(t.blockNum.value).Some?
            && "timestamp" in t.data && parsers.timeBlock(t.data["timestamp"]) == Some(block)))
  }

  ghost predicate Has(data: map<string, string>, k: string, a: string, l: string, b: string)
  {
    k in data && data[k] == a && l in data && data[l] == b
  }

  // ---- effects ------------------------------------------------------------------------------

  ghost predicate OnlyRejects(s: State, t: State, reason: Reason, action: Action)
  {
    t == s.(rejects := s.rejects + [Reject(reason, action)])
  }

  /** The 32-bit distance of a block from the calculation block. */
  function Distance(l: Limits, block: int): int
  {
    (l.calcBlock - block) % 0x1_0000_0000
  }

  ghost predicate Pushes(before: seq<Relation>, after: seq<Relation>, lo: int, hi: int, block: int, r: Relation)
  {
    after == if lo < block <= hi then before + [r] else before
  }

  ghost predicate Knows(before: map<string, Origin>, after: map<string, Origin>, name: string, origin: Origin)
  {
    after == if name in before then before else before[name := origin]
  }

  /** Both names become known, and a social relation goes into each window of its block. */
  ghost predicate AddsSocial(l: Limits, s: State, t: State, kind: Kind, origin: Origin,
                             source: string, target: string, block: int)
  {
    var r := Relation(kind, source, target, Distance(l, block), 0);
    && Knows(s.accounts, t.accounts, source, origin) && Knows(s.content, t.content, target, origin)
    && Pushes(s.social, t.social, l.start, l.end, block, r)
    && Pushes(s.activity, t.activity, l.activityStart, l.activityEnd, block, r)
    && t.transfers == s.transfers && t.trust == s.trust && t.references == s.references && t.rejects == s.rejects
  }

  ghost predicate ContentEffect(l: Limits, s: State, t: State, author: string, content: string, block: int)
  {
    var a := Action.AddContent(author, content, block);
    if content in s.accounts then OnlyRejects(s, t, WrongContent, a)
    else if author in s.content then OnlyRejects(s, t, WrongActor, a)
    else if content in s.content then OnlyRejects(s, t, DuplicateOwnership, a)
    else AddsSocial(l, s, t, Ownership, MakeContent, author, content, block)
  }

  ghost predicate UpvoteEffect(l: Limits, s: State, t: State, from: string, to: string, block: int)
  {
    if to in s.accounts then OnlyRejects(s, t, WrongContent, Action.AddUpvote(from, to, block))
    else if from in s.content then OnlyRejects(s, t, WrongActor, Action.AddUpvote(from, to, block))
    else AddsSocial(l, s, t, Upvote, FromUpvote, from, to, block)
  }

  ghost predicate DownvoteEffect(l: Limits, s: State, t: State, from: string, to: string, block: int)
  {
    if to in s.accounts then OnlyRejects(s, t, WrongContent, Action.AddDownvote(from, to, block))
    else if from in s.content then OnlyRejects(s, t, WrongActor, Action.AddDownvote(from, to, block))
    else AddsSocial(l, s, t, Downvote, FromDownvote, from, to, block)
  }

  ghost predicate OrganizationEffect(s: State, t: State, creator: string, organization: string, block: int)
  {
    if organization in s.content
    then OnlyRejects(s, t, WrongActor, Action.AddOrganization(creator, organization, block))
    else Knows(s.accounts, t.accounts, organization, MakeOrganization) && t == s.(accounts := t.accounts)
  }

  ghost predicate TrustEffect(l: Limits, s: State, t: State, from: string, to: string, block: int)
  {
    if from !in s.accounts || to !in s.accounts
    then OnlyRejects(s, t, WrongActor, Action.AddTrust(from, to, block))
    else t == s.(trust := s.trust + [Relation(Trust, from, to, Distance(l, block), 0)])
  }

  ghost predicate ReferralEffect(l: Limits, s: State, t: State, from: string, to: string, block: int)
  {
    if from !in s.accounts || to !in s.accounts
    then OnlyRejects(s, t, WrongActor, Action.AddReferral(from, to, block))
    else t == s.(references := s.references + [Relation(Reference, from, to, Distance(l, block), 0)])
  }

  ghost predicate TransferEffect(l: Limits, s: State, t: State, from: string, to: string, quantity: int, block: int)
  {
    var r := Relation(Transaction, from, to, Distance(l, block), quantity);
    && Pushes(s.transfers, t.transfers, l.start, l.end, block, r)
    && Pushes(s.activity, t.activity, l.activityStart, l.activityEnd, block, r)
    && t == s.(transfers := t.transfers, activity := t.activity)
  }

  // ---- texts that differ --------------------------------------------------------------------

  /** Texts of the same length that the dispatch compares. */
  lemma TextsDiffer()
    ensures "makecontent" != "makecontorg" && "socialaction" != "socialactndt" && "histactndt" != "usertocont"
    ensures "downvote" != "referral" && "uos.activity" != "eosio.token"
  {
    assert "makecontent"[8] == 'e' && "makecontorg"[8] == 'o';
    assert "socialaction"[9] == 'i' && "socialactndt"[9] == 'n';
    assert "histactndt"[0] == 'h' && "usertocont"[0] == 'u';
    assert "downvote"[0] == 'd' && "referral"[0] == 'r';
  }

  /** A text is refused for a line break exactly when it holds one, plain or printed. */
  lemma BreakExactly(l: Limits, s: State, parsers: Parsers, t: Trx)
    ensures HasBreak(t.text) <==> !NoBreak(t.text)
    ensures !NoBreak(t.text) ==> OnlyRejects(s, StepTrx(l, s, parsers, t), Newline, Refused(Newline, t.text))
  {
  }

  lemma InteractionDecodes(parsers: Parsers, t: Trx, kind: string, data: map<string, string>, block: int)
    requires IsInteraction(parsers, t, kind, data, block)
    ensures Decode(parsers, t) == match DecodeInteraction(Interaction(Some(kind), data), t, block)
                                  case None => Some(Refused(ParsingError, t.text))
                                  case Some(decoded) => decoded
  {
    TextsDiffer();
    assert !HasBreak(t.text);
  }

  // ---- the old actions ----------------------------------------------------------------------

  /** `makecontent` of any type but 4, and `makecontorg`, create content. */
  lemma OldContent(l: Limits, s: State, parsers: Parsers, t: Trx, author: string, content: string, block: int)
    requires || (IsOld(parsers, t, "makecontent", block) && Has(t.data, "acc", author, "content_id", content)
                 && "content_type_id" in t.data && t.data["content_type_id"] != "4")
             || (IsOld(parsers, t, "makecontorg", block)
                 && Has(t.data, "organization_id", author, "content_id", content))
    ensures ContentEffect(l, s, StepTrx(l, s, parsers, t), author, content, block)
  {
    TextsDiffer();
    assert !HasBreak(t.text);
  }

  /** `makecontent` of type 4 creates an organization. */
  lemma OldOrganization(l: Limits, s: State, parsers: Parsers, t: Trx,
                        creator: string, organization: string, block: int)
    requires IsOld(parsers, t, "makecontent", block) && Has(t.data, "acc", creator, "content_id", organization)
    requires "content_type_id" in t.data && t.data["content_type_id"] == "4"
    ensures OrganizationEffect(s, StepTrx(l, s, parsers, t), creator, organization, block)
  {
    TextsDiffer();
    assert !HasBreak(t.text);
  }

  /** `usertocont` of type 2 is an upvote and of type 4 a downvote; of another type it does nothing. */
  lemma OldVote(l: Limits, s: State, parsers: Parsers, t: Trx, from: string, to: string, block: int)
    requires IsOld(parsers, t, "usertocont", block) && Has(t.data, "acc", from, "content_id", to)
    requires "interaction_type_id" in t.data
    ensures var after := StepTrx(l, s, parsers, t);
            var kind := t.data["interaction_type_id"];
            if kind == "2" then UpvoteEffect(l, s, after, from, to, block)
            else if kind == "4" then DownvoteEffect(l, s, after, from, to, block)
            else after == s
  {
    TextsDiffer();
    assert !HasBreak(t.text);
  }

  /** Any other action of the activity contract, and any action of an unknown contract, does nothing. */
  lemma OldUnknown(l: Limits, s: State, parsers: Parsers, t: Trx, action: string, block: int)
    requires || (IsOld(parsers, t, action, block)
                 && action !in {"makecontent", "makecontorg", "usertocont",
                                "socialaction", "socialactndt", "histactndt"})
             || (NoBreak(t.text) && t.acc.Some? && t.acc != Some("uos.activity") && t.acc != Some("eosio.token"))
    ensures StepTrx(l, s, parsers, t) == s
  {
    assert !HasBreak(t.text);
  }

  // ---- transfers ----------------------------------------------------------------------------

  /** A transfer of the token contract goes from the sender to the receiver into each window of its block. */
  lemma TokenTransfer(l: Limits, s: State, parsers: Parsers, t: Trx,
                      from: string, to: string, quantity: int, block: int)
    requires NoBreak(t.text) && t.acc == Some("eosio.token")
    requires t.blockNum.Some? && parsers.number(t.blockNum.value) == Some(block)
    requires Has(t.data, "from", from, "to", to)
    requires "quantity" in t.data && parsers.amount(t.data["quantity"]) == Some(quantity)
    ensures TransferEffect(l, s, StepTrx(l, s, parsers, t), from, to, quantity, block)
  {
    TextsDiffer();
    assert !HasBreak(t.text);
  }

  // ---- the interactions ---------------------------------------------------------------------

  lemma PostedContent(l: Limits, s: State, parsers: Parsers, t: Trx, data: map<string, string>,
                      author: string, content: string, block: int)
    requires || (IsInteraction(parsers, t, "create_media_post_from_account", data, block)
                 && Has(data, "account_from", author, "content_id", content))
             || (IsInteraction(parsers, t, "create_media_post_from_organization", data, block)
                 && Has(data, "organization_id_from", author, "content_id", content))
    ensures ContentEffect(l, s, StepTrx(l, s, parsers, t), author, content, block)
  {
    if IsInteraction(parsers, t, "create_media_post_from_account", data, block)
       && Has(data, "account_from", author, "content_id", content) {
      InteractionDecodes(parsers, t, "create_media_post_from_account", data, block);
    } else {
      InteractionDecodes(parsers, t, "create_media_post_from_organization", data, block);
    }
  }

  lemma Upvoted(l: Limits, s: State, parsers: Parsers, t: Trx, data: map<string, string>,
                from: string, to: string, block: int)
    requires IsInteraction(parsers, t, "upvote", data, block) && Has(data, "account_from", from, "content_id", to)
    ensures UpvoteEffect(l, s, StepTrx(l, s, parsers, t), from, to, block)
  {
    InteractionDecodes(parsers, t, "upvote", data, block);
  }

  lemma Downvoted(l: Limits, s: State, parsers: Parsers, t: Trx, data: map<string, string>,
                  from: string, to: string, block: int)
    requires IsInteraction(parsers, t, "downvote", data, block) && Has(data, "account_from", from, "content_id", to)
    ensures DownvoteEffect(l, s, StepTrx(l, s, parsers, t), from, to, block)
  {
    InteractionDecodes(parsers, t, "downvote", data, block);
  }

  lemma CreatedOrganization(l: Limits, s: State, parsers: Parsers, t: Trx, data: map<string, string>,
                            creator: string, organization: string, block: int)
    requires IsInteraction(parsers, t, "create_organization", data, block)
    requires Has(data, "account_from", creator, "organization_id", organization)
    ensures OrganizationEffect(s, StepTrx(l, s, parsers, t), creator, organization, block)
  {
    InteractionDecodes(parsers, t, "create_organization", data, block);
  }

  lemma Trusted(l: Limits, s: State, parsers: Parsers, t: Trx, data: map<string, string>,
                from: string, to: string, block: int)
    requires IsInteraction(parsers, t, "trust", data, block) && Has(data, "account_from", from, "account_to", to)
    ensures TrustEffect(l, s, StepTrx(l, s, parsers, t), from, to, block)
  {
    InteractionDecodes(parsers, t, "trust", data, block);
  }

  lemma Referred(l: Limits, s: State, parsers: Parsers, t: Trx, data: map<string, string>, kind: string,
                 from: string, to: string, block: int)
    requires kind in {"reference", "referral"} && IsInteraction(parsers, t, kind, data, block)
    requires Has(data, "account_from", from, "account_to", to)
    ensures ReferralEffect(l, s, StepTrx(l, s, parsers, t), from, to, block)
  {
    TextsDiffer();
    InteractionDecodes(parsers, t, kind, data, block);
  }

  /** An interaction of no known kind is rejected. */
  lemma UnknownInteraction(l: Limits, s: State, parsers: Parsers, t: Trx, data: map<string, string>, kind: string,
                           block: int)
    requires IsInteraction(parsers, t, kind, data, block)
    requires kind !in {"create_media_post_from_account", "create_media_post_from_organization", "upvote", "downvote",
                       "create_organization", "trust", "reference", "referral"}
    ensures OnlyRejects(s, StepTrx(l, s, parsers, t), UnusedGeneric, Refused(UnusedGeneric, t.text))
  {
    InteractionDecodes(parsers, t, kind, data, block);
  }

  /** A transaction without contract, or of a known contract with a block number that is missing or no number, is
      rejected as it stands. */
  lemma Unreadable(l: Limits, s: State, parsers: Parsers, t: Trx)
    requires NoBreak(t.text)
    requires || t.acc == None
             || (t.acc in {Some("uos.activity"), Some("eosio.token")}
                 && (t.blockNum == None || parsers.number(t.blockNum.value) == None))
    ensures OnlyRejects(s, StepTrx(l, s, parsers, t), ParsingError, Refused(ParsingError, t.text))
  {
    assert !HasBreak(t.text);
  }
}
