/** The mutable history processor of data_processor.hpp, proved against the state machine. */
module HistoryProcessor {
  import opened Basics
  import opened HistorySpec
  import opened HistoryDecode

  /** An accepted social action, field by field. */
  lemma SocialStep(l: Limits, s: State, a: Action)
    requires IsSocialAction(a) && Refusal(s, a) == None
    ensures var r := SocialRelation(l, a);
            Step(l, s, a) == State(Note(s.accounts, Actor(a), OriginOf(a)), Note(s.content, Object(a), OriginOf(a)),
                                   PushIf(s.social, r, InWindow(l, a.block)), s.transfers,
                                   PushIf(s.activity, r, InActivityWindow(l, a.block)),
                                   s.trust, s.references, s.rejects)
  {
  }

  class DataProcessor {
    const currentCalcBlock: int
    var startBlock: int
    var endBlock: int
    var activityStartBlock: int
    var activityEndBlock: int
    var accounts: map<string, Origin>
    var content: map<string, Origin>
    var socialRelations: seq<Relation>
    var transferRelations: seq<Relation>
    var activityRelations: seq<Relation>
    var trustRelations: seq<Relation>
    var referenceRelations: seq<Relation>
    var trxRejects: seq<Reject>

    ghost function Contents(): State
      reads this
    {
      State(accounts, content, socialRelations, transferRelations, activityRelations, trustRelations,
            referenceRelations, trxRejects)
    }

    ghost function Window(): Limits
      reads this
    {
      Limits(currentCalcBlock, startBlock, endBlock, activityStartBlock, activityEndBlock)
    }

    /** A processor whose accounts are those of the balance snapshot. */
    constructor (calcBlock: int, snapshot: set<string>)
      ensures currentCalcBlock == calcBlock && Initial(Contents())
      ensures accounts == map name | name in snapshot :: FromBalance
    {
      currentCalcBlock := calcBlock;
      startBlock, endBlock, activityStartBlock, activityEndBlock := 0, 0, 0, 0;
      accounts := map name | name in snapshot :: FromBalance;
      content, trxRejects := map[], [];
      socialRelations, transferRelations, activityRelations := [], [], [];
      trustRelations, referenceRelations := [], [];
    }

    method SetBlockLimits()
      modifies this`startBlock, this`endBlock, this`activityStartBlock, this`activityEndBlock
      ensures Window() == BlockLimits(currentCalcBlock)
    {
      endBlock := ToInt32(currentCalcBlock);
      startBlock := ToInt32(ToUint32(ToUint32(endBlock) - TRANSACTION_WINDOW) + 1);
      activityEndBlock := endBlock;
      activityStartBlock := ToInt32(ToUint32(ToUint32(activityEndBlock) - ACTIVITY_WINDOW) + 1);
    }

    method AddOrganization(creator: string, organization: string, block: int)
      modifies this`accounts, this`trxRejects
      ensures Contents() == Step(Window(), old(Contents()), Action.AddOrganization(creator, organization, block))
    {
      if organization in content {
        trxRejects := trxRejects + [Reject(WrongActor, Action.AddOrganization(creator, organization, block))];
        return;
      }
      if organization !in accounts {
        accounts := accounts[organization := MakeOrganization];
      }
    }

    method AddContent(author: string, contentId: string, block: int)
      modifies this`accounts, this`content, this`socialRelations, this`activityRelations, this`trxRejects
      ensures Contents() == Step(Window(), old(Contents()), Action.AddContent(author, contentId, block))
    {
      var a := Action.AddContent(author, contentId, block);
      if contentId in accounts {
        trxRejects := trxRejects + [Reject(WrongContent, a)];
        return;
      }
      if author in content {
        trxRejects := trxRejects + [Reject(WrongActor, a)];
        return;
      }
      if contentId in content {
        trxRejects := trxRejects + [Reject(DuplicateOwnership, a)];
        return;
      }
      if author !in accounts {
        accounts := accounts[author := MakeContent];
      }
      content := content[contentId := MakeContent];
      SocialStep(Window(), old(Contents()), a);
      if startBlock < block && block <= endBlock {
        socialRelations :=
          socialRelations + [Relation(Ownership, author, contentId, ToUint32(currentCalcBlock - block), 0)];
      }
      if activityStartBlock < block && block <= activityEndBlock {
        activityRelations :=
          activityRelations + [Relation(Ownership, author, contentId, ToUint32(currentCalcBlock - block), 0)];
      }
    }

    method AddUpvote(from: string, to: string, block: int)
      modifies this`accounts, this`content, this`socialRelations, this`activityRelations, this`trxRejects
      ensures Contents() == Step(Window(), old(Contents()), Action.AddUpvote(from, to, block))
    {
      var a := Action.AddUpvote(from, to, block);
      if to in accounts {
        trxRejects := trxRejects + [Reject(WrongContent, a)];
        return;
      }
      if from in content {
        trxRejects := trxRejects + [Reject(WrongActor, a)];
        return;
      }
      if from !in accounts {
        accounts := accounts[from := FromUpvote];
      }
      if to !in content {
        content := content[to := FromUpvote];
      }
      SocialStep(Window(), old(Contents()), a);
      if startBlock < block && block <= endBlock {
        socialRelations := socialRelations + [Relation(Upvote, from, to, ToUint32(currentCalcBlock - block), 0)];
      }
      if activityStartBlock < block && block <= activityEndBlock {
        activityRelations := activityRelations + [Relation(Upvote, from, to, ToUint32(currentCalcBlock - block), 0)];
      }
    }

    method AddDownvote(from: string, to: string, block: int)
      modifies this`accounts, this`content, this`socialRelations, this`activityRelations, this`trxRejects
      ensures Contents() == Step(Window(), old(Contents()), Action.AddDownvote(from, to, block))
    {
      var a := Action.AddDownvote(from, to, block);
      if to in accounts {
        trxRejects := trxRejects + [Reject(WrongContent, a)];
        return;
      }
      if from in content {
        trxRejects := trxRejects + [Reject(WrongActor, a)];
        return;
      }
      if from !in accounts {
        accounts := accounts[from := FromDownvote];
      }
      if to !in content {
        content := content[to := FromDownvote];
      }
      SocialStep(Window(), old(Contents()), a);
      if startBlock < block && block <= endBlock {
        socialRelations := socialRelations + [Relation(Downvote, from, to, ToUint32(currentCalcBlock - block), 0)];
      }
      if activityStartBlock < block && block <= activityEndBlock {
        activityRelations := activityRelations + [Relation(Downvote, from, to, ToUint32(currentCalcBlock - block), 0)];
      }
    }

    method AddTransfer(from: string, to: string, quantity: int, block: int)
      modifies this`transferRelations, this`activityRelations
      ensures Contents() == Step(Window(), old(Contents()), Action.AddTransfer(from, to, quantity, block))
    {
      if startBlock < block && block <= endBlock {
        transferRelations :=
          transferRelations + [Relation(Transaction, from, to, ToUint32(currentCalcBlock - block), quantity)];
      }
      if activityStartBlock < block && block <= activityEndBlock {
        activityRelations :=
          activityRelations + [Relation(Transaction, from, to, ToUint32(currentCalcBlock - block), quantity)];
      }
    }

    method AddTrust(from: string, to: string, block: int)
      modifies this`trustRelations, this`trxRejects
      ensures Contents() == Step(Window(), old(Contents()), Action.AddTrust(from, to, block))
    {
      if from !in accounts {
        trxRejects := trxRejects + [Reject(WrongActor, Action.AddTrust(from, to, block))];
        return;
      }
      if to !in accounts {
        trxRejects := trxRejects + [Reject(WrongActor, Action.AddTrust(from, to, block))];
        return;
      }
      trustRelations := trustRelations + [Relation(Trust, from, to, ToUint32(currentCalcBlock - block), 0)];
    }

    method AddReferral(from: string, to: string, block: int)
      modifies this`referenceRelations, this`trxRejects
      ensures Contents() == Step(Window(), old(Contents()), Action.AddReferral(from, to, block))
    {
      if from !in accounts {
        trxRejects := trxRejects + [Reject(WrongActor, Action.AddReferral(from, to, block))];
        return;
      }
      if to !in accounts {
        trxRejects := trxRejects + [Reject(WrongActor, Action.AddReferral(from, to, block))];
        return;
      }
      referenceRelations := referenceRelations + [Relation(Reference, from, to, ToUint32(currentCalcBlock - block), 0)];
    }

    /** The call of the method that the kind of an action asks for. */
    method ProcessAction(a: Action)
      modifies this`accounts, this`content, this`socialRelations, this`transferRelations, this`activityRelations,
               this`trustRelations, this`referenceRelations, this`trxRejects
      ensures Contents() == Step(Window(), old(Contents()), a)
    {
      match a
      case AddOrganization(creator, organization, block) => AddOrganization(creator, organization, block);
      case AddContent(author, contentId, block) => AddContent(author, contentId, block);
      case AddUpvote(from, to, block) => AddUpvote(from, to, block);
      case AddDownvote(from, to, block) => AddDownvote(from, to, block);
      case AddTransfer(from, to, quantity, block) => AddTransfer(from, to, quantity, block);
      case AddTrust(from, to, block) => AddTrust(from, to, block);
      case AddReferral(from, to, block) => AddReferral(from, to, block);
      case Refused(reason, _) => trxRejects := trxRejects + [Reject(reason, a)];
    }

    /** One turn of the loop of `process_transaction_history`. */
    method ProcessTransaction(parsers: Parsers, t: Trx)
      modifies this`accounts, this`content, this`socialRelations, this`transferRelations, this`activityRelations,
               this`trustRelations, this`referenceRelations, this`trxRejects
      ensures Contents() == StepTrx(Window(), old(Contents()), parsers, t)
    {
      match Decode(parsers, t)
      case None =>
      case Some(a) => ProcessAction(a);
    }

    /** `process_transaction_history`. */
    method ProcessTransactionHistory(parsers: Parsers, trxs: seq<Trx>)
      modifies this`accounts, this`content, this`socialRelations, this`transferRelations, this`activityRelations,
               this`trustRelations, this`referenceRelations, this`trxRejects
      ensures Contents() == Run(Window(), old(Contents()), DecodeAll(parsers, trxs))
    {
      for i := 0 to |trxs|
        invariant Contents() == Run(Window(), old(Contents()), DecodeAll(parsers, trxs[..i]))
      {
        RunDecoded(Window(), old(Contents()), parsers, trxs, i);
        ProcessTransaction(parsers, trxs[i]);
      }
      assert trxs[..|trxs|] == trxs;
    }
  }

  lemma RunDecoded(l: Limits, s: State, parsers: Parsers, trxs: seq<Trx>, i: nat)
    requires i < |trxs|
    ensures Run(l, s, DecodeAll(parsers, trxs[..i + 1])) ==
            StepTrx(l, Run(l, s, DecodeAll(parsers, trxs[..i])), parsers, trxs[i])
  {
    assert trxs[..i + 1][..i] == trxs[..i];
    var acts := DecodeAll(parsers, trxs[..i]);
    match Decode(parsers, trxs[i])
    case None =>
    case Some(a) => assert (acts + [a])[..|acts|] == acts;
  }
}
