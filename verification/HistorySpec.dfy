/** The history processor as a state machine: names are classified as accounts or content, and
    relations are emitted for the actions that fall into the block windows. */
module HistorySpec {
  import opened Basics

  const TRANSACTION_WINDOW := 100 * 86400 * 2
  const ACTIVITY_WINDOW := 30 * 86400 * 2
  const TWO_TO_THE_31 := 0x8000_0000
  const TWO_TO_THE_32 := 0x1_0000_0000

  /** Conversion to a 32-bit unsigned and to a 32-bit signed number. */
  function ToUint32(x: int): int
  {
    x % TWO_TO_THE_32
  }

  function ToInt32(x: int): int
  {
    if ToUint32(x) < TWO_TO_THE_31 then ToUint32(x) else ToUint32(x) - TWO_TO_THE_32
  }

  datatype Origin = FromBalance | MakeOrganization | MakeContent | FromUpvote | FromDownvote

  datatype Kind = Ownership | Upvote | Downvote | Transaction | Trust | Reference

  datatype Relation = Relation(kind: Kind, source: string, target: string, height: int, quantity: int)

  /** A decoded action of the history. A `Refused` one holds a line break, failed to parse, or names
      no known interaction. */
  datatype Action =
    | AddOrganization(creator: string, organization: string, block: int)
    | AddContent(author: string, content: string, block: int)
    | AddUpvote(from: string, to: string, block: int)
    | AddDownvote(from: string, to: string, block: int)
    | AddTransfer(from: string, to: string, quantity: int, block: int)
    | AddTrust(from: string, to: string, block: int)
    | AddReferral(from: string, to: string, block: int)
    | Refused(reason: Reason, text: string)

  datatype Reason =
    | Newline | ParsingError | UnusedGeneric
    | WrongActor | WrongContent | DuplicateOwnership

  datatype Reject = Reject(reason: Reason, action: Action)

  datatype State = State(
    accounts: map<string, Origin>,
    content: map<string, Origin>,
    social: seq<Relation>,
    transfers: seq<Relation>,
    activity: seq<Relation>,
    trust: seq<Relation>,
    references: seq<Relation>,
    rejects: seq<Reject>)

  /** The block limits of a calculation block, all 32-bit signed. */
  datatype Limits = Limits(calcBlock: int, start: int, end: int, activityStart: int, activityEnd: int)

  /** `set_block_limits`, with its mixed signed and unsigned arithmetic. */
  function BlockLimits(calcBlock: int): Limits
  {
    var end := ToInt32(calcBlock);
    Limits(calcBlock,
           ToInt32(ToUint32(ToUint32(end) - TRANSACTION_WINDOW) + 1), end,
           ToInt32(ToUint32(ToUint32(end) - ACTIVITY_WINDOW) + 1), end)
  }

  predicate InWindow(l: Limits, block: int)
  {
    l.start < block <= l.end
  }

  predicate InActivityWindow(l: Limits, block: int)
  {
    l.activityStart < block <= l.activityEnd
  }

  /** `current_calc_block - block`, an unsigned difference. */
  function Height(l: Limits, block: int): int
  {
    ToUint32(l.calcBlock - block)
  }

  function PushIf(s: seq<Relation>, r: Relation, wanted: bool): seq<Relation>
  {
    if wanted then s + [r] else s
  }

  /** The first origin of a name stays. */
  function Note(m: map<string, Origin>, name: string, origin: Origin): map<string, Origin>
  {
    if name in m then m else m[name := origin]
  }

  /** The actions that classify two names and emit a social relation. */
  predicate IsSocialAction(a: Action)
  {
    a.AddContent? || a.AddUpvote? || a.AddDownvote?
  }

  function Actor(a: Action): string
    requires IsSocialAction(a)
  {
    if a.AddContent? then a.author else a.from
  }

  function Object(a: Action): string
    requires IsSocialAction(a)
  {
    if a.AddContent? then a.content else a.to
  }

  function OriginOf(a: Action): Origin
    requires IsSocialAction(a)
  {
    match a case AddContent(_, _, _) => MakeContent case AddUpvote(_, _, _) => FromUpvote case _ => FromDownvote
  }

  function SocialRelation(l: Limits, a: Action): Relation
    requires IsSocialAction(a)
  {
    Relation(match a case AddContent(_, _, _) => Ownership case AddUpvote(_, _, _) => Upvote case _ => Downvote,
             Actor(a), Object(a), Height(l, a.block), 0)
  }

  /** Why an action is rejected, if it is. */
  function Refusal(s: State, a: Action): Option<Reason>
  {
    match a
    case AddOrganization(_, organization, _) =>
      if organization in s.content then Some(WrongActor) else None
    case AddContent(author, content, block) =>
      if content in s.accounts then Some(WrongContent)
      else if author in s.content then Some(WrongActor)
      else if content in s.content then Some(DuplicateOwnership)
      else None
    case AddUpvote(from, to, block) =>
      if to in s.accounts then Some(WrongContent) else if from in s.content then Some(WrongActor) else None
    case AddDownvote(from, to, block) =>
      if to in s.accounts then Some(WrongContent) else if from in s.content then Some(WrongActor) else None
    case AddTransfer(_, _, _, _) => None
    case AddTrust(from, to, _) => if from !in s.accounts || to !in s.accounts then Some(WrongActor) else None
    case AddReferral(from, to, _) => if from !in s.accounts || to !in s.accounts then Some(WrongActor) else None
    case Refused(reason, _) => Some(reason)
  }

  /** An accepted action: a social relation or a transfer goes into each window its block falls into. */
  function Accept(l: Limits, s: State, a: Action): State
    requires !a.Refused?
  {
    if IsSocialAction(a) then
      s.(accounts := Note(s.accounts, Actor(a), OriginOf(a)),
         content := Note(s.content, Object(a), OriginOf(a)),
         social := PushIf(s.social, SocialRelation(l, a), InWindow(l, a.block)),
         activity := PushIf(s.activity, SocialRelation(l, a), InActivityWindow(l, a.block)))
    else match a
    case AddOrganization(_, organization, _) => s.(accounts := Note(s.accounts, organization, MakeOrganization))
    case AddTransfer(from, to, quantity, block) =>
      var r := Relation(Transaction, from, to, Height(l, block), quantity);
      s.(transfers := PushIf(s.transfers, r, InWindow(l, block)),
         activity := PushIf(s.activity, r, InActivityWindow(l, block)))
    case AddTrust(from, to, block) => s.(trust := s.trust + [Relation(Trust, from, to, Height(l, block), 0)])
    case AddReferral(from, to, block) =>
      s.(references := s.references + [Relation(Reference, from, to, Height(l, block), 0)])
  }

  function Step(l: Limits, s: State, a: Action): State
  {
    match Refusal(s, a)
    case Some(reason) => s.(rejects := s.rejects + [Reject(reason, a)])
    case None => Accept(l, s, a)
  }

  /** The state after a history. */
  function Run(l: Limits, s: State, acts: seq<Action>): State
  {
    if acts == [] then s else Step(l, Run(l, s, acts[..|acts| - 1]), acts[|acts| - 1])
  }

  /** Before the history: the accounts of the balance snapshot and nothing else. */
  predicate Initial(s: State)
  {
    s.content == map[] && s.social == [] && s.transfers == [] && s.activity == [] && s.trust == []
    && s.references == [] && s.rejects == []
  }

  predicate IsVote(r: Relation)
  {
    r.kind == Upvote || r.kind == Downvote
  }
}
