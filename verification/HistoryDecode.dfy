/** How a cached transaction becomes an action of the history machine. */
module HistoryDecode {
  import opened Basics
  import opened HistorySpec

  /** A cached transaction: its printed form, its contract and action, its block number as printed, and the
      fields of its data as printed. What is missing reads as an exception in the source. */
  datatype Trx = Trx(text: string, acc: Option<string>, action: Option<string>, blockNum: Option<string>,
                     data: map<string, string>)

  /** A parsed `action_json`. */
  datatype Interaction = Interaction(kind: Option<string>, data: map<string, string>)

  /** `stoi`, the JSON parser, `asset::from_string` and `convert_time_to_block_num`; no value is an exception. */
  datatype Parsers = Parsers(number: string -> Option<int>, json: string -> Option<Interaction>,
                             amount: string -> Option<int>, timeBlock: string -> Option<int>)

  const ACTIVITY_CONTRACT := "uos.activity"
  const TOKEN_CONTRACT := "eosio.token"

  /** A line break, or a printed one. */
  predicate HasBreak(text: string)
  {
    exists i :: 0 <= i < |text| && (
                  text[i] == '\n' || text[i] == '\r'
                  || (text[i] == '\\' && i + 1 < |text| && (text[i + 1] == 'n' || text[i + 1] == 'r')))
  }

  function Field(m: map<string, string>, k: string): Option<string>
  {
    if k in m then Some(m[k]) else None
  }

  function Bind<A, B>(x: Option<A>, f: A -> Option<B>): Option<B>
  {
    match x case None => None case Some(a) => f(a)
  }

  /** Two fields that an action needs, looked up in this order. */
  function Two(m: map<string, string>, k: string, l: string): Option<(string, string)>
  {
    if k in m && l in m then Some((m[k], m[l])) else None
  }

  /** The outer option is the exception, the inner one no action at all. */
  type Decoded = Option<Option<Action>>

  function Content(m: map<string, string>, author: string, block: int): Decoded
  {
    match Two(m, author, "content_id") case None => None case Some(p) => Some(Some(AddContent(p.0, p.1, block)))
  }

  function Organization(m: map<string, string>, creator: string, organization: string, block: int): Decoded
  {
    match Two(m, creator, organization) case None => None case Some(p) => Some(Some(AddOrganization(p.0, p.1, block)))
  }

  function Vote(m: map<string, string>, voter: string, up: bool, block: int): Decoded
  {
    match Two(m, voter, "content_id")
    case None => None
    case Some(p) => Some(Some(if up then AddUpvote(p.0, p.1, block) else AddDownvote(p.0, p.1, block)))
  }

  /** `process_old_social_transaction`. */
  function DecodeOld(parsers: Parsers, action: string, t: Trx): Decoded
  {
    match Bind(t.blockNum, parsers.number)
    case None => None
    case Some(block) =>
      if action == "makecontent" then
        match Field(t.data, "content_type_id")
        case None => None
        case Some(kind) =>
          if kind == "4" then Organization(t.data, "acc", "content_id", block) else Content(t.data, "acc", block)
      else if action == "usertocont" then
        match Field(t.data, "interaction_type_id")
        case None => None
        case Some(kind) =>
          if kind == "2" then Vote(t.data, "acc", true, block)
          else if kind == "4" then Vote(t.data, "acc", false, block)
          else Some(None)
      else if action == "makecontorg" then Content(t.data, "organization_id", block)
      else Some(None)
  }

  function Between(m: map<string, string>, trust: bool, block: int): Decoded
  {
    match Two(m, "account_from", "account_to")
    case None => None
    case Some(p) => Some(Some(if trust then AddTrust(p.0, p.1, block) else AddReferral(p.0, p.1, block)))
  }

  /** The chain of interactions of `process_generic_social_transaction`. */
  function DecodeInteraction(j: Interaction, t: Trx, block: int): Decoded
  {
    match j.kind
    case None => None
    case Some(kind) =>
      if kind == "create_media_post_from_account" then Content(j.data, "account_from", block)
      else if kind == "create_media_post_from_organization" then Content(j.data, "organization_id_from", block)
      else if kind == "upvote" then Vote(j.data, "account_from", true, block)
      else if kind == "downvote" then Vote(j.data, "account_from", false, block)
      else if kind == "create_organization" then Organization(j.data, "account_from", "organization_id", block)
      else if kind == "trust" then Between(j.data, true, block)
      else if kind == "reference" || kind == "referral" then Between(j.data, false, block)
      else Some(Some(Refused(UnusedGeneric, t.text)))
  }

  /** `process_generic_social_transaction`; a historic action takes its block from its time stamp. */
  function DecodeGeneric(parsers: Parsers, action: string, t: Trx): Decoded
  {
    var stamped := Bind(Field(t.data, "timestamp"), parsers.timeBlock);
    match (Bind(t.blockNum, parsers.number), Field(t.data, "acc"))
    case (Some(number), Some(_)) =>
      if action == "histactndt" && stamped == None then None
      else
        var block := if action == "histactndt" then stamped.value else number;
        (match Bind(Field(t.data, "action_json"), parsers.json)
         case None => None
         case Some(j) => DecodeInteraction(j, t, block))
    case _ => None
  }

  /** `process_transfer_transaction`. */
  function DecodeTransfer(parsers: Parsers, t: Trx): Decoded
  {
    match (Bind(t.blockNum, parsers.number), Two(t.data, "from", "to"), Bind(Field(t.data, "quantity"), parsers.amount))
    case (Some(block), Some(p), Some(quantity)) => Some(Some(AddTransfer(p.0, p.1, quantity, block)))
    case _ => None
  }

  /** The actions that only the newer contract sends. */
  predicate IsGeneric(action: string)
  {
    action == "socialaction" || action == "socialactndt" || action == "histactndt"
  }

  function DecodeKnown(parsers: Parsers, t: Trx): Decoded
  {
    match (t.acc, t.action)
    case (Some(acc), Some(action)) =>
      if acc == ACTIVITY_CONTRACT then
        if IsGeneric(action) then DecodeGeneric(parsers, action, t) else DecodeOld(parsers, action, t)
      else if acc == TOKEN_CONTRACT then DecodeTransfer(parsers, t)
      else Some(None)
    case (Some(acc), None) =>
      if acc == ACTIVITY_CONTRACT then None
      else if acc == TOKEN_CONTRACT then DecodeTransfer(parsers, t)
      else Some(None)
    case (None, _) => None
  }

  /** The one action a transaction stands for, if any: a refused one for a line break or an exception. */
  function Decode(parsers: Parsers, t: Trx): Option<Action>
  {
    if HasBreak(t.text) then Some(Refused(Newline, t.text))
    else
      match DecodeKnown(parsers, t)
      case None => Some(Refused(ParsingError, t.text))
      case Some(decoded) => decoded
  }

  /** One turn of the loop over the history. */
  function StepTrx(l: Limits, s: State, parsers: Parsers, t: Trx): State
  {
    match Decode(parsers, t) case None => s case Some(a) => Step(l, s, a)
  }

  /** The actions of a history, in order. */
  function DecodeAll(parsers: Parsers, trxs: seq<Trx>): seq<Action>
  {
    if trxs == [] then []
    else
      var before := DecodeAll(parsers, trxs[..|trxs| - 1]);
      match Decode(parsers, trxs[|trxs| - 1]) case None => before case Some(a) => before + [a]
  }

  /** For an action named `histactndt` the old handler is called first; it only reads the block number, and so
      fails only where the other one fails as well. */
  lemma OldIgnoresHistoric(parsers: Parsers, t: Trx)
    ensures DecodeOld(parsers, "histactndt", t) in {None, Some(None)}
    ensures DecodeOld(parsers, "histactndt", t) == None ==> DecodeGeneric(parsers, "histactndt", t) == None
  {
  }
}
