/** `PUT /api/exchange/:id/status`: a party of an exchange changes its
    status. The checks run in a fixed order, and the first that fails
    decides the answer. */
module ExchangeStatus {
  import opened Basics
  import opened ExchangeStore

  /** The answers other than success, in the order they are tested. */
  datatype UpdateError =
    | InvalidStatus            // 400: the body's status is not a target
    | ExchangeNotFound         // 404: no row with that exchange_id
    | OnlyReceiverCanDecline   // 403
    | OnlyReceiverCanAccept    // 403
    | NotAuthorized            // 403: caller is neither party

  function HttpCode(e: UpdateError): int {
    match e
    case InvalidStatus => 400
    case ExchangeNotFound => 404
    case _ => 403
  }

  function Message(e: UpdateError): string {
    match e
    case InvalidStatus => "Invalid status"
    case ExchangeNotFound => "Exchange not found"
    case OnlyReceiverCanDecline => "Only the receiver can decline"
    case OnlyReceiverCanAccept => "Only the receiver can accept"
    case NotAuthorized => "Not authorized"
  }

  /** The text stored in the status column for each status. */
  function StatusName(s: Status): string {
    match s
    case Requested => "Requested"
    case Active => "Active"
    case Declined => "Declined"
    case Cancelled => "Cancelled"
  }

  /** Status names a caller may ask for; `Requested` is not among them. */
  predicate IsTarget(s: Status) {
    s != Requested
  }

  /** The membership test against `['Cancelled', 'Declined', 'Active']`,
      read as a parser from the body's text to a target status. */
  function ParseTarget(text: string): (r: Option<Status>)
    ensures r.Some? ==> IsTarget(r.value) && StatusName(r.value) == text
    ensures forall s :: IsTarget(s) && StatusName(s) == text ==> r == Some(s)
  {
    if text == "Cancelled" then Some(Cancelled)
    else if text == "Declined" then Some(Declined)
    else if text == "Active" then Some(Active)
    else None
  }

  /** The transition table, stated independently of the handler's checks:
      the recipient may set any target status, and the initiator may only
      cancel. */
  predicate Permitted(target: Status, caller: Option<int>, e: Exchange) {
    caller == Some(e.recipient) || (target == Cancelled && caller == Some(e.initiator))
  }

  /** The three party checks of the handler, in source order, for a target
      status and a found exchange. */
  function Authorize(target: Status, caller: Option<int>, e: Exchange): (r: Option<UpdateError>)
    requires IsTarget(target)
    ensures r.None? <==> Permitted(target, caller, e)
    ensures r == Some(OnlyReceiverCanDecline) <==> target == Declined && caller != Some(e.recipient)
    ensures r == Some(OnlyReceiverCanAccept) <==> target == Active && caller != Some(e.recipient)
    ensures r == Some(NotAuthorized) <==>
              target == Cancelled && caller != Some(e.initiator) && caller != Some(e.recipient)
    ensures r.Some? ==> HttpCode(r.value) == 403
  {
    if target == Declined && caller != Some(e.recipient) then Some(OnlyReceiverCanDecline)
    else if target == Active && caller != Some(e.recipient) then Some(OnlyReceiverCanAccept)
    else if caller != Some(e.initiator) && caller != Some(e.recipient) then Some(NotAuthorized)
    else None
  }

  /** The whole handler: validate the body's status, look the exchange up,
      check the caller, then overwrite the status column of that row. The
      current status is not consulted. */
  function UpdateStatus(s: Store, id: int, text: string, caller: Option<int>): (r: Result<Store, UpdateError>)
    ensures r == Err(InvalidStatus) <==> ParseTarget(text).None?
    ensures r == Err(ExchangeNotFound) <==> ParseTarget(text).Some? && id !in s.rows
    ensures r.Ok? <==>
              ParseTarget(text).Some? && id in s.rows
              && Permitted(ParseTarget(text).value, caller, s.rows[id])
    ensures ParseTarget(text).Some? && id in s.rows && r.Err? ==>
              Some(r.error) == Authorize(ParseTarget(text).value, caller, s.rows[id])
    ensures r.Ok? ==>
              && r.value.nextId == s.nextId
              && r.value.rows.Keys == s.rows.Keys
              && r.value.rows[id].status == ParseTarget(text).value
              && r.value.rows[id] == s.rows[id].(status := r.value.rows[id].status)
              && (forall other :: other in s.rows && other != id ==> r.value.rows[other] == s.rows[other])
  {
    match ParseTarget(text)
    case None => Err(InvalidStatus)
    case Some(target) =>
      if id !in s.rows then Err(ExchangeNotFound)
      else
        match Authorize(target, caller, s.rows[id])
        case Some(denied) => Err(denied)
        case None => Ok(Store(s.rows[id := s.rows[id].(status := target)], s.nextId))
  }

  /** A status update keeps the table's invariants: serial keys and distinct
      parties, since only the status column changes. */
  lemma UpdatePreservesInvariants(s: Store, id: int, text: string, caller: Option<int>)
    requires Valid(s) && PartiesDistinct(s)
    requires UpdateStatus(s, id, text, caller).Ok?
    ensures Valid(UpdateStatus(s, id, text, caller).value)
    ensures PartiesDistinct(UpdateStatus(s, id, text, caller).value)
  {
  }

  /** The initiator asking for `Active` is refused with 403, whatever the
      exchange's current status. */
  lemma InitiatorCannotAccept(s: Store, id: int)
    requires id in s.rows && s.rows[id].initiator != s.rows[id].recipient
    ensures UpdateStatus(s, id, "Active", Some(s.rows[id].initiator)) == Err(OnlyReceiverCanAccept)
    ensures HttpCode(OnlyReceiverCanAccept) == 403
  {
  }

  /** A caller that is neither party, including one without a profile, is
      refused with 403 for every accepted status, and the table is untouched. */
  lemma OutsiderRefused(s: Store, id: int, text: string, caller: Option<int>)
    requires ParseTarget(text).Some? && id in s.rows
    requires caller != Some(s.rows[id].initiator) && caller != Some(s.rows[id].recipient)
    ensures UpdateStatus(s, id, text, caller).Err?
    ensures HttpCode(UpdateStatus(s, id, text, caller).error) == 403
  {
  }

  /** Either party may cancel. */
  lemma EitherPartyMayCancel(s: Store, id: int, caller: int)
    requires id in s.rows
    requires caller == s.rows[id].initiator || caller == s.rows[id].recipient
    ensures UpdateStatus(s, id, "Cancelled", Some(caller)).Ok?
    ensures UpdateStatus(s, id, "Cancelled", Some(caller)).value.rows[id].status == Cancelled
  {
  }

  /** An unknown status text is refused before the exchange is looked up, so
      for an id with no row every refused text answers 400 and every accepted
      text answers 404, whoever the caller is. */
  lemma StatusCheckedBeforeLookup(s: Store, id: int, text: string, caller: Option<int>)
    requires id !in s.rows
    ensures ParseTarget(text).None? ==> UpdateStatus(s, id, text, caller) == Err(InvalidStatus)
    ensures ParseTarget(text).Some? ==> UpdateStatus(s, id, text, caller) == Err(ExchangeNotFound)
    ensures UpdateStatus(s, id, "Requested", caller) == Err(InvalidStatus)
    ensures UpdateStatus(s, id, "Active", caller) == Err(ExchangeNotFound)
  {
  }

  /** No status is terminal in the handler: a declined exchange can still be
      made active by its recipient. */
  lemma TerminalStatusOverwritten(s: Store, id: int)
    requires id in s.rows && s.rows[id].status == Declined
    ensures UpdateStatus(s, id, "Active", Some(s.rows[id].recipient)).Ok?
    ensures UpdateStatus(s, id, "Active", Some(s.rows[id].recipient)).value.rows[id].status == Active
  {
  }

  /** The unit test: profile 1 is the recipient of exchange 1 (sent by
      profile 2) and accepts it with 200. */
  lemma ReceiverAcceptsTestCase(e: Exchange)
    requires e.initiator == 2 && e.recipient == 1
    ensures UpdateStatus(Store(map[1 := e], 2), 1, "Active", Some(1))
            == Ok(Store(map[1 := e.(status := Active)], 2))
  {
    assert map[1 := e][1 := e.(status := Active)] == map[1 := e.(status := Active)];
  }
}
