/** `GET /api/exchange/received` and `GET /api/exchange/sent`: the rows of
    the exchange table a profile sees. Both queries join the `skill_profile`
    rows of the two parties (inner joins), so an exchange is listed only when
    both parties' profiles exist; the skill joins are outer joins and drop
    nothing. */
module ExchangeLists {
  import opened Basics
  import opened ExchangeStore
  import ExchangeStatus
  import ExchangeRequest

  /** Both parties of `e` have a profile row. */
  predicate Joined(e: Exchange, profiles: set<int>) {
    e.initiator in profiles && e.recipient in profiles
  }

  /** Requests waiting for the caller's answer: rows whose recipient is the
      caller and whose status is still `Requested`. A caller without a
      profile compares against NULL and sees nothing. */
  function Received(rows: map<int, Exchange>, caller: Option<int>, profiles: set<int>): (r: map<int, Exchange>)
    ensures forall id :: id in r ==> id in rows && r[id] == rows[id]
    ensures forall id :: id in r <==>
              id in rows && caller == Some(rows[id].recipient)
              && rows[id].status == Requested && Joined(rows[id], profiles)
  {
    map id | id in rows && caller == Some(rows[id].recipient)
                        && rows[id].status == Requested && Joined(rows[id], profiles)
      :: rows[id]
  }

  /** Requests the caller sent, whatever their status. */
  function Sent(rows: map<int, Exchange>, caller: Option<int>, profiles: set<int>): (r: map<int, Exchange>)
    ensures forall id :: id in r ==> id in rows && r[id] == rows[id]
    ensures forall id :: id in r <==>
              id in rows && caller == Some(rows[id].initiator) && Joined(rows[id], profiles)
  {
    map id | id in rows && caller == Some(rows[id].initiator) && Joined(rows[id], profiles)
      :: rows[id]
  }

  /** A caller without a profile sees empty lists. */
  lemma NoProfileSeesNothing(rows: map<int, Exchange>, profiles: set<int>)
    ensures Received(rows, None, profiles) == map[]
    ensures Sent(rows, None, profiles) == map[]
  {
  }

  /** In a table without self-exchanges a profile never finds the same row
      in both of its lists. */
  lemma ReceivedAndSentDisjoint(s: Store, caller: Option<int>, profiles: set<int>)
    requires PartiesDistinct(s)
    ensures Received(s.rows, caller, profiles).Keys !! Sent(s.rows, caller, profiles).Keys
  {
    var received := Received(s.rows, caller, profiles);
    var sent := Sent(s.rows, caller, profiles);
    forall id | id in received
      ensures id !in sent
    {
      assert s.rows[id].initiator != s.rows[id].recipient;
    }
  }

  /** A freshly created request shows in the recipient's received list and
      in the sender's sent list, as status `Requested`. */
  lemma CreatedRequestIsListed(s: Store, account: Option<int>, toProfile: Option<int>,
                               skill1: Option<int>, skill2: Option<int>,
                               profileOf: map<int, int>, locations: map<int, string>,
                               now: int, profiles: set<int>)
    requires Valid(s)
    requires ExchangeRequest.SubmitRequest(s, account, toProfile, skill1, skill2, profileOf, locations, now).Ok?
    requires toProfile.Some? && toProfile.value in profiles
    requires account.Some? && account.value in profileOf && profileOf[account.value] in profiles
    ensures var (t, id) := ExchangeRequest.SubmitRequest(s, account, toProfile, skill1, skill2, profileOf, locations, now).value;
            && id in Received(t.rows, toProfile, profiles)
            && id in Sent(t.rows, Some(profileOf[account.value]), profiles)
            && Sent(t.rows, Some(profileOf[account.value]), profiles)[id].status == Requested
  {
  }

  /** Any successful answer (accept, decline, or a cancel by either party)
      takes the request off every received list, the recipient's included,
      and keeps it, with its new status, on the sender's sent list. */
  lemma AnsweredRequestLeavesReceived(s: Store, id: int, text: string, caller: Option<int>, profiles: set<int>)
    requires ExchangeStatus.UpdateStatus(s, id, text, caller).Ok?
    requires id in s.rows && Joined(s.rows[id], profiles)
    ensures var t := ExchangeStatus.UpdateStatus(s, id, text, caller).value;
            && id !in Received(t.rows, caller, profiles)
            && (forall c :: id !in Received(t.rows, c, profiles))
            && id in Sent(t.rows, Some(s.rows[id].initiator), profiles)
            && Sent(t.rows, Some(s.rows[id].initiator), profiles)[id].status
               == ExchangeStatus.ParseTarget(text).value
  {
  }
}
