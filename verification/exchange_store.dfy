/** The `exchange` table: one record per skill-exchange request, keyed by a
    serial `exchange_id`. */
module ExchangeStore {

  /** The status column. `Requested` is the initial status; the other three
      are the targets a party may set. */
  datatype Status = Requested | Active | Declined | Cancelled

  /** One row of the `exchange` table (its key is held by the store). */
  datatype Exchange = Exchange(
    initiator: int,       // profile_id_1: the profile that sent the request
    recipient: int,       // profile_id_2: the profile the request is sent to
    offeredSkill: int,    // skill_id_1
    requestedSkill: int,  // skill_id_2
    status: Status,
    location: string,
    dateStart: int,
    dateEnd: int)

  /** The table: rows by `exchange_id`, and the next value of the serial
      sequence that numbers new rows. */
  datatype Store = Store(rows: map<int, Exchange>, nextId: int)

  /** The table before any exchange was created; serials start at 1. */
  const EmptyStore := Store(map[], 1)

  /** Every key was handed out by the serial sequence, so lies below it. */
  predicate Valid(s: Store) {
    forall id :: id in s.rows ==> id < s.nextId
  }

  /** No row is an exchange of a profile with itself. */
  predicate PartiesDistinct(s: Store) {
    forall id :: id in s.rows ==> s.rows[id].initiator != s.rows[id].recipient
  }

  /** `INSERT INTO exchange ...`: the row gets a fresh serial id; the answer
      is the new table and that id. */
  function Insert(s: Store, e: Exchange): (r: (Store, int))
    requires Valid(s)
    ensures Valid(r.0)
    ensures r.1 !in s.rows
    ensures r.0.rows.Keys == s.rows.Keys + {r.1}
    ensures r.1 in r.0.rows && r.0.rows[r.1] == e
    ensures forall id :: id in s.rows ==> r.0.rows[id] == s.rows[id]
  {
    (Store(s.rows[s.nextId := e], s.nextId + 1), s.nextId)
  }
}
