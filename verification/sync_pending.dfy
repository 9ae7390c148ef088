/** `syncPending`: one pass that replays every queued exchange request.
    The pass reads a snapshot of the store (entries and keys, in key order),
    posts each entry once, in order, with its three values converted to
    numbers, deletes an entry's key only when its post was answered `ok`,
    and counts those deletions. The network is an oracle: `replies[i]` is
    what the i-th post of the pass met. */
module SyncPending {
  import opened Basics
  import opened PendingQueue

  /** A JavaScript number as far as ids go: a finite value or `NaN`. */
  datatype Num = Finite(n: int) | NaN

  predicate IsDigit(c: char) {
    '0' <= c <= '9'
  }

  predicate AllDigits(s: string) {
    forall i :: 0 <= i < |s| ==> IsDigit(s[i])
  }

  /** The value of a decimal numeral, most significant digit first. */
  function DigitsValue(s: string): (r: nat)
    requires AllDigits(s)
  {
    if s == [] then 0 else DigitsValue(s[..|s| - 1]) * 10 + (s[|s| - 1] as int - '0' as int)
  }

  /** `Number(text)` for the strings a form holds: a decimal numeral gives
      its value, the empty string gives 0, anything else gives `NaN`. */
  function ToNumber(s: string): (r: Num)
    ensures r.Finite? <==> AllDigits(s)
    ensures s == "" ==> r == Finite(0)
    ensures r.Finite? ==> 0 <= r.n
  {
    if AllDigits(s) then Finite(DigitsValue(s)) else NaN
  }

  /** The decimal text of an id, as the page writes it into a form value. */
  function Decimal(n: nat): (r: string)
    ensures |r| >= 1 && AllDigits(r)
  {
    if n < 10 then [('0' as int + n) as char]
    else Decimal(n / 10) + [('0' as int + n % 10) as char]
  }

  /** Converting an id's decimal text back gives the id. */
  lemma {:induction false} ToNumberDecimal(n: nat)
    ensures ToNumber(Decimal(n)) == Finite(n)
  {
    var s := Decimal(n);
    if n < 10 {
      assert s[..|s| - 1] == [];
      assert DigitsValue(s) == n;
    } else {
      ToNumberDecimal(n / 10);
      assert s[..|s| - 1] == Decimal(n / 10);
      assert s[|s| - 1] as int - '0' as int == n % 10;
    }
  }

  /** Every id's decimal text converts back to the id. */
  lemma ToNumberDecimalAll()
    ensures forall n: nat :: ToNumber(Decimal(n)) == Finite(n)
  {
    forall n: nat
      ensures ToNumber(Decimal(n)) == Finite(n)
    {
      ToNumberDecimal(n);
    }
  }

  /** The JSON body of a replayed request. */
  datatype Payload = Payload(toProfile: Num, offeredSkill: Num, requestedSkill: Num)

  /** The body posted for an entry: each of its three texts converted by
      `Number`. */
  function ToPayload(e: Entry): (r: Payload)
    ensures r.toProfile.Finite? <==> AllDigits(e.toProfile)
    ensures r.offeredSkill.Finite? <==> AllDigits(e.offeredSkill)
    ensures r.requestedSkill.Finite? <==> AllDigits(e.requestedSkill)
    ensures forall n: nat :: e.toProfile == Decimal(n) ==> r.toProfile == Finite(n)
    ensures forall n: nat :: e.offeredSkill == Decimal(n) ==> r.offeredSkill == Finite(n)
    ensures forall n: nat :: e.requestedSkill == Decimal(n) ==> r.requestedSkill == Finite(n)
  {
    ToNumberDecimalAll();
    Payload(ToNumber(e.toProfile), ToNumber(e.offeredSkill), ToNumber(e.requestedSkill))
  }

  /** How many posts were answered `ok`. */
  function CountAccepted(replies: seq<Reply>): (r: nat)
    ensures r <= |replies|
  {
    if replies == [] then 0
    else (if replies[0].Accepted? then 1 else 0) + CountAccepted(replies[1..])
  }

  /** The keys of the snapshot items whose post was answered `ok`. */
  function AcceptedKeys(snap: seq<Item>, replies: seq<Reply>): (r: set<int>)
    requires |replies| == |snap|
    ensures r <= Keys(snap)
  {
    if snap == [] then {}
    else (if replies[0].Accepted? then {snap[0].key} else {}) + AcceptedKeys(snap[1..], replies[1..])
  }

  /** The bodies posted for a snapshot, one per item, in order. */
  function Payloads(snap: seq<Item>): (r: seq<Payload>)
    ensures |r| == |snap|
    ensures forall i :: 0 <= i < |snap| ==> r[i] == ToPayload(snap[i].entry)
  {
    if snap == [] then [] else [ToPayload(snap[0].entry)] + Payloads(snap[1..])
  }

  /** The running state of the loop after the last item. */
  datatype DrainResult = DrainResult(queue: Queue, synced: nat, sent: seq<Payload>)

  /** The loop over the snapshot, run against the live store `q`. Each item
      is posted once, in order; its key is deleted right after an `ok`. */
  function Drain(q: Queue, snap: seq<Item>, replies: seq<Reply>): (r: DrainResult)
    requires |replies| == |snap|
    ensures r.queue == Queue(Without(q.items, AcceptedKeys(snap, replies)), q.nextKey)
    ensures r.synced == CountAccepted(replies)
    ensures r.sent == Payloads(snap)
    decreases |snap|
  {
    if snap == [] then
      WithoutNothing(q.items);
      DrainResult(q, 0, [])
    else
      var accepted := replies[0].Accepted?;
      var q' := if accepted then Remove(q, snap[0].key) else q;
      var rest := Drain(q', snap[1..], replies[1..]);
      DrainStep(q, snap[0].key, accepted, AcceptedKeys(snap[1..], replies[1..]));
      DrainResult(rest.queue, rest.synced + (if accepted then 1 else 0),
                  [ToPayload(snap[0].entry)] + rest.sent)
  }

  /** One step of the loop: deleting the current key (or not) and then the
      keys the rest of the loop deletes is one batch deletion. */
  lemma DrainStep(q: Queue, key: int, accepted: bool, later: set<int>)
    ensures var q' := if accepted then Remove(q, key) else q;
            Without(q'.items, later)
            == Without(q.items, (if accepted then {key} else {}) + later)
  {
    if accepted {
      WithoutWithout(q.items, {key}, later);
    } else {
      assert {} + later == later;
    }
  }

  /** A key is among the accepted keys exactly when some snapshot item with
      that key was answered `ok`. */
  lemma {:induction false} AcceptedKeysMembership(snap: seq<Item>, replies: seq<Reply>, k: int)
    requires |replies| == |snap|
    ensures k in AcceptedKeys(snap, replies) <==>
              exists i :: 0 <= i < |snap| && snap[i].key == k && replies[i].Accepted?
    decreases |snap|
  {
    if snap != [] {
      AcceptedKeysMembership(snap[1..], replies[1..], k);
      if k in AcceptedKeys(snap[1..], replies[1..]) {
        var i :| 0 <= i < |snap[1..]| && snap[1..][i].key == k && replies[1..][i].Accepted?;
        assert snap[i + 1].key == k && replies[i + 1].Accepted?;
      }
      if exists i :: 0 <= i < |snap| && snap[i].key == k && replies[i].Accepted? {
        var i :| 0 <= i < |snap| && snap[i].key == k && replies[i].Accepted?;
        if i > 0 {
          assert snap[1..][i - 1].key == k && replies[1..][i - 1].Accepted?;
        }
      }
    }
  }

  /** With distinct keys, each `ok` deletes a different key. */
  lemma {:induction false} AcceptedKeysCount(snap: seq<Item>, replies: seq<Reply>)
    requires |replies| == |snap|
    requires Increasing(snap)
    ensures |AcceptedKeys(snap, replies)| == CountAccepted(replies)
    decreases |snap|
  {
    if snap != [] {
      AcceptedKeysCount(snap[1..], replies[1..]);
      AcceptedKeysMembership(snap[1..], replies[1..], snap[0].key);
      forall i | 0 <= i < |snap[1..]|
        ensures snap[1..][i].key != snap[0].key
      {
        assert snap[1..][i] == snap[i + 1];
      }
      assert snap[0].key !in AcceptedKeys(snap[1..], replies[1..]);
    }
  }

  /** The outcome of a pass: the store, the count, the bodies posted, and
      the status notice (the count it reports), if one is shown. */
  datatype PassResult = PassResult(queue: Queue, synced: nat, sent: seq<Payload>, notice: Option<nat>)

  /** One pass of `syncPending`, taken as atomic: the snapshot is the whole
      store. An empty store returns at once. */
  function Sync(q: Queue, replies: seq<Reply>): (r: PassResult)
    requires Valid(q)
    requires |replies| == |q.items|
    ensures Valid(r.queue)
    ensures q.items == [] ==> r == PassResult(q, 0, [], None)
    ensures |r.sent| == |q.items|
    ensures forall i :: 0 <= i < |q.items| ==> r.sent[i] == ToPayload(q.items[i].entry)
    ensures forall i :: 0 <= i < |q.items| ==>
              (q.items[i].key !in Keys(r.queue.items) <==> replies[i].Accepted?)
    ensures forall it :: it in r.queue.items ==> it in q.items
    ensures r.queue.nextKey == q.nextKey
    ensures Keys(r.queue.items) <= Keys(q.items)
    ensures r.synced == |Keys(q.items) - Keys(r.queue.items)|
    ensures r.synced == CountAccepted(replies) <= |q.items|
    ensures r.notice.Some? <==> r.synced > 0
    ensures r.notice.Some? ==> r.notice.value == r.synced
  {
    if q.items == [] then PassResult(q, 0, [], None)
    else
      var d := Drain(q, q.items, replies);
      var gone := AcceptedKeys(q.items, replies);
      WithoutKeepsValid(q, gone);
      KeysOfWithout(q.items, gone);
      AcceptedKeysCount(q.items, replies);
      assert Keys(q.items) - Keys(d.queue.items) == gone;
      AllKeysDecided(q, replies);
      PassResult(d.queue, d.synced, d.sent, if d.synced > 0 then Some(d.synced) else None)
  }

  /** For a valid store, an item's key is accepted exactly when its own post
      was answered `ok`. */
  lemma AllKeysDecided(q: Queue, replies: seq<Reply>)
    requires Valid(q)
    requires |replies| == |q.items|
    ensures forall i :: 0 <= i < |q.items| ==>
              (q.items[i].key in AcceptedKeys(q.items, replies) <==> replies[i].Accepted?)
  {
    forall i | 0 <= i < |q.items|
      ensures q.items[i].key in AcceptedKeys(q.items, replies) <==> replies[i].Accepted?
    {
      AcceptedKeysMembership(q.items, replies, q.items[i].key);
    }
  }

  /** Entries that are not part of the snapshot, such as ones added while a
      pass runs, are never deleted by it. */
  lemma DrainLeavesOthers(q: Queue, snap: seq<Item>, replies: seq<Reply>)
    requires |replies| == |snap|
    ensures forall it :: it in q.items && it.key !in Keys(snap) ==> it in Drain(q, snap, replies).queue.items
  {
  }

  /** Nothing the server rejected, and nothing whose post threw, leaves
      the store: the items kept are exactly those not answered `ok`. */
  lemma FailedItemsStay(q: Queue, replies: seq<Reply>)
    requires Valid(q)
    requires |replies| == |q.items|
    ensures forall i :: 0 <= i < |q.items| && !replies[i].Accepted? ==>
              q.items[i] in Sync(q, replies).queue.items
  {
  }

  /** The offline round trip: an entry saved while offline is posted once at
      the next pass, as numbers, and is gone from every later snapshot
      exactly when that post was answered `ok`. */
  lemma OfflineRoundTrip(e: Entry, reply: Reply, other: Reply)
    ensures var s := Submit(EmptyQueue, e, false, other);
            && !s.attempted && |s.queue.items| == 1
            && var p := Sync(s.queue, [reply]);
               && p.sent == [ToPayload(e)]
               && (p.queue.items == [] <==> reply.Accepted?)
               && (p.notice.Some? <==> reply.Accepted?)
  {
  }

  /** A form value holding an id's decimal text is posted as that id. */
  lemma ReplayedIdsAreNumbers(to: nat, offered: nat, requested: nat)
    ensures ToPayload(Entry(Decimal(to), Decimal(offered), Decimal(requested)))
            == Payload(Finite(to), Finite(offered), Finite(requested))
  {
  }
}
