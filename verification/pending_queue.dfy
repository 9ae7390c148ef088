/** The client's `pending` object store and the exchange form's submit
    handler. The store is auto-keyed: every added entry gets the next key of
    an increasing counter, and reading the store returns entries in key
    order. */
module PendingQueue {

  /** A queued request, as the form gives it: the three values are the raw
      strings read from the page. */
  datatype Entry = Entry(toProfile: string, offeredSkill: string, requestedSkill: string)

  /** A stored entry with its key. */
  datatype Item = Item(key: int, entry: Entry)

  /** The store's contents in key order, and the key the next add receives. */
  datatype Queue = Queue(items: seq<Item>, nextKey: int)

  /** A store that was never written; auto-increment keys start at 1. */
  const EmptyQueue := Queue([], 1)

  /** Keys strictly increase along a sequence of items. */
  predicate Increasing(items: seq<Item>) {
    forall i, j :: 0 <= i < j < |items| ==> items[i].key < items[j].key
  }

  /** Keys strictly increase along the store and lie below the counter. */
  predicate Valid(q: Queue) {
    && 1 <= q.nextKey
    && Increasing(q.items)
    && (forall i :: 0 <= i < |q.items| ==> 1 <= q.items[i].key < q.nextKey)
  }

  function Keys(items: seq<Item>): (r: set<int>)
    ensures forall k :: k in r <==> exists i :: 0 <= i < |items| && items[i].key == k
  {
    set i | 0 <= i < |items| :: items[i].key
  }

  /** `saveOffline`: add the entry under the store's next auto-increment
      key, which then moves on, so a key is never handed out twice even
      after deletions. There is no validation, and existing entries are kept
      as they are. */
  function SaveOffline(q: Queue, e: Entry): (r: Queue)
    requires Valid(q)
    ensures Valid(r)
    ensures |r.items| == |q.items| + 1
    ensures r.items[..|q.items|] == q.items
    ensures r.items[|q.items|].entry == e
    ensures r.items[|q.items|].key !in Keys(q.items)
    ensures r.items[|q.items|].key == q.nextKey && r.nextKey == q.nextKey + 1
  {
    Queue(q.items + [Item(q.nextKey, e)], q.nextKey + 1)
  }

  /** The items whose key is not in `gone`, in their order. */
  function Without(items: seq<Item>, gone: set<int>): (r: seq<Item>)
    ensures |r| <= |items|
    ensures forall it :: it in r <==> it in items && it.key !in gone
  {
    if items == [] then []
    else if items[0].key in gone then Without(items[1..], gone)
    else [items[0]] + Without(items[1..], gone)
  }

  /** `delete(key)`: drop the entry with that key, if any. */
  function Remove(q: Queue, key: int): (r: Queue)
    ensures r.nextKey == q.nextKey
    ensures Keys(r.items) == Keys(q.items) - {key}
    ensures forall it :: it in r.items <==> it in q.items && it.key != key
  {
    KeysOfWithout(q.items, {key});
    Queue(Without(q.items, {key}), q.nextKey)
  }

  lemma KeysOfWithout(items: seq<Item>, gone: set<int>)
    ensures Keys(Without(items, gone)) == Keys(items) - gone
  {
  }

  /** Removing no key keeps every item. */
  lemma {:induction false} WithoutNothing(items: seq<Item>)
    ensures Without(items, {}) == items
    decreases |items|
  {
    if items != [] {
      WithoutNothing(items[1..]);
      assert [items[0]] + items[1..] == items;
    }
  }

  /** Removing in two steps is removing the union in one. */
  lemma {:induction false} WithoutWithout(items: seq<Item>, a: set<int>, b: set<int>)
    ensures Without(Without(items, a), b) == Without(items, a + b)
    decreases |items|
  {
    if items != [] {
      WithoutWithout(items[1..], a, b);
      if items[0].key !in a {
        assert Without(items, a)[1..] == Without(items[1..], a);
      }
    }
  }

  /** Removing keeps the survivors in key order. */
  lemma {:induction false} WithoutIncreasing(items: seq<Item>, gone: set<int>)
    requires Increasing(items)
    ensures Increasing(Without(items, gone))
    decreases |items|
  {
    if items != [] {
      var tail := items[1..];
      assert Increasing(tail) by {
        forall i, j | 0 <= i < j < |tail| ensures tail[i].key < tail[j].key {
          assert tail[i] == items[i + 1] && tail[j] == items[j + 1];
        }
      }
      WithoutIncreasing(tail, gone);
      if items[0].key !in gone {
        var rest := Without(tail, gone);
        forall it | it in rest
          ensures items[0].key < it.key
        {
          var i :| 0 <= i < |tail| && tail[i] == it;
          assert items[i + 1] == it;
        }
        var r := [items[0]] + rest;
        forall i, j | 0 <= i < j < |r| ensures r[i].key < r[j].key {
          assert r[j] == rest[j - 1] && r[j] in rest;
          if i > 0 {
            assert r[i] == rest[i - 1];
          }
        }
      }
    }
  }

  /** Removing keeps the queue valid. */
  lemma WithoutKeepsValid(q: Queue, gone: set<int>)
    requires Valid(q)
    ensures Valid(Queue(Without(q.items, gone), q.nextKey))
  {
    WithoutIncreasing(q.items, gone);
    var r := Without(q.items, gone);
    forall i | 0 <= i < |r| ensures 1 <= r[i].key < q.nextKey {
      assert r[i] in r;
      var j :| 0 <= j < |q.items| && q.items[j] == r[i];
    }
  }

  /** Deleting a key twice is deleting it once. */
  lemma RemoveIdempotent(q: Queue, key: int)
    ensures Remove(Remove(q, key), key) == Remove(q, key)
  {
    WithoutWithout(q.items, {key}, {key});
    assert {key} + {key} == {key};
  }

  /** What the server or the network did with one POST. A rejection carries
      the `error` text of its body, or "" when it has none. */
  datatype Reply = Accepted | Rejected(error: string) | Threw

  /** What a submit leaves behind: the store, whether a request went out,
      and the text shown under the form. */
  datatype SubmitResult = SubmitResult(queue: Queue, attempted: bool, message: string)

  const SavedOffline := "Saved offline"
  const RequestSent := "Exchange request sent!"
  const SendFailed := "Error sending exchange request."

  /** The form's submit handler. `online` is the device's connectivity flag;
      `reply` is what the POST would meet, consulted only when one is sent. */
  function Submit(q: Queue, e: Entry, online: bool, reply: Reply): (r: SubmitResult)
    requires Valid(q)
    ensures Valid(r.queue)
    ensures r.attempted <==> online
    ensures !online || reply.Threw? ==> r.queue == SaveOffline(q, e) && r.message == SavedOffline
    ensures online && reply.Accepted? ==> r.queue == q && r.message == RequestSent
    ensures online && reply.Rejected? ==>
              && r.queue == q
              && r.message == (if reply.error != "" then reply.error else SendFailed)
  {
    if !online then SubmitResult(SaveOffline(q, e), false, SavedOffline)
    else
      match reply
      case Accepted => SubmitResult(q, true, RequestSent)
      case Rejected(err) => SubmitResult(q, true, if err != "" then err else SendFailed)
      case Threw => SubmitResult(SaveOffline(q, e), true, SavedOffline)
  }

  /** A submit adds at most one entry, and only when no answer came back:
      offline, or the request threw. */
  lemma SubmitQueuesAtMostOne(q: Queue, e: Entry, online: bool, reply: Reply)
    requires Valid(q)
    ensures var r := Submit(q, e, online, reply).queue;
            && r.items[..|q.items|] == q.items
            && |r.items| == |q.items| + (if !online || reply.Threw? then 1 else 0)
  {
  }
}
