/** The Mongo queries the routes issue, as functions over the collections
    taken as sequences in their natural (insertion) order. */
module Store {
  import opened Records

  /** The position of the first customer with `key`, the document that
      `find_one` returns and `update_one` updates. */
  function FirstIndex(cs: seq<Customer>, key: string): (r: Option<nat>)
    ensures r.None? <==> forall i :: 0 <= i < |cs| ==> cs[i].key != key
    ensures r.Some? ==> r.value < |cs| && cs[r.value].key == key
    ensures r.Some? ==> forall i :: 0 <= i < r.value ==> cs[i].key != key
  {
    if |cs| == 0 then None
    else if cs[0].key == key then Some(0)
    else match FirstIndex(cs[1..], key)
      case None => None
      case Some(i) => Some(i + 1)
  }

  /** `customers.find_one({"key": key})`. */
  function FindCustomer(cs: seq<Customer>, key: string): (r: Option<Customer>)
    ensures r.None? <==> forall c :: c in cs ==> c.key != key
    ensures r.Some? ==> r.value in cs && r.value.key == key
  {
    match FirstIndex(cs, key)
    case None => None
    case Some(i) => Some(cs[i])
  }

  /** `history.find({"customer_key": key})`: the documents of one customer, in store order. */
  function DocsOf(h: seq<HistoryDoc>, key: string): (r: seq<HistoryDoc>)
    ensures forall d :: multiset(r)[d] == if d.customerKey == key then multiset(h)[d] else 0
  {
    if |h| == 0 then []
    else
      assert h == h[..|h| - 1] + [h[|h| - 1]];
      DocsOf(h[..|h| - 1], key) + (if h[|h| - 1].customerKey == key then [h[|h| - 1]] else [])
  }

  /** `d` is one of the documents of customer `key` with the largest timestamp. */
  ghost predicate IsNewest(h: seq<HistoryDoc>, key: string, d: HistoryDoc)
  {
    d in h && d.customerKey == key &&
    forall e :: e in h && e.customerKey == key ==> e.timestamp <= d.timestamp
  }

  /** `history.find_one({"customer_key": key}, sort=[("timestamp", -1)])`;
      among documents of equal timestamp the first in store order is taken. */
  function Newest(h: seq<HistoryDoc>, key: string): (r: Option<HistoryDoc>)
    ensures r.None? <==> forall d :: d in h ==> d.customerKey != key
    ensures r.Some? ==> IsNewest(h, key, r.value)
  {
    if |h| == 0 then None
    else
      var rest := Newest(h[1..], key);
      assert forall d :: d in h ==> d == h[0] || d in h[1..];
      if h[0].customerKey != key then rest
      else if rest.Some? && rest.value.timestamp > h[0].timestamp then rest
      else Some(h[0])
  }
}
