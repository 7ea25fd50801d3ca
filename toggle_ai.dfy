/** `POST /toggle_ai/{user_key}`: sets the customer's `ai_enabled` flag to
    the submitted value and reports whether Mongo modified a document. */
module ToggleAi {
  import opened Records
  import Store
  import Auth

  /** The store after an `update_one` and its `modified_count`. */
  datatype UpdateResult = UpdateResult(customers: seq<Customer>, modifiedCount: nat)

  /** `update_one({"key": key}, {"$set": {"ai_enabled": enable}})`: the first
      customer with the key gets the flag; the document counts as modified
      only when the stored flag differed (or was missing). */
  function UpdateAiFlag(cs: seq<Customer>, key: string, enable: bool): (r: UpdateResult)
    ensures |r.customers| == |cs|
    ensures r.modifiedCount <= 1
    ensures match Store.FirstIndex(cs, key)
      case None => r == UpdateResult(cs, 0)
      case Some(i) =>
        if cs[i].aiEnabled == Some(enable) then r == UpdateResult(cs, 0)
        else r == UpdateResult(cs[i := cs[i].(aiEnabled := Some(enable))], 1)
  {
    if |cs| == 0 then UpdateResult(cs, 0)
    else if cs[0].key == key then
      if cs[0].aiEnabled == Some(enable) then UpdateResult(cs, 0)
      else UpdateResult([cs[0].(aiEnabled := Some(enable))] + cs[1..], 1)
    else
      var rest := UpdateAiFlag(cs[1..], key, enable);
      assert [cs[0]] + cs[1..] == cs;
      UpdateResult([cs[0]] + rest.customers, rest.modifiedCount)
  }

  /** Whatever the outcome, only the `ai_enabled` field of the matched
      customer can change: every other customer, and every key, stays. */
  lemma UpdateChangesOnlyTheFlag(cs: seq<Customer>, key: string, enable: bool, j: int)
    requires 0 <= j < |cs|
    ensures var r := UpdateAiFlag(cs, key, enable);
      && r.customers[j].key == cs[j].key
      && r.customers[j].lastActive == cs[j].lastActive
      && (cs[j].key != key ==> r.customers[j] == cs[j])
  {
  }

  /** Setting the flag twice modifies the store only the first time. */
  lemma {:induction false} UpdateIdempotent(cs: seq<Customer>, key: string, enable: bool)
    ensures var once := UpdateAiFlag(cs, key, enable);
      UpdateAiFlag(once.customers, key, enable) == UpdateResult(once.customers, 0)
  {
    var once := UpdateAiFlag(cs, key, enable);
    match Store.FirstIndex(cs, key)
    case None =>
    case Some(i) =>
      if cs[i].aiEnabled != Some(enable) {
        var c := once.customers;
        assert forall m :: 0 <= m < |c| ==> c[m].key == cs[m].key;
        assert Store.FirstIndex(c, key) == Some(i);
      }
  }

  /** The JSON answer: `{"status": "success"}` or `{"status": "failed"}` with 400. */
  datatype ToggleResponse = ToggleSucceeded | ToggleFailed

  function ResponseStatus(resp: ToggleResponse): (code: int)
    ensures resp.ToggleFailed? <==> code == StatusCode(BadRequest)
    ensures resp.ToggleSucceeded? <==> code == 200
  {
    match resp
    case ToggleSucceeded => 200
    case ToggleFailed => StatusCode(BadRequest)
  }

  /** The `customers` collection, updated in place. */
  class CustomerStore {
    var customers: seq<Customer>

    constructor (initial: seq<Customer>)
      ensures customers == initial
    {
      customers := initial;
    }

    /** `toggle_ai` as written: no session check. Success exactly when a
        customer has the key and its flag differed from `enable`; then that
        one customer's flag is set, otherwise the store is unchanged. */
    method ToggleAi(userKey: string, enable: bool) returns (resp: ToggleResponse)
      modifies this
      ensures match Store.FirstIndex(old(customers), userKey)
        case None => resp == ToggleFailed && customers == old(customers)
        case Some(i) =>
          if old(customers)[i].aiEnabled == Some(enable)
          then resp == ToggleFailed && customers == old(customers)
          else resp == ToggleSucceeded &&
               customers == old(customers)[i := old(customers)[i].(aiEnabled := Some(enable))]
    {
      var result := UpdateAiFlag(customers, userKey, enable);
      customers := result.customers;
      if result.modifiedCount == 0 {
        resp := ToggleFailed;
      } else {
        resp := ToggleSucceeded;
      }
    }

    /** `toggle_ai` behind `require_admin`, as every other admin route is:
        without an admin session the store is left untouched. */
    method AdminToggleAi(session: map<string, bool>, userKey: string, enable: bool)
      returns (r: Result<ToggleResponse>)
      modifies this
      ensures Auth.RequireAdmin(session).Fail? ==> r == Err(Unauthorized) && customers == old(customers)
      ensures Auth.RequireAdmin(session).Pass? ==>
        r.Ok? && customers == UpdateAiFlag(old(customers), userKey, enable).customers &&
        (r.value == ToggleSucceeded <==> UpdateAiFlag(old(customers), userKey, enable).modifiedCount == 1)
    {
      if Auth.RequireAdmin(session).Fail? {
        return Err(Unauthorized);
      }
      var resp := ToggleAi(userKey, enable);
      r := Ok(resp);
    }
  }

  /** The route as written: a request that carries no session at all,
      which the gate rejects, still changes a customer's flag. */
  method AnonymousRequestWrites() returns (resp: ToggleResponse, flag: Option<bool>)
    ensures Auth.RequireAdmin(map[]).Fail?
    ensures resp == ToggleSucceeded && flag == Some(false)
  {
    var store := new CustomerStore([Customer("guest", None, None)]);
    resp := store.ToggleAi("guest", false);
    flag := store.customers[0].aiEnabled;
  }
}
