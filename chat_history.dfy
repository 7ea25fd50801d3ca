/** `GET /chat/{user_key}`: one customer's history documents, oldest first. */
module ChatHistory {
  import opened Records
  import Store
  import Sorting
  import Auth

  /** What the chat page shows: the customer document and its chats. */
  datatype ChatPage = ChatPage(user: Customer, chats: seq<HistoryDoc>)

  function Timestamp(d: HistoryDoc): int
  {
    d.timestamp
  }

  /** `chat_history`: 401 without an admin session, 404 when no customer has
      the key, and otherwise exactly that customer's history documents in
      non-decreasing timestamp order (documents of equal timestamp in store
      order). */
  function ChatHistory(session: map<string, bool>, customers: seq<Customer>, history: seq<HistoryDoc>, userKey: string)
    : (r: Result<ChatPage>)
    ensures r == Err(Unauthorized) <==> Auth.RequireAdmin(session).Fail?
    ensures r == Err(NotFound) <==>
      Auth.RequireAdmin(session).Pass? && forall c :: c in customers ==> c.key != userKey
    ensures r.Err? ==> r.error == Unauthorized || r.error == NotFound
    ensures r.Ok? ==> r.value.user in customers && r.value.user.key == userKey
    ensures r.Ok? ==> Sorting.Ascending(r.value.chats, Timestamp)
    ensures r.Ok? ==> (forall d :: multiset(r.value.chats)[d] ==
                         (if d.customerKey == userKey then multiset(history)[d] else 0))
  {
    if Auth.RequireAdmin(session).Fail? then Err(Unauthorized)
    else match Store.FindCustomer(customers, userKey)
      case None => Err(NotFound)
      case Some(user) =>
        var docs := Store.DocsOf(history, userKey);
        Sorting.SortAscending(docs, Timestamp);
        Sorting.SortPermutation(docs, Timestamp);
        Ok(ChatPage(user, Sorting.Sort(docs, Timestamp)))
  }

  /** Only the customer's own documents appear, and all of them do. */
  lemma ChatsAreExactlyTheCustomers(session: map<string, bool>, customers: seq<Customer>,
                                    history: seq<HistoryDoc>, userKey: string, d: HistoryDoc)
    ensures var r := ChatHistory(session, customers, history, userKey);
      r.Ok? ==> (d in r.value.chats <==> d in history && d.customerKey == userKey)
  {
    var r := ChatHistory(session, customers, history, userKey);
    if r.Ok? {
      assert d in r.value.chats <==> multiset(r.value.chats)[d] > 0;
      assert d in history <==> multiset(history)[d] > 0;
    }
  }
}
