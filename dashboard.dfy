/** `GET /dashboard`: the customer counts, the last chat of every customer
    and the customer list ordered by the time of its newest chat. */
module Dashboard {
  import opened Records
  import Store
  import Sorting
  import Auth

  /** The activity window, ten days in seconds. */
  const ActivityWindow: int := 10 * 24 * 60 * 60

  /** `last_active >= now - 10 days`; a customer without `last_active` never matches. */
  predicate IsActive(c: Customer, now: int)
  {
    match c.lastActive
    case None => false
    case Some(t) => t >= now - ActivityWindow
  }

  /** `count_documents({"last_active": {"$gte": ten_days_ago}})`. */
  function ActiveUsers(cs: seq<Customer>, now: int): (n: nat)
    ensures n <= |cs|
  {
    if |cs| == 0 then 0
    else ActiveUsers(cs[..|cs| - 1], now) + (if IsActive(cs[|cs| - 1], now) then 1 else 0)
  }

  /** The positions of the active customers. */
  ghost function ActiveIndices(cs: seq<Customer>, now: int): set<int>
  {
    set i | 0 <= i < |cs| && IsActive(cs[i], now)
  }

  /** The count is the number of customers that are active, one by one. */
  lemma {:induction false} ActiveUsersCountsActive(cs: seq<Customer>, now: int)
    ensures ActiveUsers(cs, now) == |ActiveIndices(cs, now)|
  {
    if |cs| > 0 {
      var init := cs[..|cs| - 1];
      ActiveUsersCountsActive(init, now);
      var last := if IsActive(cs[|cs| - 1], now) then {|cs| - 1} else {};
      assert ActiveIndices(cs, now) == ActiveIndices(init, now) + last;
      assert ActiveIndices(init, now) !! last;
    }
  }

  /** The window is inclusive at `now - 10 days` and open just before it. */
  lemma ActivityBoundary(c: Customer, now: int)
    ensures c.lastActive == Some(now - ActivityWindow) ==> IsActive(c, now)
    ensures c.lastActive == Some(now - ActivityWindow - 1) ==> !IsActive(c, now)
    ensures c.lastActive.None? ==> !IsActive(c, now)
  {
  }

  /** `u["last_chat"]`: the `user_message` of the customer's newest history
      document, or the empty string when there is none. */
  function LastChat(h: seq<HistoryDoc>, key: string): (r: string)
    ensures (forall d :: d in h ==> d.customerKey != key) ==> r == ""
    ensures (exists d :: d in h && d.customerKey == key) ==>
      exists d :: Store.IsNewest(h, key, d) && d.userMessage == r
  {
    match Store.Newest(h, key)
    case None => ""
    case Some(d) => d.userMessage
  }

  /** `last_chat_time`: the timestamp of the customer's newest history
      document, or 0 when there is none. */
  function LastChatTime(h: seq<HistoryDoc>, key: string): (r: int)
    ensures (forall d :: d in h ==> d.customerKey != key) ==> r == 0
    ensures forall d :: d in h && d.customerKey == key ==> d.timestamp <= r
    ensures (exists d :: d in h && d.customerKey == key) ==>
      exists d :: d in h && d.customerKey == key && d.timestamp == r
  {
    match Store.Newest(h, key)
    case None => 0
    case Some(d) => d.timestamp
  }

  /** A customer document after the loop has added its `last_chat` field. */
  datatype UserRow = UserRow(customer: Customer, lastChat: string)

  function CustomerOf(row: UserRow): Customer
  {
    row.customer
  }

  /** The customer list with every row annotated, in directory order. */
  function Annotate(h: seq<HistoryDoc>, cs: seq<Customer>): seq<UserRow>
  {
    seq(|cs|, i requires 0 <= i < |cs| => UserRow(cs[i], LastChat(h, cs[i].key)))
  }

  /** The sort key: `reverse=True` on the chat time is, for a stable sort,
      ascending order of its negation. */
  function Rank(h: seq<HistoryDoc>, row: UserRow): int
  {
    -LastChatTime(h, row.customer.key)
  }

  function RankFn(h: seq<HistoryDoc>): UserRow -> int
  {
    row => Rank(h, row)
  }

  /** The chat time never increases along `rows`. */
  predicate NewestChatFirst(h: seq<HistoryDoc>, rows: seq<UserRow>)
  {
    forall i, j :: 0 <= i < j < |rows| ==>
      LastChatTime(h, rows[i].customer.key) >= LastChatTime(h, rows[j].customer.key)
  }

  /** The rows of customers that have chatted at a positive time come before
      every row of a customer with no chat at all. */
  lemma NoChatsLast(h: seq<HistoryDoc>, rows: seq<UserRow>, i: int, j: int)
    requires NewestChatFirst(h, rows)
    requires 0 <= i < |rows| && 0 <= j < |rows|
    requires LastChatTime(h, rows[i].customer.key) > 0
    requires Store.Newest(h, rows[j].customer.key).None?
    ensures i < j
  {
  }

  /** The loop of `dashboard` that sets `u["last_chat"]` on every customer
      document, followed by `users.sort(key=last_chat_time, reverse=True)`. */
  method AnnotateAndSort(customers: seq<Customer>, history: seq<HistoryDoc>) returns (rows: seq<UserRow>)
    ensures rows == Sorting.Sort(Annotate(history, customers), RankFn(history))
  {
    var users := new UserRow[|customers|](i requires 0 <= i < |customers| => UserRow(customers[i], ""));
    var i := 0;
    while i < users.Length
      invariant 0 <= i <= users.Length
      invariant forall j :: 0 <= j < i ==> users[j] == UserRow(customers[j], LastChat(history, customers[j].key))
      invariant forall j :: i <= j < users.Length ==> users[j].customer == customers[j]
    {
      users[i] := users[i].(lastChat := LastChat(history, users[i].customer.key));
      i := i + 1;
    }
    assert users[..] == Annotate(history, customers);
    Sorting.SortInPlace(users, RankFn(history));
    rows := users[..];
  }

  /** What the dashboard page shows. */
  datatype DashboardView = DashboardView(totalUsers: nat, activeUsers: nat, users: seq<UserRow>)

  /** `dashboard`: gated by `require_admin`; counts all customers and the
      active ones, and lists every customer with its last chat, newest chat
      first, keeping directory order among equal chat times. */
  method Dashboard(session: map<string, bool>, customers: seq<Customer>, history: seq<HistoryDoc>, now: int)
    returns (r: Result<DashboardView>)
    ensures r.Err? <==> Auth.RequireAdmin(session).Fail?
    ensures r.Err? ==> r.error == Unauthorized
    ensures r.Ok? ==> r.value.totalUsers == |customers|
    ensures r.Ok? ==> r.value.activeUsers == |ActiveIndices(customers, now)|
    ensures r.Ok? ==> r.value.activeUsers <= r.value.totalUsers
    ensures r.Ok? ==> r.value.users == Sorting.Sort(Annotate(history, customers), RankFn(history))
    ensures r.Ok? ==> SortedListing(history, customers, r.value.users)
  {
    if Auth.RequireAdmin(session).Fail? {
      return Err(Unauthorized);
    }
    var totalUsers := |customers|;
    var activeUsers := ActiveUsers(customers, now);
    ActiveUsersCountsActive(customers, now);
    var users := AnnotateAndSort(customers, history);
    SortedListingHolds(history, customers);
    r := Ok(DashboardView(totalUsers, activeUsers, users));
  }

  /** What the source promises of the listed customers: a permutation of
      the directory (same customers, same multiplicities), each with its own
      last chat, newest chat first, customers without chats after those with
      a positive chat time, and directory order kept among equal chat times. */
  ghost predicate SortedListing(h: seq<HistoryDoc>, cs: seq<Customer>, rows: seq<UserRow>)
  {
    && |rows| == |cs|
    && multiset(rows) == multiset(Annotate(h, cs))
    && multiset(Sorting.Project(rows, CustomerOf)) == multiset(cs)
    && (forall i :: 0 <= i < |rows| ==> rows[i].lastChat == LastChat(h, rows[i].customer.key))
    && NewestChatFirst(h, rows)
    && (forall i, j :: (0 <= i < |rows| && 0 <= j < |rows| &&
          LastChatTime(h, rows[i].customer.key) > 0 &&
          Store.Newest(h, rows[j].customer.key).None?) ==> i < j)
    && (forall k :: Sorting.WithKey(rows, RankFn(h), k) == Sorting.WithKey(Annotate(h, cs), RankFn(h), k))
  }

  /** The sorted, annotated customer list has every property of `SortedListing`. */
  lemma SortedListingHolds(h: seq<HistoryDoc>, cs: seq<Customer>)
    ensures SortedListing(h, cs, Sorting.Sort(Annotate(h, cs), RankFn(h)))
  {
    var annotated := Annotate(h, cs);
    var rows := Sorting.Sort(annotated, RankFn(h));
    SortedRowsPermutation(h, cs);
    SortedRowsAnnotated(h, cs);
    SortedRowsNewestFirst(h, annotated);
    forall i, j | 0 <= i < |rows| && 0 <= j < |rows| && LastChatTime(h, rows[i].customer.key) > 0
                  && Store.Newest(h, rows[j].customer.key).None?
      ensures i < j
    {
      NoChatsLast(h, rows, i, j);
    }
    forall k ensures Sorting.WithKey(rows, RankFn(h), k) == Sorting.WithKey(annotated, RankFn(h), k) {
      Sorting.SortStable(annotated, RankFn(h), k);
    }
  }

  /** The sorted list holds the annotated rows, each exactly as often as before. */
  lemma SortedRowsPermutation(h: seq<HistoryDoc>, cs: seq<Customer>)
    ensures var rows := Sorting.Sort(Annotate(h, cs), RankFn(h));
      && multiset(rows) == multiset(Annotate(h, cs))
      && multiset(Sorting.Project(rows, CustomerOf)) == multiset(cs)
  {
    var annotated := Annotate(h, cs);
    Sorting.SortPermutation(annotated, RankFn(h));
    Sorting.SortProject(annotated, RankFn(h), CustomerOf);
    assert Sorting.Project(annotated, CustomerOf) == cs;
  }

  /** Every row of the sorted list carries the last chat of its own customer. */
  lemma SortedRowsAnnotated(h: seq<HistoryDoc>, cs: seq<Customer>)
    ensures var rows := Sorting.Sort(Annotate(h, cs), RankFn(h));
      forall i :: 0 <= i < |rows| ==> rows[i].lastChat == LastChat(h, rows[i].customer.key)
  {
    var annotated := Annotate(h, cs);
    var rows := Sorting.Sort(annotated, RankFn(h));
    Sorting.SortPermutation(annotated, RankFn(h));
    forall i | 0 <= i < |rows|
      ensures rows[i].lastChat == LastChat(h, rows[i].customer.key)
    {
      assert rows[i] in multiset(annotated);
    }
  }

  /** The sorted list is ordered newest chat first. */
  lemma SortedRowsNewestFirst(h: seq<HistoryDoc>, rows: seq<UserRow>)
    ensures NewestChatFirst(h, Sorting.Sort(rows, RankFn(h)))
  {
    var sorted := Sorting.Sort(rows, RankFn(h));
    Sorting.SortAscending(rows, RankFn(h));
    forall i, j | 0 <= i < j < |sorted|
      ensures LastChatTime(h, sorted[i].customer.key) >= LastChatTime(h, sorted[j].customer.key)
    {
      assert RankFn(h)(sorted[i]) <= RankFn(h)(sorted[j]);
    }
  }
}
