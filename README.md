# Admin dashboard core, modelled in Dafny

This project models the logic of a small FastAPI console over MongoDB for
administering a customer-support chat service. The two Mongo collections,
`customers` and `history`, are plain sequences of documents in their natural
(insertion) order. The Mongo queries the routes issue (`find_one`, `find`
with a sort, `count_documents`, `update_one`) are functions over those
sequences. The modelled parts are:

- the admin credential check and session gate (`verify_admin`, `require_admin`);
- the login and logout routes, the only code that writes the session;
- the dashboard: the total and active customer counts, each customer's last
  chat, and the customer list sorted in place by newest chat, newest first;
- the chat page: one customer's history documents, oldest first, or 404;
- the AI-flag route, which *sets* `ai_enabled` to the submitted value and
  reports failure when Mongo modified no document.

Modules: `Records` (documents, errors), `Store` (query semantics), `Sorting`
(a stable insertion sort: the functional specification, its lemmas, and the
in-place array version), `Auth`, `Session`, `Dashboard`, `ChatHistory`,
`ToggleAi`.

Parameters instead of I/O: the configured username and password
(`ADMIN_USER`/`ADMIN_PASS`, each `None` when unset) are an `AdminConfig`
value. The current time `now` is an integer number of seconds. The
collections are passed in as sequences, and the session is passed in as a
`map<string, bool>`.

Facts about the code that the model keeps:
- the dashboard sorts by the time of the newest chat, not by `last_active`;
- `last_chat` is the `user_message` of the newest history document, whoever
  wrote it, and `""` when there is none;
- `toggle_ai` sets the flag to the submitted value; it does not negate it;
- there is one configured username and one password;
- `toggle_ai` does not check the session (see Findings).

## Model

| member | source | states |
|---|---|---|
| `Store.FirstIndex` | main.py:89 | position of the first customer with the key, `None` exactly when no customer has it |
| `Store.FindCustomer` | main.py:89-91 | `None` exactly when no customer has the key; otherwise a directory customer with that key |
| `Store.DocsOf` | main.py:93 | every history document of the customer with its full multiplicity, and no other document |
| `Store.Newest` | main.py:65 | `None` exactly when the customer has no history document; otherwise one of its documents of maximal timestamp |
| `Sorting.SortPermutation` | main.py:75 | the sorted list is a permutation of the input |
| `Sorting.SortProject` | main.py:75 | any projection of the sorted list (for instance the customers) is a permutation of the same projection of the input |
| `Sorting.SortAscending` | main.py:75 | the sorted list is ordered by key |
| `Sorting.SortStable` | main.py:75 | for every key, the elements with that key keep their input order; Python's sort is stable, also with `reverse=True` |
| `Sorting.InsertInPlace` | main.py:75 | one insertion step of the in-place sort turns the array prefix into the stable insertion of the next element |
| `Sorting.SortInPlace` | main.py:75 | the in-place array sort leaves exactly the stable sort of the old contents |
| `Auth.VerifyAdmin` | auth.py:10-11 | accepted iff the username and the password both equal their configured values |
| `Auth.UnsetCredentialsRejectAll` | auth.py:7-11 | with either setting unset, no pair of strings is accepted |
| `Auth.HalfRightRejected` | auth.py:10-11 | a right username with a wrong password, or the reverse, is rejected |
| `Auth.RequireAdmin` | auth.py:13-15 | passes iff the session holds a true `admin` entry; otherwise rejects with 401 |
| `Auth.EmptySessionRejected` | auth.py:13-15 | an empty session is rejected with 401 |
| `Session.AdminSession.Login` | main.py:36-41 | verified credentials set the `admin` flag (the gate then passes) and redirect to the dashboard; otherwise the session is unchanged and the redirect goes to the login page |
| `Session.AdminSession.Logout` | main.py:44-47 | the session becomes empty, the gate rejects, and the redirect goes to the login page |
| `Dashboard.ActiveUsers` | main.py:59-60 | the active count never exceeds the number of customers |
| `Dashboard.ActiveUsersCountsActive` | main.py:59-60 | the active count is the number of customers whose `last_active` is at or after `now - 10 days` |
| `Dashboard.ActivityBoundary` | main.py:59-60 | the window includes `now - 10 days`, excludes one second earlier, and never includes a customer without `last_active` |
| `Dashboard.LastChat` | main.py:64-66 | `""` when the customer has no history; otherwise the `user_message` of one of its newest documents |
| `Dashboard.LastChatTime` | main.py:69-73 | 0 when the customer has no history; otherwise the largest timestamp among its documents |
| `Dashboard.NoChatsLast` | main.py:69-75 | in a list ordered newest chat first, a customer with a positive chat time comes before every customer without chats |
| `Dashboard.SortedRowsPermutation` | main.py:63-75 | the listed rows are the annotated customers, each as often as in the directory |
| `Dashboard.SortedRowsAnnotated` | main.py:64-66 | every listed row carries the last chat of its own customer |
| `Dashboard.SortedRowsNewestFirst` | main.py:69-75 | the listed chat times never increase |
| `Dashboard.SortedListingHolds` | main.py:63-75 | the sorted, annotated list has all of the listing properties above, stability included |
| `Dashboard.AnnotateAndSort` | main.py:63-75 | the annotation loop over the array, then the in-place sort, produce the stable newest-first sort of the annotated directory |
| `Dashboard.Dashboard` | main.py:51-82 | 401 without an admin session; otherwise the total count of customers, the active count (at most the total), and a listing with all the listing properties |
| `ChatHistory.ChatHistory` | main.py:86-99 | 401 without an admin session; 404 iff no customer has the key; otherwise that customer and exactly its history documents, in non-decreasing timestamp order |
| `ChatHistory.ChatsAreExactlyTheCustomers` | main.py:93 | a document is shown iff it is a history document of that customer |
| `ToggleAi.UpdateAiFlag` | main.py:105 | no matching customer, or an equal stored flag: store unchanged, `modified_count` 0; otherwise only the first matching customer's flag is set, `modified_count` 1 |
| `ToggleAi.UpdateChangesOnlyTheFlag` | main.py:105 | no key or `last_active` changes, and customers with other keys are untouched |
| `ToggleAi.UpdateIdempotent` | main.py:105-106 | repeating the same write modifies nothing, so the second request reports failure |
| `ToggleAi.ResponseStatus` | main.py:106-108 | the answer has status 400 exactly when it reports failure, and 200 exactly when it reports success |
| `ToggleAi.CustomerStore.ToggleAi` | main.py:103-108 | the route as written: success iff a customer has the key and its flag differs from `enable`; then only that flag is set, otherwise the store is unchanged |
| `ToggleAi.CustomerStore.AdminToggleAi` | main.py:103-108 | the route behind `require_admin`: without an admin session it answers 401 and leaves the store untouched |
| `ToggleAi.AnonymousRequestWrites` | main.py:103-108 | an empty session fails the gate, yet calling the route on a stored customer answers success and sets its flag |

## Left out

- db.py: it only builds the Mongo client and collection handles from environment variables.
- The framework plumbing: app setup, session cookie signing, static files, Jinja2 rendering, the redirect and HTML responses of `root` and `login_page`, and the raising of `HTTPException`. The 401 is modelled as an error value.
- `load_dotenv`/`os.getenv`: the credentials and `now` are parameters. The session secret plays no part in the logic.
- The Mongo query engine: its queries are modelled as functions over the collections. `count_documents({})` is the length of the sequence.
- Timestamps are integer seconds. The conversion `.timestamp()` to float seconds is not modelled.
- `last_chat_time` calls `find_one` a second time. The model assumes the store is unchanged between the two calls and reads the newest document once.
- `Store.Newest`: when several documents share the largest timestamp, Mongo leaves the choice open. The model takes the first in store order, and its contract only promises one of the newest.
- `ChatHistory.ChatHistory`: Mongo's ascending sort does not promise any order among equal timestamps. The model keeps store order; the contract promises only the non-decreasing order and the exact contents.
- Documents are assumed well-formed: every customer has a `key` and every history document has a `user_message` and a timestamp. The `KeyError` a malformed document would raise is not modelled.
- Session values: only booleans are ever stored, so the session is a `map<string, bool>`. Python truthiness of other value types is not modelled.
- FastAPI's parsing of the form fields (`username`, `password`, and `enable` into a `bool`, with its 422 on bad input) is not modelled. The model starts from the parsed values.
- Concurrency between requests and races in the store are not modelled.
- The role tagging of transcript lines happens in the templates, which are not part of this model. The source has no route that injects admin messages, so none is modelled.
- Dashboard.SortedListingHolds: customers without chats are placed after others only against positive chat times. The 0 that `last_chat_time` returns for a customer without chats (main.py:73) cannot be told apart from a real chat at time 0, and a chat at a negative time sorts after it.

## Findings

| source | as written | input that shows it | evidently intended | confidence | as-written member | corrected member |
|---|---|---|---|---|---|---|
| main.py:103-108 | `toggle_ai` takes no request and never calls `require_admin`, so any client can change a customer's AI flag | a POST to `/toggle_ai/guest` with `enable=false` and no session, while customer `guest` has no flag stored | the route passes the session gate first, as the dashboard and chat routes do | medium; not executed | `ToggleAi.CustomerStore.ToggleAi`, `ToggleAi.AnonymousRequestWrites` | `ToggleAi.CustomerStore.AdminToggleAi` |
