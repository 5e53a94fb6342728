/** The notification list page: text search over the store's list and the type colours. */
module NotificationPage {
  import opened Text
  import opened Seqs
  import opened NotificationStore

  /** The search condition: the query occurs in the server name or the message, ignoring case. */
  predicate Matches(query: string, n: Notification) {
    ContainsIgnoreCase(n.serverName, query) || ContainsIgnoreCase(n.message, query)
  }

  /** `filteredNotifications` for the debounced query: every copy of a matching entry is kept,
      in order, and no other entry. */
  function FilterNotifications(items: seq<Notification>, query: string): (r: seq<Notification>)
    ensures query == "" ==> r == items
    ensures query != "" ==> forall n :: n in r <==>
              n in items && (Contains(ToLower(n.serverName), ToLower(query)) || Contains(ToLower(n.message), ToLower(query)))
    ensures query != "" ==> forall n :: multiset(r)[n] == if Matches(query, n) then multiset(items)[n] else 0
    ensures Subsequence(r, items)
  {
    if query == "" then
      SubsequenceReflexive(items);
      items
    else
      FilterIsSubsequence(items, n => Matches(query, n));
      Filter(items, n => Matches(query, n))
  }

  /** A query that matches every entry returns the whole list. */
  lemma QueryMatchingAllKeepsAll(items: seq<Notification>, query: string)
    requires forall i :: 0 <= i < |items| ==> Matches(query, items[i])
    ensures FilterNotifications(items, query) == items
  {
    if query != "" {
      FilterAll(items, n => Matches(query, n));
    }
  }

  /** Searching is insensitive to the query's case: an upper-case query finds what its lower-case
      form finds. */
  lemma SearchIgnoresQueryCase(items: seq<Notification>, query: string)
    requires query != ""
    ensures FilterNotifications(items, query) == FilterNotifications(items, ToLower(query))
  {
    ToLowerIdempotent(query);
    assert ToLower(query) != "";
    assert forall n :: Matches(query, n) == Matches(ToLower(query), n);
    FilterCongruent(items, n => Matches(query, n), n => Matches(ToLower(query), n));
  }

  datatype TextColor = Red500 | Blue500 | Gray500

  /** The Tailwind class the colour stands for. */
  function ClassName(c: TextColor): string {
    match c
    case Red500 => "text-red-500"
    case Blue500 => "text-blue-500"
    case Gray500 => "text-gray-500"
  }

  /** `getNotificationColor`. */
  function NotificationColor(kind: string): (r: TextColor)
    ensures r == Red500 <==> kind == "cpu"
    ensures r == Blue500 <==> kind == "memory"
    ensures r == Gray500 <==> kind != "cpu" && kind != "memory"
  {
    if kind == "cpu" then Red500 else if kind == "memory" then Blue500 else Gray500
  }
}
