/** Loading contamination alerts from the object store's `alert` bucket and bucketing them by
    recency. The store's listing and object reads are inputs here. */
module ContaminationData {
  import opened Options
  import opened Text
  import opened Json
  import opened Seqs

  /** One listed object; `name` is `None` when the listing gives no (or an empty) name. */
  datatype ObjectInfo = ObjectInfo(name: Option<string>)

  /** The outcome of reading one object: it threw, or it produced a parsed JSON value. */
  datatype Fetched = FetchThrew | Fetched(data: Json)

  /** One alert file, reduced to what the page keeps. `date` is `None` (`undefined`) when the
      object name has no '/'; `warning` and `critical` are present only when truthy. The
      constant fields `status: ''`, `bucket: 'alert'` and `detail: ''` are left implicit. */
  datatype AlertItem = AlertItem(serverCode: string, date: Option<string>, warning: Option<Json>, critical: Option<Json>)

  const AlertBucket := "alert"

  /** Names ending in ".json" are the alert files. */
  predicate IsJsonName(o: ObjectInfo) {
    o.name.Some? && EndsWith(o.name.value, ".json")
  }

  /** A JSON object whose read succeeded with a truthy value. */
  predicate Usable(o: ObjectInfo, fetch: string -> Fetched) {
    IsJsonName(o) && fetch(o.name.value).Fetched? && Truthy(Some(fetch(o.name.value).data))
  }

  /** `data.key` kept only when truthy. */
  function TruthyProp(data: Json, key: string): (r: Option<Json>)
    ensures r.Some? ==> Truthy(r) && r == Prop(data, key)
    ensures r.None? <==> !Truthy(Prop(data, key))
  {
    if Truthy(Prop(data, key)) then Prop(data, key) else None
  }

  /** The item built from one alert file: server code and date are its first two
      '/'-separated segments. */
  function ItemOf(name: string, data: Json): (r: AlertItem)
    ensures r.warning == TruthyProp(data, "warning") && r.critical == TruthyProp(data, "critical")
  {
    var parts := Split(name, '/');
    AlertItem(parts[0], if |parts| > 1 then Some(parts[1]) else None,
              TruthyProp(data, "warning"), TruthyProp(data, "critical"))
  }

  /** A name "code/date/…" yields exactly that code and date. */
  lemma ItemOfReadsPath(code: string, date: string, rest: string, data: Json)
    requires '/' !in code && '/' !in date
    ensures ItemOf(code + "/" + date + "/" + rest, data).serverCode == code
    ensures ItemOf(code + "/" + date + "/" + rest, data).date == Some(date)
  {
    var name := code + "/" + date + "/" + rest;
    assert name == code + ['/'] + (date + ['/'] + rest);
    SplitAppend(code, date + ['/'] + rest, '/');
    SplitAppend(date, rest, '/');
  }

  /** A name without '/' is all server code, and its date is undefined. */
  lemma ItemOfFlatName(name: string, data: Json)
    requires '/' !in name
    ensures ItemOf(name, data).serverCode == name && ItemOf(name, data).date == None
  {
    SplitNoSeparator(name, '/');
  }

  /** `Usable` as the predicate a `filter` over the listing takes. */
  function UsableIn(fetch: string -> Fetched): ObjectInfo -> bool {
    o => Usable(o, fetch)
  }

  /** The item one usable object yields. */
  function ItemFrom(o: ObjectInfo, fetch: string -> Fetched): AlertItem
    requires Usable(o, fetch)
  {
    ItemOf(o.name.value, fetch(o.name.value).data)
  }

  /** The items of one successful listing: one per usable JSON object. */
  function LoadAlerts(objects: seq<ObjectInfo>, fetch: string -> Fetched): (r: seq<AlertItem>)
    ensures |r| <= |objects|
    ensures forall i | 0 <= i < |objects| && Usable(objects[i], fetch) :: ItemFrom(objects[i], fetch) in r
    ensures forall it | it in r :: exists i | 0 <= i < |objects| :: Usable(objects[i], fetch) && it == ItemFrom(objects[i], fetch)
  {
    if |objects| == 0 then []
    else
      var head := objects[0];
      var rest := LoadAlerts(objects[1..], fetch);
      assert forall i | 0 < i < |objects| :: objects[i] == objects[1..][i - 1];
      if Usable(head, fetch) then [ItemFrom(head, fetch)] + rest else rest
  }

  /** The j-th item is built from the j-th of the given objects, each of them usable. */
  predicate BuiltInOrder(usable: seq<ObjectInfo>, items: seq<AlertItem>, fetch: string -> Fetched) {
    |items| == |usable| && forall j | 0 <= j < |items| :: Usable(usable[j], fetch) && items[j] == ItemFrom(usable[j], fetch)
  }

  /** Loading keeps listing order: the j-th item is built from the j-th usable object, so there
      are exactly as many items as usable objects. */
  lemma {:induction false} LoadAlertsInListingOrder(objects: seq<ObjectInfo>, fetch: string -> Fetched)
    ensures BuiltInOrder(Filter(objects, UsableIn(fetch)), LoadAlerts(objects, fetch), fetch)
  {
    if |objects| > 0 {
      var tail := objects[1..];
      LoadAlertsInListingOrder(tail, fetch);
      FilterStep(objects, UsableIn(fetch));
      var r, usable := LoadAlerts(objects, fetch), Filter(objects, UsableIn(fetch));
      var r', usable' := LoadAlerts(tail, fetch), Filter(tail, UsableIn(fetch));
      if Usable(objects[0], fetch) {
        assert r == [ItemFrom(objects[0], fetch)] + r' && usable == [objects[0]] + usable';
        forall j | 0 < j < |r| ensures Usable(usable[j], fetch) && r[j] == ItemFrom(usable[j], fetch) {
          assert r[j] == r'[j - 1] && usable[j] == usable'[j - 1];
        }
      } else {
        assert r == r' && usable == usable';
      }
    }
  }

  /** `loadMinioData`: a listing that threw leaves the data as it was; otherwise it is replaced
      by one item per usable object of the listing, in listing order. */
  function LoadMinioData(current: seq<AlertItem>, listing: Option<seq<ObjectInfo>>, fetch: string -> Fetched): (r: seq<AlertItem>)
    ensures listing.None? ==> r == current
    ensures listing.Some? ==> BuiltInOrder(Filter(listing.value, UsableIn(fetch)), r, fetch)
  {
    match listing
    case None => current
    case Some(objects) => LoadAlertsInListingOrder(objects, fetch); LoadAlerts(objects, fetch)
  }

  /** The code the recency sets record for a server. */
  function Tagged(code: string): string {
    code + "-00"
  }

  datatype Recency = Today | ThisWeek | Older

  /** Where one item lands: dated today, or else dated from `weekAgo` (inclusive) up to `today`
      (exclusive) in string order. An undefined date compares false with everything. */
  function RecencyOf(it: AlertItem, today: string, weekAgo: string): (r: Recency)
    ensures r == Today <==> it.date == Some(today)
    ensures r == ThisWeek <==> (it.date.Some? && it.date.value != today &&
                               !StrLess(it.date.value, weekAgo) && StrLess(it.date.value, today))
  {
    if it.date == Some(today) then Today
    else if it.date.Some? && !StrLess(it.date.value, weekAgo) && StrLess(it.date.value, today) then ThisWeek
    else Older
  }

  /** A week-set entry lies strictly before today, so no item lands in both sets. */
  lemma ThisWeekBeforeToday(it: AlertItem, today: string, weekAgo: string)
    requires RecencyOf(it, today, weekAgo) == ThisWeek
    ensures it.date.Some? && StrLess(it.date.value, today) && !StrLess(it.date.value, weekAgo)
    ensures RecencyOf(it, today, weekAgo) != Today
  {
  }

  /** `getServersWithRecentData`: the tagged codes of items dated today, and of items from the
      past week that are not dated today. */
  method ServersWithRecentData(data: seq<AlertItem>, today: string, weekAgo: string)
    returns (todayServers: set<string>, weekServers: set<string>)
    ensures forall i | 0 <= i < |data| && RecencyOf(data[i], today, weekAgo) == Today ::
              Tagged(data[i].serverCode) in todayServers
    ensures forall i | 0 <= i < |data| && RecencyOf(data[i], today, weekAgo) == ThisWeek ::
              Tagged(data[i].serverCode) in weekServers
    ensures forall c | c in todayServers :: exists i | 0 <= i < |data| ::
              RecencyOf(data[i], today, weekAgo) == Today && c == Tagged(data[i].serverCode)
    ensures forall c | c in weekServers :: exists i | 0 <= i < |data| ::
              RecencyOf(data[i], today, weekAgo) == ThisWeek && c == Tagged(data[i].serverCode)
  {
    todayServers, weekServers := {}, {};
    var n := 0;
    while n < |data|
      invariant 0 <= n <= |data|
      invariant forall i | 0 <= i < n && RecencyOf(data[i], today, weekAgo) == Today ::
                  Tagged(data[i].serverCode) in todayServers
      invariant forall i | 0 <= i < n && RecencyOf(data[i], today, weekAgo) == ThisWeek ::
                  Tagged(data[i].serverCode) in weekServers
      invariant forall c | c in todayServers :: exists i | 0 <= i < n ::
                  RecencyOf(data[i], today, weekAgo) == Today && c == Tagged(data[i].serverCode)
      invariant forall c | c in weekServers :: exists i | 0 <= i < n ::
                  RecencyOf(data[i], today, weekAgo) == ThisWeek && c == Tagged(data[i].serverCode)
    {
      var item := data[n];
      match RecencyOf(item, today, weekAgo) {
        case Today => todayServers := todayServers + {Tagged(item.serverCode)};
        case ThisWeek => weekServers := weekServers + {Tagged(item.serverCode)};
        case Older =>
      }
      n := n + 1;
    }
  }
}
