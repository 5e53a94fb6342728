/** The contamination page's derived views over the loaded alerts: the dates and sensor ids the
    selectors offer, the stall images that pass the active filters, and the deduplicated,
    searchable image list. */
module ContaminationViews {
  import opened Options
  import opened Text
  import opened Json
  import opened Seqs
  import opened SortedStrings
  import opened ServerTypes
  import opened ContaminationData

  /** `code.replace(/-00$/, '')`. */
  function StripSuffix00(code: string): (r: string)
    ensures EndsWith(code, "-00") ==> r + "-00" == code
    ensures !EndsWith(code, "-00") ==> r == code
  {
    if EndsWith(code, "-00") then code[..|code| - 3] else code
  }

  /** Selecting a server by the tagged code the recency sets hold selects that server's items. */
  lemma StripTagged(code: string)
    ensures StripSuffix00(Tagged(code)) == code
  {
    assert EndsWith(Tagged(code), "-00");
    assert Tagged(code)[..|code|] == code;
  }

  /** The page's `selectedSid`, which it compares with each item's date: `null` (all dates), or
      a date button's value, which is `undefined` for the button of the undated items. */
  datatype DateFilter = AllDates | OnDate(date: Option<string>)

  /** The page's selectors. `sid` is its `selectedSidFilter`; for `server`, `status` and `sid`,
      `None` is `null`, meaning "all". */
  datatype Selection = Selection(server: Option<string>, status: Option<string>, date: DateFilter, sid: Option<string>)

  predicate ServerSelected(it: AlertItem, server: Option<string>) {
    server.None? || it.serverCode == StripSuffix00(server.value)
  }

  predicate WantsWarning(sel: Selection) {
    sel.status.None? || sel.status == Some("warning")
  }

  predicate WantsCritical(sel: Selection) {
    sel.status.None? || sel.status == Some("critical")
  }

  /** The item passes the server, status and date selectors. */
  predicate ItemSelected(it: AlertItem, sel: Selection) {
    ServerSelected(it, sel.server) && (WantsWarning(sel) || WantsCritical(sel)) &&
    (sel.date.AllDates? || it.date == sel.date.date)
  }

  /** `!selectedServer`: no selection, or the empty code. */
  predicate NoServerChosen(server: Option<string>) {
    server.None? || server.value == ""
  }

  /** The effect that picks a server when none is chosen: the first loaded item's code when
      there are items, else the first roster entry's code; nothing happens while the roster is
      empty or a server is already chosen. */
  function DefaultServer(servers: seq<Server>, data: seq<AlertItem>, server: Option<string>): (r: Option<string>)
    ensures |servers| == 0 || !NoServerChosen(server) ==> r == server
    ensures |servers| > 0 && NoServerChosen(server) && |data| > 0 ==> r == Some(data[0].serverCode)
    ensures |servers| > 0 && NoServerChosen(server) && |data| == 0 ==> r == Some(servers[0].code)
  {
    if |servers| > 0 && |data| > 0 && NoServerChosen(server) then Some(data[0].serverCode)
    else if |servers| > 0 && NoServerChosen(server) then Some(servers[0].code)
    else server
  }

  /** The effect settles: re-running it on its own outcome changes nothing more. */
  lemma DefaultServerSettles(servers: seq<Server>, data: seq<AlertItem>, server: Option<string>)
    ensures DefaultServer(servers, data, DefaultServer(servers, data, server)) == DefaultServer(servers, data, server)
  {
  }

  // ---------------------------------------------------------------- dates

  /** The defined dates of the items of the selected server, in data order. */
  function DefinedDates(data: seq<AlertItem>, server: Option<string>): (r: seq<string>)
    ensures forall d :: d in r <==> exists k | 0 <= k < |data| :: ServerSelected(data[k], server) && data[k].date == Some(d)
  {
    if |data| == 0 then []
    else
      var rest := DefinedDates(data[1..], server);
      assert forall k | 0 < k < |data| :: data[k] == data[1..][k - 1];
      if ServerSelected(data[0], server) && data[0].date.Some? then [data[0].date.value] + rest else rest
  }

  function Somes(xs: seq<string>): (r: seq<Option<string>>)
    ensures |r| == |xs| && forall i | 0 <= i < |xs| :: r[i] == Some(xs[i])
  {
    seq(|xs|, i requires 0 <= i < |xs| => Some(xs[i]))
  }

  /** `getAvailableDates`: the distinct dates of the selected server's items (of all items when
      no server is selected), sorted as JavaScript sorts them: defined dates in string order,
      then `undefined` last. */
  function AvailableDates(data: seq<AlertItem>, server: Option<string>): (r: seq<Option<string>>)
    ensures forall d :: d in r <==> exists k | 0 <= k < |data| :: ServerSelected(data[k], server) && data[k].date == d
    ensures forall i, j | 0 <= i < j < |r| :: r[i] != r[j]
    ensures forall i, j | 0 <= i < j < |r| && r[j].Some? :: r[i].Some? && StrLess(r[i].value, r[j].value)
  {
    var sorted := SortDistinct(DefinedDates(data, server));
    var undefinedSeen := exists k | 0 <= k < |data| :: ServerSelected(data[k], server) && data[k].date.None?;
    var r := Somes(sorted) + (if undefinedSeen then [None] else []);
    assert forall d :: d in r <==> exists k | 0 <= k < |data| :: ServerSelected(data[k], server) && data[k].date == d by {
      forall d ensures d in r <==> exists k | 0 <= k < |data| :: ServerSelected(data[k], server) && data[k].date == d {
        if d.Some? {
          assert d in r <==> d.value in sorted;
        }
      }
    }
    assert forall i, j | 0 <= i < j < |r| :: r[i] != r[j] by {
      forall i, j | 0 <= i < j < |r| ensures r[i] != r[j] {
        if j < |sorted| {
          StrLessIrreflexive(sorted[i]);
        }
      }
    }
    r
  }

  /** Each date button selects items of the chosen server: those with that date, and for the
      `undefined` button the undated ones. */
  lemma DateButtonSelects(data: seq<AlertItem>, server: Option<string>, d: Option<string>)
    requires d in AvailableDates(data, server)
    ensures exists k | 0 <= k < |data| :: data[k].date == d && ItemSelected(data[k], Selection(server, None, OnDate(d), None))
    ensures forall it :: ItemSelected(it, Selection(server, None, OnDate(d), None)) <==> ServerSelected(it, server) && it.date == d
  {
    var k :| 0 <= k < |data| && ServerSelected(data[k], server) && data[k].date == d;
    assert ItemSelected(data[k], Selection(server, None, OnDate(d), None));
  }

  // ---------------------------------------------------------------- sensor ids

  /** The string elements of an array; other elements are left out. */
  function StringItems(items: seq<Json>): (r: seq<string>)
    ensures forall x :: x in r <==> JStr(x) in items
  {
    if |items| == 0 then []
    else
      var rest := StringItems(items[1..]);
      assert forall v :: v in items <==> v == items[0] || v in items[1..];
      if items[0].JStr? then [items[0].s] + rest else rest
  }

  /** The keys whose values have `typeof` 'object', other than "sidList". */
  function ObjectKeys(fields: seq<Field>): (r: seq<string>)
    ensures forall x :: x in r <==> exists i | 0 <= i < |fields| ::
              fields[i].key == x && x != "sidList" && IsObjectType(fields[i].value)
  {
    if |fields| == 0 then []
    else
      var rest := ObjectKeys(fields[1..]);
      assert forall i | 0 < i < |fields| :: fields[i] == fields[1..][i - 1];
      var f := fields[0];
      if f.key != "sidList" && IsObjectType(f.value) then [f.key] + rest else rest
  }

  /** The sensor ids one truthy status block contributes: its `sidList` when that is truthy, else
      the keys of its object-typed members. A truthy `sidList` that is not an array has no
      `forEach`, so the page throws. */
  function SidsOf(block: Json): (r: Result<seq<string>>)
    requires Truthy(Some(block))
    ensures Truthy(Prop(block, "sidList")) && Prop(block, "sidList").value.JArr? ==>
              r.Ok? && forall x :: x in r.value <==> JStr(x) in Prop(block, "sidList").value.items
    ensures Truthy(Prop(block, "sidList")) && !Prop(block, "sidList").value.JArr? ==> r.Throws?
    ensures !Truthy(Prop(block, "sidList")) ==>
              r.Ok? && forall x :: x in r.value <==> exists f | f in Entries(block).value ::
                f.key == x && x != "sidList" && IsObjectType(f.value)
  {
    var list := Prop(block, "sidList");
    if Truthy(list) then
      if list.value.JArr? then Ok(StringItems(list.value.items))
      else Throws("sidList.forEach is not a function")
    else
      var keys := ObjectKeys(Entries(block).value);
      assert forall x :: x in keys <==> exists f | f in Entries(block).value ::
                f.key == x && x != "sidList" && IsObjectType(f.value) by {
        forall x ensures x in keys ==> exists f | f in Entries(block).value ::
                           f.key == x && x != "sidList" && IsObjectType(f.value) {
          if x in keys {
            var i :| 0 <= i < |Entries(block).value| && Entries(block).value[i].key == x &&
                     x != "sidList" && IsObjectType(Entries(block).value[i].value);
            assert Entries(block).value[i] in Entries(block).value;
          }
        }
      }
      Ok(keys)
  }

  /** The sensor ids one item contributes: warning block first, then critical. */
  function ItemSids(it: AlertItem, sel: Selection): (r: Result<seq<string>>)
    requires it.warning.Some? ==> Truthy(it.warning)
    requires it.critical.Some? ==> Truthy(it.critical)
  {
    if !ItemSelected(it, sel) then Ok([])
    else
      var w := if it.warning.Some? && WantsWarning(sel) then SidsOf(it.warning.value) else Ok([]);
      var c := if it.critical.Some? && WantsCritical(sel) then SidsOf(it.critical.value) else Ok([]);
      if w.Throws? then w
      else if c.Throws? then c
      else Ok(w.value + c.value)
  }

  /** The status blocks of an item are truthy when present, as loading leaves them. */
  predicate BlocksTruthy(it: AlertItem) {
    (it.warning.Some? ==> Truthy(it.warning)) && (it.critical.Some? ==> Truthy(it.critical))
  }

  /** Alert items as loaded: status blocks are kept only when truthy. */
  predicate WellLoaded(data: seq<AlertItem>) {
    forall k | 0 <= k < |data| :: BlocksTruthy(data[k])
  }

  /** All contributed sensor ids in data order, or the first throw. */
  function CollectSids(data: seq<AlertItem>, sel: Selection): (r: Result<seq<string>>)
    requires WellLoaded(data)
    ensures r.Throws? <==> exists k | 0 <= k < |data| :: ItemSids(data[k], sel).Throws?
    ensures r.Ok? ==> forall x :: x in r.value <==> exists k | 0 <= k < |data| :: x in ItemSids(data[k], sel).value
  {
    if |data| == 0 then Ok([])
    else
      assert forall k | 0 < k < |data| :: data[k] == data[1..][k - 1];
      var head := ItemSids(data[0], sel);
      var rest := CollectSids(data[1..], sel);
      if head.Throws? then head
      else if rest.Throws? then rest
      else Ok(head.value + rest.value)
  }

  /** `getAvailableSids`: the distinct sensor ids of the selected items, sorted; or the throw. */
  function AvailableSids(data: seq<AlertItem>, sel: Selection): (r: Result<seq<string>>)
    requires WellLoaded(data)
    ensures r.Throws? <==> exists k | 0 <= k < |data| :: ItemSids(data[k], sel).Throws?
    ensures r.Ok? ==> StrictlySorted(r.value)
    ensures r.Ok? ==> forall x :: x in r.value <==> exists k | 0 <= k < |data| :: x in ItemSids(data[k], sel).value
  {
    match CollectSids(data, sel)
    case Throws(e) => Throws(e)
    case Ok(sids) => Ok(SortDistinct(sids))
  }

  /** Loaded items satisfy the precondition of the views. */
  lemma LoadedItemsWellLoaded(objects: seq<ObjectInfo>, fetch: string -> Fetched)
    ensures WellLoaded(LoadAlerts(objects, fetch))
  {
  }
  // ---------------------------------------------------------------- images

  /** One stall image the page can show. */
  datatype StallImage = StallImage(
    serverCode: string, status: string, bucket: string, date: Option<string>, sid: string,
    stallId: string, image: Json, count: Option<Json>, max: Option<Json>, path: string)

  /** `${item.date}`: the date, or "undefined". */
  function RenderDate(date: Option<string>): string {
    match date
    case Some(d) => d
    case None => "undefined"
  }

  /** `${serverCode}/${date}/${status}/${image}.jpg`. */
  function ImagePath(it: AlertItem, status: string, image: Json): string {
    it.serverCode + "/" + RenderDate(it.date) + "/" + status + "/" + Render(image) + ".jpg"
  }

  /** A stall entry produces an image only when the entry and its `image` are truthy. */
  predicate HasImage(stallInfo: Json) {
    Truthy(Some(stallInfo)) && Truthy(Prop(stallInfo, "image"))
  }

  /** `HasImage` of an entry's value, as the predicate of a `filter`. */
  predicate HasImageEntry(entry: Field) {
    HasImage(entry.value)
  }

  function ImageOf(it: AlertItem, status: string, sid: string, entry: Field): StallImage
    requires HasImage(entry.value)
  {
    var image := Prop(entry.value, "image").value;
    StallImage(it.serverCode, status, AlertBucket, it.date, sid, entry.key, image,
               Prop(entry.value, "count"), Prop(entry.value, "max"), ImagePath(it, status, image))
  }

  /** The images of one sensor's stall entries: the j-th image comes from the j-th entry that has
      one, so entries without an image are skipped and the rest keep their order. */
  function StallImages(it: AlertItem, status: string, sid: string, stalls: seq<Field>): (r: seq<StallImage>)
    ensures forall img :: img in r <==> exists j | 0 <= j < |stalls| ::
              HasImage(stalls[j].value) && img == ImageOf(it, status, sid, stalls[j])
  {
    if |stalls| == 0 then []
    else
      var rest := StallImages(it, status, sid, stalls[1..]);
      assert forall j | 0 < j < |stalls| :: stalls[j] == stalls[1..][j - 1];
      if HasImage(stalls[0].value) then [ImageOf(it, status, sid, stalls[0])] + rest else rest
  }

  /** Stall images keep entry order: the j-th image comes from the j-th entry that has one, so
      there are as many images as such entries. */
  lemma {:induction false} StallImagesInEntryOrder(it: AlertItem, status: string, sid: string, stalls: seq<Field>)
    ensures var r, kept := StallImages(it, status, sid, stalls), Filter(stalls, HasImageEntry);
            |r| == |kept| && forall j | 0 <= j < |r| :: HasImage(kept[j].value) && r[j] == ImageOf(it, status, sid, kept[j])
  {
    if |stalls| > 0 {
      var tail := stalls[1..];
      StallImagesInEntryOrder(it, status, sid, tail);
      FilterStep(stalls, HasImageEntry);
      StallImagesStep(it, status, sid, stalls);
      if HasImage(stalls[0].value) {
        ImagesFromEntriesCons(it, status, sid, stalls[0], StallImages(it, status, sid, tail), Filter(tail, HasImageEntry));
      }
    }
  }

  /** One step of `StallImages`: the head entry contributes its image when it has one. */
  lemma StallImagesStep(it: AlertItem, status: string, sid: string, stalls: seq<Field>)
    requires |stalls| > 0
    ensures HasImage(stalls[0].value) ==>
              StallImages(it, status, sid, stalls) == [ImageOf(it, status, sid, stalls[0])] + StallImages(it, status, sid, stalls[1..])
    ensures !HasImage(stalls[0].value) ==> StallImages(it, status, sid, stalls) == StallImages(it, status, sid, stalls[1..])
  {
  }

  /** Prefixing an entry and its image keeps the j-th image coming from the j-th entry. */
  lemma ImagesFromEntriesCons(it: AlertItem, status: string, sid: string, e: Field, r: seq<StallImage>, kept: seq<Field>)
    requires HasImage(e.value)
    requires |r| == |kept| && forall j | 0 <= j < |r| :: HasImage(kept[j].value) && r[j] == ImageOf(it, status, sid, kept[j])
    ensures var r2, kept2 := [ImageOf(it, status, sid, e)] + r, [e] + kept;
            |r2| == |kept2| && forall j | 0 <= j < |r2| :: HasImage(kept2[j].value) && r2[j] == ImageOf(it, status, sid, kept2[j])
  {
    var r2, kept2 := [ImageOf(it, status, sid, e)] + r, [e] + kept;
    forall j | 0 < j < |r2| ensures HasImage(kept2[j].value) && r2[j] == ImageOf(it, status, sid, kept2[j]) {
      assert r2[j] == r[j - 1] && kept2[j] == kept[j - 1];
    }
  }

  /** The sensors of one status block that pass the sensor filter. */
  predicate SidPasses(f: Field, sel: Selection) {
    f.key != "sidList" && IsObjectType(f.value) && (sel.sid.None? || f.key == sel.sid.value)
  }

  /** The images one sensor of a block contributes: those of its stall entries when it passes the
      sensor filter, none otherwise. A passing `null` sensor has none either: it throws instead. */
  function SensorImages(it: AlertItem, status: string, sel: Selection): Field -> seq<StallImage> {
    f => if SidPasses(f, sel) && Entries(f.value).Some? then StallImages(it, status, f.key, Entries(f.value).value) else []
  }

  /** The images of one status block, sensor by sensor in key order. `Object.keys` throws on a
      `null` sensor value. */
  function BlockImages(it: AlertItem, status: string, sensors: seq<Field>, sel: Selection): (r: Result<seq<StallImage>>)
    ensures r.Throws? <==> exists i | 0 <= i < |sensors| :: SidPasses(sensors[i], sel) && sensors[i].value.JNull?
    ensures r.Ok? ==> r.value == FlatMap(sensors, SensorImages(it, status, sel))
    ensures r.Ok? ==> forall img | img in r.value :: img.status == status
    ensures r.Ok? ==> forall img :: img in r.value <==> exists i | 0 <= i < |sensors| ::
              SidPasses(sensors[i], sel) && img in StallImages(it, status, sensors[i].key, Entries(sensors[i].value).value)
  {
    if |sensors| == 0 then Ok([])
    else
      assert forall i | 0 < i < |sensors| :: sensors[i] == sensors[1..][i - 1];
      var f := sensors[0];
      var rest := BlockImages(it, status, sensors[1..], sel);
      if !SidPasses(f, sel) then rest
      else match Entries(f.value)
        case None => Throws("Cannot convert undefined or null to object")
        case Some(stalls) =>
          if rest.Throws? then rest else Ok(StallImages(it, status, f.key, stalls) + rest.value)
  }

  /** The sensors of the status block an item contributes under `status`, when the status
      filter wants that block and the item has it. */
  function WantedSensors(it: AlertItem, status: string, sel: Selection): Option<seq<Field>> {
    var block := if status == "warning" && WantsWarning(sel) then it.warning
                 else if status == "critical" && WantsCritical(sel) then it.critical
                 else None;
    if block.Some? then Entries(block.value) else None
  }

  /** The wanted block under `status` throws. */
  predicate BlockThrows(it: AlertItem, status: string, sel: Selection) {
    WantedSensors(it, status, sel).Some? && BlockImages(it, status, WantedSensors(it, status, sel).value, sel).Throws?
  }

  /** `img` is one of the images of the wanted block under `status`. */
  predicate InBlock(it: AlertItem, status: string, sel: Selection, img: StallImage) {
    WantedSensors(it, status, sel).Some? &&
    var b := BlockImages(it, status, WantedSensors(it, status, sel).value, sel);
    b.Ok? && img in b.value
  }

  /** The first `m` images are warnings and the rest criticals. */
  predicate WarningsThenCriticals(s: seq<StallImage>, m: nat) {
    m <= |s| && (forall i | 0 <= i < m :: s[i].status == "warning") &&
    (forall i | m <= i < |s| :: s[i].status == "critical")
  }

  /** The images one selected item contributes: warning block first, then critical. */
  function ItemImages(it: AlertItem, sel: Selection): (r: Result<seq<StallImage>>)
    requires it.warning.Some? ==> Truthy(it.warning)
    requires it.critical.Some? ==> Truthy(it.critical)
    ensures !ItemSelected(it, sel) ==> r == Ok([])
    ensures r.Throws? <==> ItemSelected(it, sel) && (BlockThrows(it, "warning", sel) || BlockThrows(it, "critical", sel))
  {
    if !ItemSelected(it, sel) then Ok([])
    else
      var ws, cs := WantedSensors(it, "warning", sel), WantedSensors(it, "critical", sel);
      var w := if ws.Some? then BlockImages(it, "warning", ws.value, sel) else Ok([]);
      var c := if cs.Some? then BlockImages(it, "critical", cs.value, sel) else Ok([]);
      if w.Throws? then w
      else if c.Throws? then c
      else
        Ok(w.value + c.value)
  }

  /** An image is listed for an item exactly when the item is selected and the image belongs to
      the wanted warning block or the wanted critical block. */
  lemma ItemImagesExactly(it: AlertItem, sel: Selection, img: StallImage)
    requires BlocksTruthy(it)
    ensures ItemImages(it, sel).Ok? ==> (img in ItemImages(it, sel).value <==>
              ItemSelected(it, sel) && (InBlock(it, "warning", sel, img) || InBlock(it, "critical", sel, img)))
  {
  }

  /** Warning images followed by critical images split where the warnings end. */
  lemma WarningsThenCriticalsConcat(w: seq<StallImage>, c: seq<StallImage>)
    requires forall img | img in w :: img.status == "warning"
    requires forall img | img in c :: img.status == "critical"
    ensures WarningsThenCriticals(w + c, |w|)
  {
    var r := w + c;
    assert forall i | 0 <= i < |w| :: r[i] == w[i] && w[i] in w;
    assert forall i | |w| <= i < |r| :: r[i] == c[i - |w|] && c[i - |w|] in c;
  }

  /** An item lists its warning images first, then its critical ones. */
  lemma ItemImagesWarningsFirst(it: AlertItem, sel: Selection)
    requires BlocksTruthy(it)
    ensures ItemImages(it, sel).Ok? ==> exists m | 0 <= m <= |ItemImages(it, sel).value| ::
              WarningsThenCriticals(ItemImages(it, sel).value, m)
  {
    var r := ItemImages(it, sel);
    if r.Ok? {
      if ItemSelected(it, sel) {
        var ws, cs := WantedSensors(it, "warning", sel), WantedSensors(it, "critical", sel);
        var w := if ws.Some? then BlockImages(it, "warning", ws.value, sel).value else [];
        var c := if cs.Some? then BlockImages(it, "critical", cs.value, sel).value else [];
        WarningsThenCriticalsConcat(w, c);
        assert r.value == w + c;
      } else {
        assert WarningsThenCriticals(r.value, 0);
      }
    }
  }

  /** A listing that does not throw holds every image of every item. */
  lemma {:induction false} AvailableImagesComplete(data: seq<AlertItem>, sel: Selection, k: nat, img: StallImage)
    requires WellLoaded(data) && k < |data|
    ensures AvailableImages(data, sel).Ok? && img in ItemImages(data[k], sel).value ==> img in AvailableImages(data, sel).value
  {
    if k > 0 {
      AvailableImagesComplete(data[1..], sel, k - 1, img);
      assert data[1..][k - 1] == data[k];
    }
  }

  /** `img` is the image of a stall entry of sensor `f`. */
  predicate FromStallOf(it: AlertItem, status: string, f: Field, img: StallImage) {
    Entries(f.value).Some? &&
    exists j | 0 <= j < |Entries(f.value).value| ::
      HasImage(Entries(f.value).value[j].value) && img == ImageOf(it, status, f.key, Entries(f.value).value[j])
  }

  /** `img` is the image of a stall entry of a passing sensor of the wanted block under `status`. */
  predicate FromWantedBlock(it: AlertItem, status: string, sel: Selection, img: StallImage) {
    WantedSensors(it, status, sel).Some? &&
    exists i | 0 <= i < |WantedSensors(it, status, sel).value| ::
      SidPasses(WantedSensors(it, status, sel).value[i], sel) &&
      FromStallOf(it, status, WantedSensors(it, status, sel).value[i], img)
  }

  /** When a block does not throw, its images are exactly the images of the stall entries of its
      passing sensors. */
  lemma InBlockExactly(it: AlertItem, status: string, sel: Selection, img: StallImage)
    requires !BlockThrows(it, status, sel)
    ensures InBlock(it, status, sel, img) <==> FromWantedBlock(it, status, sel, img)
  {
    if WantedSensors(it, status, sel).Some? {
      var sensors := WantedSensors(it, status, sel).value;
      if InBlock(it, status, sel, img) {
        var i :| 0 <= i < |sensors| && SidPasses(sensors[i], sel) &&
                 img in StallImages(it, status, sensors[i].key, Entries(sensors[i].value).value);
        assert FromStallOf(it, status, sensors[i], img);
      }
      if FromWantedBlock(it, status, sel, img) {
        var i :| 0 <= i < |sensors| && SidPasses(sensors[i], sel) && FromStallOf(it, status, sensors[i], img);
        assert img in StallImages(it, status, sensors[i].key, Entries(sensors[i].value).value);
      }
    }
  }

  /** An item that does not throw lists an image exactly when it is selected and the image comes
      from a stall entry of a passing sensor of one of its wanted blocks. */
  lemma ItemImagesFromEntries(it: AlertItem, sel: Selection, img: StallImage)
    requires BlocksTruthy(it)
    ensures ItemImages(it, sel).Ok? ==> (img in ItemImages(it, sel).value <==>
              ItemSelected(it, sel) && (FromWantedBlock(it, "warning", sel, img) || FromWantedBlock(it, "critical", sel, img)))
  {
    if ItemImages(it, sel).Ok? && ItemSelected(it, sel) {
      ItemImagesExactly(it, sel, img);
      InBlockExactly(it, "warning", sel, img);
      InBlockExactly(it, "critical", sel, img);
    }
  }

  /** `getAvailableImages`, when it does not throw, lists an image exactly when some selected item
      has a wanted status block with a sensor that passes the sensor filter and a stall entry of
      that sensor whose `image` is truthy, the image being the one built from that entry. */
  lemma AvailableImagesExactly(data: seq<AlertItem>, sel: Selection, img: StallImage)
    requires WellLoaded(data)
    ensures AvailableImages(data, sel).Ok? ==> (img in AvailableImages(data, sel).value <==>
              exists k | 0 <= k < |data| :: ItemSelected(data[k], sel) &&
                (FromWantedBlock(data[k], "warning", sel, img) || FromWantedBlock(data[k], "critical", sel, img)))
  {
    if AvailableImages(data, sel).Ok? {
      forall k | 0 <= k < |data|
        ensures img in ItemImages(data[k], sel).value <==> (ItemSelected(data[k], sel) &&
                  (FromWantedBlock(data[k], "warning", sel, img) || FromWantedBlock(data[k], "critical", sel, img)))
        ensures img in ItemImages(data[k], sel).value ==> img in AvailableImages(data, sel).value
      {
        ItemImagesFromEntries(data[k], sel, img);
        AvailableImagesComplete(data, sel, k, img);
      }
    }
  }

  /** Images are listed item by item in data order: what each item contributes, concatenated. */
  lemma {:induction false} AvailableImagesInDataOrder(data: seq<AlertItem>, sel: Selection)
    requires WellLoaded(data)
    ensures AvailableImages(data, sel).Ok? ==> AvailableImages(data, sel).value == FlatMap(data, ContributionOf(sel))
  {
    if |data| > 0 {
      AvailableImagesInDataOrder(data[1..], sel);
    }
  }

  /** Every image an item contributes passes the active filters, comes from a stall entry with
      a truthy image, and is stored under `code/date/status/image.jpg`. */
  lemma ItemImagesRespectFilters(it: AlertItem, sel: Selection, img: StallImage)
    requires it.warning.Some? ==> Truthy(it.warning)
    requires it.critical.Some? ==> Truthy(it.critical)
    ensures ItemImages(it, sel).Ok? && img in ItemImages(it, sel).value ==>
              ItemSelected(it, sel)
              && img.serverCode == it.serverCode && img.date == it.date && img.bucket == AlertBucket
              && ((img.status == "warning" && WantsWarning(sel)) || (img.status == "critical" && WantsCritical(sel)))
              && (sel.sid.None? || img.sid == sel.sid.value)
              && Truthy(Some(img.image)) && img.path == ImagePath(it, img.status, img.image)
  {
  }

  /** The images an item contributes, as the function a `flatMap` over the items takes; an item
      that throws contributes none (it ends the listing instead). */
  function ContributionOf(sel: Selection): AlertItem -> seq<StallImage> {
    it => if BlocksTruthy(it) && ItemImages(it, sel).Ok? then ItemImages(it, sel).value else []
  }

  /** All images of the selected items, item by item in data order, or the first throw. */
  function AvailableImages(data: seq<AlertItem>, sel: Selection): (r: Result<seq<StallImage>>)
    requires WellLoaded(data)
    ensures r.Throws? <==> exists k | 0 <= k < |data| :: ItemImages(data[k], sel).Throws?
    ensures r.Ok? ==> forall img | img in r.value :: exists k | 0 <= k < |data| ::
              ItemImages(data[k], sel).Ok? && img in ItemImages(data[k], sel).value
  {
    if |data| == 0 then Ok([])
    else
      assert forall k | 0 < k < |data| :: data[k] == data[1..][k - 1];
      var head := ItemImages(data[0], sel);
      var rest := AvailableImages(data[1..], sel);
      if head.Throws? then head
      else if rest.Throws? then rest
      else Ok(head.value + rest.value)
  }

  /** `getAvailableImages`: every image it lists passes the filters and has its storage path. */
  lemma AvailableImagesRespectFilters(data: seq<AlertItem>, sel: Selection, img: StallImage)
    requires WellLoaded(data)
    ensures AvailableImages(data, sel).Ok? && img in AvailableImages(data, sel).value ==>
              (exists k | 0 <= k < |data| :: ItemSelected(data[k], sel) &&
                 img.serverCode == data[k].serverCode && img.date == data[k].date &&
                 img.path == ImagePath(data[k], img.status, img.image))
              && ((img.status == "warning" && WantsWarning(sel)) || (img.status == "critical" && WantsCritical(sel)))
              && (sel.sid.None? || img.sid == sel.sid.value)
              && Truthy(Some(img.image))
  {
    if AvailableImages(data, sel).Ok? && img in AvailableImages(data, sel).value {
      var k :| 0 <= k < |data| && ItemImages(data[k], sel).Ok? && img in ItemImages(data[k], sel).value;
      ItemImagesRespectFilters(data[k], sel, img);
    }
  }

  // ---------------------------------------------------------------- dedup and search

  /** No earlier image has the same path: `index === self.findIndex(img => img.path === image.path)`. */
  predicate FirstOfPath(s: seq<StallImage>, i: int)
    requires 0 <= i < |s|
  {
    forall k | 0 <= k < i :: s[k].path != s[i].path
  }

  /** The first image of each path among the first `n`, in order. */
  function FirstOfEachPath(s: seq<StallImage>, n: nat): (r: seq<StallImage>)
    requires n <= |s|
    ensures forall x | x in r :: exists i | 0 <= i < n :: x == s[i] && FirstOfPath(s, i)
    ensures forall a, b | 0 <= a < b < |r| :: r[a].path != r[b].path
  {
    if n == 0 then []
    else
      var init := FirstOfEachPath(s, n - 1);
      if FirstOfPath(s, n - 1) then
        assert forall x | x in init :: x.path != s[n - 1].path;
        init + [s[n - 1]]
      else init
  }

  /** The kept images appear in the input's order. */
  lemma {:induction false} FirstOfEachPathInOrder(s: seq<StallImage>, n: nat)
    requires n <= |s|
    ensures Subsequence(FirstOfEachPath(s, n), s[..n])
  {
    if n > 0 {
      FirstOfEachPathInOrder(s, n - 1);
      assert s[..n] == s[..n - 1] + [s[n - 1]];
      SubsequenceSnoc(FirstOfEachPath(s, n - 1), s[..n - 1], s[n - 1]);
    }
  }

  /** Every first occurrence is kept. */
  lemma {:induction false} FirstOccurrencesKept(s: seq<StallImage>, n: nat, i: nat)
    requires i < n <= |s| && FirstOfPath(s, i)
    ensures s[i] in FirstOfEachPath(s, n)
  {
    if i < n - 1 {
      FirstOccurrencesKept(s, n - 1, i);
    }
  }

  /** Every path of the input survives deduplication. */
  lemma {:induction false} EveryPathKept(s: seq<StallImage>, i: nat)
    requires i < |s|
    ensures exists x | x in FirstOfEachPath(s, |s|) :: x.path == s[i].path
    decreases i
  {
    if FirstOfPath(s, i) {
      FirstOccurrencesKept(s, |s|, i);
    } else {
      var k :| 0 <= k < i && s[k].path == s[i].path;
      EveryPathKept(s, k);
    }
  }

  /** Paths stay pairwise distinct in a subsequence. */
  lemma {:induction false} SubsequenceDistinctPaths(a: seq<StallImage>, b: seq<StallImage>)
    requires Subsequence(a, b)
    requires forall i, j | 0 <= i < j < |b| :: b[i].path != b[j].path
    ensures forall i, j | 0 <= i < j < |a| :: a[i].path != a[j].path
    decreases |b|
  {
    if |a| > 0 {
      if a[0] == b[0] {
        SubsequenceDistinctPaths(a[1..], b[1..]);
        SubsequenceMembers(a[1..], b[1..]);
        forall j | 0 < j < |a| ensures a[0].path != a[j].path {
          assert a[j] == a[1..][j - 1] && a[j] in a[1..];
          var k :| 0 <= k < |b[1..]| && b[1..][k] == a[j];
          assert b[k + 1] == a[j];
        }
        forall i, j | 0 < i < j < |a| ensures a[i].path != a[j].path {
          assert a[i] == a[1..][i - 1] && a[j] == a[1..][j - 1];
        }
      } else {
        SubsequenceDistinctPaths(a, b[1..]);
      }
    }
  }

  /** What deduplication keeps: the first image of each path, in input order, so that paths are
      pairwise distinct and every input path is still represented. */
  lemma DedupProperties(images: seq<StallImage>)
    ensures Subsequence(FirstOfEachPath(images, |images|), images)
    ensures forall i | 0 <= i < |images| && FirstOfPath(images, i) :: images[i] in FirstOfEachPath(images, |images|)
    ensures forall i | 0 <= i < |images| :: exists x | x in FirstOfEachPath(images, |images|) :: x.path == images[i].path
  {
    assert images[..|images|] == images;
    FirstOfEachPathInOrder(images, |images|);
    forall i | 0 <= i < |images| && FirstOfPath(images, i) ensures images[i] in FirstOfEachPath(images, |images|) {
      FirstOccurrencesKept(images, |images|, i);
    }
    forall i | 0 <= i < |images| ensures exists x | x in FirstOfEachPath(images, |images|) :: x.path == images[i].path {
      EveryPathKept(images, i);
    }
  }

  /** The deduplication loop: one pass, remembering the paths already seen, computes the first
      image of each path. */
  method DedupByPath(images: seq<StallImage>) returns (unique: seq<StallImage>)
    ensures unique == FirstOfEachPath(images, |images|)
  {
    unique := [];
    var seen: set<string> := {};
    var n := 0;
    while n < |images|
      invariant 0 <= n <= |images|
      invariant unique == FirstOfEachPath(images, n)
      invariant seen == set k | 0 <= k < n :: images[k].path
    {
      if images[n].path !in seen {
        assert FirstOfPath(images, n);
        unique := unique + [images[n]];
      } else {
        var k :| 0 <= k < n && images[k].path == images[n].path;
        assert !FirstOfPath(images, n);
      }
      seen := seen + {images[n].path};
      n := n + 1;
    }
  }

  /** The search keeps exactly the deduplicated images whose stall id contains the query. */
  lemma SearchKeeps(unique: seq<StallImage>, images: seq<StallImage>, query: string)
    requires unique == FirstOfEachPath(images, |images|)
    ensures var shown := Filter(unique, (x: StallImage) => ContainsIgnoreCase(x.stallId, query));
            Subsequence(shown, images) &&
            (forall a, b | 0 <= a < b < |shown| :: shown[a].path != shown[b].path) &&
            (forall i | 0 <= i < |images| && FirstOfPath(images, i) && ContainsIgnoreCase(images[i].stallId, query) ::
               images[i] in shown)
  {
    var keep := (x: StallImage) => ContainsIgnoreCase(x.stallId, query);
    var shown := Filter(unique, keep);
    DedupProperties(images);
    FilterIsSubsequence(unique, keep);
    SubsequenceTransitive(shown, unique, images);
    SubsequenceDistinctPaths(shown, unique);
  }

  /** `getFilteredImages` after the images are listed: deduplicated by path, then, when the query
      is not empty, only the stalls whose id contains it, ignoring case. */
  method FilteredImages(images: seq<StallImage>, query: string) returns (shown: seq<StallImage>)
    ensures Subsequence(shown, images)
    ensures forall a, b | 0 <= a < b < |shown| :: shown[a].path != shown[b].path
    ensures forall x | x in shown :: exists i | 0 <= i < |images| :: x == images[i] && FirstOfPath(images, i)
    ensures query != "" ==> forall x | x in shown :: ContainsIgnoreCase(x.stallId, query)
    ensures forall i | 0 <= i < |images| && FirstOfPath(images, i) &&
              (query == "" || ContainsIgnoreCase(images[i].stallId, query)) :: images[i] in shown
    ensures query == "" ==> forall i | 0 <= i < |images| :: exists x | x in shown :: x.path == images[i].path
    ensures query == "" ==> shown == FirstOfEachPath(images, |images|)
    ensures query != "" ==> shown == Filter(FirstOfEachPath(images, |images|), (x: StallImage) => ContainsIgnoreCase(x.stallId, query))
  {
    var unique := DedupByPath(images);
    DedupProperties(images);
    if query == "" {
      shown := unique;
    } else {
      shown := Filter(unique, (x: StallImage) => ContainsIgnoreCase(x.stallId, query));
      SearchKeeps(unique, images, query);
    }
  }
}
