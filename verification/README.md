# Monitoring dashboard client — a Dafny model

The client is a React dashboard for a fleet of monitored agent servers. This model covers its
deterministic core and leaves out the rendering. That core has four parts:

- **The client stores.**
  - The server roster (`ServerContext`).
  - The notification list and its "new" badge (`NotificationContext`).
  - The log feed (`LogContext`).
  - The socket service: its one-slot callback registry and the sockets `connect` leaves open.
- **The derived views.**
  - The home-page summary, plus its issue and warning lists.
  - The contamination-alert pipeline: loading alert files, bucketing servers by recency, the date,
    sensor-id and stall-image selectors, deduplication by path, and stall search.
  - The notification search.
- **The validators and request composers.**
  - The server add/edit form.
  - The e-mail check.
  - Command submission and the result history.
  - Download-URL construction.
- **Small lookups.** The dotted-path string table, and the gauge colour thresholds.

Each store is an immutable state record, and each update a component makes is a total function on
that record. The things a page waits for become parameters:

- a fetch result is an `Option`, with `None` standing for "the request threw";
- a socket payload is an input value;
- "today" and "a week ago" are given as date strings.

JavaScript behaviour is written out where the code relies on it:

- truthiness and property reads on `undefined`;
- `Object.keys` throwing on `null`;
- `String.prototype.split`;
- the `\s` class;
- `encodeURIComponent` with UTF-8 percent-encoding;
- the order `Array.prototype.sort` gives strings, with `undefined` last.

Modules follow the source files. Shared helpers sit in `Options`, `Text`, `Seqs`,
`SortedStrings`, `Json` and `Uri`.

The notification record type in `src/types/notification.ts` names its flag `isRead`, but the
context reads and writes `read`. The model follows the context.

## Model

| member | source | states |
|---|---|---|
| ServerStore.StatusOrDefault | src/contexts/ServerContext.tsx:27 | the written-back status is always truthy; a truthy status is kept and a falsy one becomes "disconnected"; no other field changes |
| ServerStore.Hydrate | src/contexts/ServerContext.tsx:25-28 | same length and order; entry i differs from input i at most in `status`, which ends up truthy, kept when it was truthy and "disconnected" otherwise |
| ServerStore.RefreshServers | src/contexts/ServerContext.tsx:22-33 | a fetch that throws leaves the roster exactly as it was; a successful one replaces it with the hydrated list |
| ServerStore.AddServer | src/contexts/ServerContext.tsx:39-45 | exactly one entry is appended at the end, every earlier entry is untouched, and the new entry is the given server with its status defaulted |
| ServerStore.HydrateIdempotent | src/contexts/ServerContext.tsx:25-28 | hydrating a hydrated list changes nothing |
| ServerStore.AddServerAfterHydrate | src/contexts/ServerContext.tsx:22-45 | appending to a hydrated roster equals hydrating the longer fetched list |
| ServerStore.RunKeepsStatuses | src/contexts/ServerContext.tsx:22-45 | any sequence of refreshes and appends keeps "every status is truthy" |
| ServerStore.EveryRosterHasStatuses | src/contexts/ServerContext.tsx:20-45 | starting from the provider's empty roster, every reachable roster has only truthy statuses |
| ServerTypes.FindByCode | src/pages/FilePage.tsx:20 | `find` by code: `None` exactly when no server has the code; otherwise the first such server |
| NotificationStore.MarkRead | src/contexts/NotificationContext.tsx:31-39 | entries with the id become read and nothing else changes, with length and order kept; the badge is cleared when nothing unread is left and is otherwise untouched |
| NotificationStore.MarkAllRead | src/contexts/NotificationContext.tsx:41-47 | every entry is read and nothing else in it changes; the badge is down |
| NotificationStore.FetchLoaded | src/contexts/NotificationContext.tsx:61-74 | a successful fetch replaces the list and raises the badge exactly when some entry is unread; a failed fetch changes nothing |
| NotificationStore.PushReceived | src/contexts/NotificationContext.tsx:49-52 | a push raises the badge and leaves the list alone |
| NotificationStore.SetNotifications | src/contexts/NotificationContext.tsx:27-29 | the exposed setter replaces the list and leaves the badge alone |
| NotificationStore.MarkReadIdempotent | src/contexts/NotificationContext.tsx:33 | marking an id read twice equals marking it once |
| NotificationStore.MarkAllReadIdempotent | src/contexts/NotificationContext.tsx:43-44 | marking all read twice equals once |
| NotificationStore.ReadIsMonotone | src/contexts/NotificationContext.tsx:31-52 | no sequence of read, read-all and push events turns a read entry back to unread, or changes the list's length or anything in an entry other than its flag |
| NotificationStore.TransitionsKeepBadgeSound | src/contexts/NotificationContext.tsx:31-74 | fetch, read, read-all and push all keep "something unread implies badge up" |
| NotificationStore.SetterCanHideUnread | src/contexts/NotificationContext.tsx:27-29 | the exposed setter can install an unread list while the badge stays down |
| LogStore.AddLog | src/contexts/LogContext.tsx:22-24 | the new log is at the head, the tail is the previous list, and the length grows by one |
| LogStore.ReceiveAllNewestFirst | src/contexts/LogContext.tsx:22-37 | logs received in turn end up newest first, in front of the logs already held |
| SocketService.Connect | src/services/socket.ts:8-25 | a new socket becomes the handle, so one more socket is live: a socket the handle held before is overwritten without being closed; the callback slot is untouched |
| SocketService.OnServerStats | src/services/socket.ts:34-36 | the slot holds the new callback, whatever it held before |
| SocketService.OffServerStats | src/services/socket.ts:38-42 | the slot is cleared only when it holds that very callback; otherwise nothing changes |
| SocketService.Disconnect | src/services/socket.ts:27-32 | closes only the socket the handle holds: afterwards there is no handle, sockets replaced by earlier connects stay live, and the slot is kept; a no-op when there is no handle |
| SocketService.OnUpdate | src/services/socket.ts:19-24 | every live socket forwards the payload, unchanged, to the registered callback, so it is delivered once per live socket, and never when the slot is empty |
| SocketService.OnThenOffEmpties | src/services/socket.ts:34-42 | registering and then unregistering the same callback empties the slot |
| SocketService.StaleOffKeepsNewer | src/services/socket.ts:19-42 | unregistering an older callback after a newer one was registered keeps every delivery going to the newer one |
| SocketService.ConnectDeliversOnce | src/services/socket.ts:8-36 | after one connect and a registration, an update reaches the callback once |
| SocketService.ReconnectDeliversTwice | src/services/socket.ts:8-32 | after two connects an update reaches the callback twice, and after a disconnect it still arrives once, through the older socket |
| SocketService.ConnectDisconnectSilences | src/services/socket.ts:8-32 | a disconnect after a single connect stops all deliveries |
| SocketService.DisconnectIdempotent | src/services/socket.ts:27-32 | disconnecting twice equals disconnecting once |
| HomePage.ComputeStats | src/pages/HomePage.tsx:25-41 | `total` is the list length; `connected` and `disconnected` are the lengths of the lists filtered by that status; the process counts are the per-server sums, 0 for an empty list; with an empty list both averages are 0 |
| HomePage.RunningCount | src/pages/HomePage.tsx:36 | a server's running count is the length of its process list filtered to running processes, and 0 when the list is missing |
| HomePage.StatsAppend | src/pages/HomePage.tsx:25-41 | appending a server adds one to the total and to its status count, its process-list length (0 when missing) to the total processes, and its running processes to the running count |
| HomePage.StatusCountsBounded | src/pages/HomePage.tsx:26-28 | connected plus disconnected never exceeds the number of servers |
| HomePage.RunningAtMostAll | src/pages/HomePage.tsx:36 | a server never has more running processes than processes |
| HomePage.RunningAtMostTotal | src/pages/HomePage.tsx:31-39 | summed over servers, running processes never exceed all processes, with a missing list counting as 0 |
| HomePage.StatsBounds | src/pages/HomePage.tsx:25-41 | in the `stats` object, connected + disconnected ≤ total and running ≤ total processes |
| HomePage.SumCpuBounds | src/pages/HomePage.tsx:29 | when every CPU value lies in [lo, hi], the sum lies in [n·lo, n·hi] |
| HomePage.AvgCpuWithinRange | src/pages/HomePage.tsx:29 | for a non-empty list, the average CPU lies between the smallest and largest bound of the values |
| HomePage.IssuesExact | src/pages/HomePage.tsx:112 | the issue list holds exactly the servers that are disconnected, above 80% CPU or above 8192 MB, every copy of each, in input order |
| HomePage.WarningsExact | src/pages/HomePage.tsx:147-148 | the warning list holds exactly the connected servers with CPU in (60, 80] or memory in (6144, 8192], every copy of each, in input order |
| HomePage.HealthyInNeitherList | src/pages/HomePage.tsx:112-148 | a connected server with CPU ≤ 60 and memory ≤ 6144 appears in neither list |
| HomePage.IssueAndWarningOverlap | src/pages/HomePage.tsx:147-148 | a connected server above 80% CPU with memory in the warning band is listed as both an issue and a warning |
| ContaminationData.TruthyProp | src/pages/ContaminationPage.tsx:120-125 | a status block is kept exactly when `data[key]` is truthy, and then it is that value |
| ContaminationData.ItemOf | src/pages/ContaminationPage.tsx:112-127 | an item's warning and critical blocks are the file's truthy blocks |
| ContaminationData.ItemOfReadsPath | src/pages/ContaminationPage.tsx:96-98 | for a name "code/date/…", the server code and date are the first two '/'-separated segments |
| ContaminationData.ItemOfFlatName | src/pages/ContaminationPage.tsx:96-98 | a name without '/' is all server code, and its date is `undefined` |
| ContaminationData.LoadAlerts | src/pages/ContaminationPage.tsx:82-127 | every usable object, i.e. a ".json" name whose read produced a truthy value, yields its item; every item comes from such an object; never more items than objects |
| ContaminationData.LoadAlertsInListingOrder | src/pages/ContaminationPage.tsx:82-127 | the j-th item is built from the j-th usable object, so there are exactly as many items as usable objects, in listing order |
| ContaminationData.LoadMinioData | src/pages/ContaminationPage.tsx:78-133 | a listing that throws leaves the data as it was; otherwise the j-th item is built from the j-th usable object of the listing, and there are as many items as usable objects |
| ContaminationData.RecencyOf | src/pages/ContaminationPage.tsx:66-70 | an item is "today" exactly when dated today, and "this week" exactly when otherwise dated from a week ago (inclusive) up to today (exclusive), comparing as strings |
| ContaminationData.ThisWeekBeforeToday | src/pages/ContaminationPage.tsx:66-70 | a "this week" item is dated strictly before today, so it is never also "today" |
| ContaminationData.ServersWithRecentData | src/pages/ContaminationPage.tsx:50-74 | the today set holds exactly the tagged codes ("code-00") of today's items, and the week set exactly those of this week's items |
| ContaminationViews.StripSuffix00 | src/pages/ContaminationPage.tsx:176 | a trailing "-00" is removed, and any other code is unchanged |
| ContaminationViews.StripTagged | src/pages/ContaminationPage.tsx:64 | stripping a tagged code gives back the server code |
| ContaminationViews.DefaultServer | src/pages/ContaminationPage.tsx:135-144 | with servers loaded and nothing chosen, the first item's code is picked, or the first server's code when there are no items; otherwise the choice stays |
| ContaminationViews.DefaultServerSettles | src/pages/ContaminationPage.tsx:135-144 | re-running the selection effect on its own result changes nothing |
| ContaminationViews.DefinedDates | src/pages/ContaminationPage.tsx:172-180 | a date is listed exactly when some item of the selected server carries it |
| ContaminationViews.AvailableDates | src/pages/ContaminationPage.tsx:172-183 | the distinct dates of the selected server's items, or of all items when none is selected; strictly sorted, with `undefined` last |
| ContaminationViews.DateButtonSelects | src/pages/ContaminationPage.tsx:587-591 | each date button, the `undefined` one included, selects exactly the chosen server's items with that date, and at least one |
| ContaminationViews.StringItems | src/pages/ContaminationPage.tsx:198 | the string elements of a `sidList` array, exactly |
| ContaminationViews.ObjectKeys | src/pages/ContaminationPage.tsx:200-204 | exactly the keys other than "sidList" whose values are objects (null included) |
| ContaminationViews.SidsOf | src/pages/ContaminationPage.tsx:196-216 | a truthy array `sidList` gives its strings; a truthy non-array one throws; otherwise the object-valued keys |
| ContaminationViews.CollectSids | src/pages/ContaminationPage.tsx:185-221 | throws exactly when some item's block throws; otherwise contains exactly the ids the selected items contribute |
| ContaminationViews.AvailableSids | src/pages/ContaminationPage.tsx:185-224 | the same ids, or the same throw, strictly sorted and without duplicates |
| ContaminationViews.LoadedItemsWellLoaded | src/pages/ContaminationPage.tsx:120-125 | loaded items keep only truthy status blocks, which is what the views rely on |
| ContaminationViews.StallImages | src/pages/ContaminationPage.tsx:248-265 | an image comes from a stall entry exactly when the entry and its `image` are truthy |
| ContaminationViews.StallImagesInEntryOrder | src/pages/ContaminationPage.tsx:248-265 | the j-th image comes from the j-th entry that has one: entries without an image are skipped and the rest keep their key order |
| ContaminationViews.BlockImages | src/pages/ContaminationPage.tsx:240-267 | throws exactly when a sensor that passes the filter holds `null`; otherwise the images are those of the passing sensors, sensor after sensor in key order, an image being listed exactly when it is one of a passing sensor's stall images, and every image carries the block's status |
| ContaminationViews.ItemImages | src/pages/ContaminationPage.tsx:229-298 | an item the server, status or date selector excludes contributes nothing; otherwise it throws exactly when its wanted warning block or its wanted critical block throws |
| ContaminationViews.ItemImagesExactly | src/pages/ContaminationPage.tsx:229-298 | an item lists an image exactly when it is selected and the image belongs to its wanted warning block or its wanted critical block |
| ContaminationViews.ItemImagesWarningsFirst | src/pages/ContaminationPage.tsx:237-297 | an item lists all its warning images before all its critical images |
| ContaminationViews.InBlockExactly | src/pages/ContaminationPage.tsx:240-267 | a block that does not throw holds an image exactly when it comes from a stall entry, with a truthy image, of a sensor that passes the sensor filter |
| ContaminationViews.ItemImagesFromEntries | src/pages/ContaminationPage.tsx:229-298 | an item lists an image exactly when it is selected and the image comes from a stall entry of a passing sensor of a wanted block |
| ContaminationViews.ItemImagesRespectFilters | src/pages/ContaminationPage.tsx:229-298 | each image of an item matches the server, status, date and sensor filters, carries a truthy `image`, and has path `code/date/status/image.jpg` |
| ContaminationViews.AvailableImages | src/pages/ContaminationPage.tsx:226-304 | throws exactly when some item throws; every image comes from an item that lists it |
| ContaminationViews.AvailableImagesComplete | src/pages/ContaminationPage.tsx:226-304 | when nothing throws, every image of every item is listed |
| ContaminationViews.AvailableImagesInDataOrder | src/pages/ContaminationPage.tsx:226-304 | the listing is the items' contributions concatenated in data order |
| ContaminationViews.AvailableImagesExactly | src/pages/ContaminationPage.tsx:226-304 | when nothing throws, an image is listed exactly when some selected item has a wanted block with a passing sensor and a stall entry whose `image` is truthy, the image being the one built from that entry |
| ContaminationViews.AvailableImagesRespectFilters | src/pages/ContaminationPage.tsx:226-304 | every listed image comes from a selected item and passes the status and sensor filters, and its `image` is truthy |
| ContaminationViews.FirstOfEachPath | src/pages/ContaminationPage.tsx:342-344 | every kept image is the first one with its path, and kept paths are pairwise distinct |
| ContaminationViews.FirstOfEachPathInOrder | src/pages/ContaminationPage.tsx:342-344 | kept images appear in input order |
| ContaminationViews.FirstOccurrencesKept | src/pages/ContaminationPage.tsx:342-344 | every first occurrence of a path is kept |
| ContaminationViews.EveryPathKept | src/pages/ContaminationPage.tsx:342-344 | every input path is still represented after deduplication |
| ContaminationViews.DedupProperties | src/pages/ContaminationPage.tsx:342-344 | deduplication gives an order-preserving subsequence that keeps every first occurrence and every path |
| ContaminationViews.DedupByPath | src/pages/ContaminationPage.tsx:342-344 | a single pass with a set of seen paths computes exactly the first image of each path |
| ContaminationViews.SearchKeeps | src/pages/ContaminationPage.tsx:348-350 | the search over deduplicated images keeps exactly the first occurrences whose stall id contains the query, in order, with distinct paths |
| ContaminationViews.FilteredImages | src/pages/ContaminationPage.tsx:340-351 | an empty query gives exactly the first image of each path, in input order (`index === self.findIndex(...)`); a non-empty query gives exactly those first images whose stall id contains it, ignoring case, in the same order; so the result is an order-preserving subsequence with distinct paths that still covers every path when the query is empty |
| StallInfo.Run | src/pages/ContaminationPage.tsx:163 | a character-class run is maximal: all characters inside match, the next one does not |
| StallInfo.ExtractStallInfo | src/pages/ContaminationPage.tsx:162-170 | `null` exactly when the pattern occurs nowhere; otherwise the leftmost match, with sid of shape ddd-ddd and stall of shape d+-d+-d+ |
| StallInfo.ExtractFromTag | src/pages/ContaminationPage.tsx:162-170 | a name "DS-code-sid-a-b-c…" whose sid and groups are well formed yields exactly that sid and stall |
| NotificationPage.FilterNotifications | src/pages/NotificationPage.tsx:34-42 | an empty query returns the list unchanged; otherwise exactly the entries whose lower-cased server name or message contains the lower-cased query, every copy of each, as an order-preserving subsequence |
| NotificationPage.QueryMatchingAllKeepsAll | src/pages/NotificationPage.tsx:34-42 | a query every entry matches returns the whole list |
| NotificationPage.SearchIgnoresQueryCase | src/pages/NotificationPage.tsx:37-41 | a query and its lower-case form find the same entries |
| NotificationPage.NotificationColor | src/pages/NotificationPage.tsx:21-32 | red exactly for "cpu", blue exactly for "memory", gray for anything else |
| ServerForm.HandleChange | src/components/ServerEditDialog.tsx:25-51 | an ip containing a class character and a port with a non-digit are both rejected, leaving the values unchanged and setting that field's error; an accepted change writes only its field and clears only its error |
| ServerForm.ValidateForm | src/components/ServerEditDialog.tsx:53-72 | the form passes exactly when all three fields are non-empty; the required error is set exactly on the empty fields |
| ServerForm.InitialForm | src/components/ServerEditDialog.tsx:13-23 | name and ip come from the server or are empty; the port is its decimal form, all digits and reading back to the port, or empty exactly when there is none; no errors |
| ServerForm.InitialPortAccepted | src/components/ServerEditDialog.tsx:13-44 | the initial port text passes the port check |
| ServerForm.SubmitEdit | src/components/ServerEditDialog.tsx:74-84 | `onSubmit` is called with the form values exactly when validation passes, and the dialog closes only if it resolves |
| ServerForm.SubmitAdd | src/pages/AddPage.tsx:66-72 | the form data is handed on exactly when all three fields are non-empty |
| ServerForm.HandleInput | src/pages/AddPage.tsx:17-43 | a change event for one of the page's input names is `handleChange` on that field; any other name changes nothing |
| ServerForm.FieldNamed | src/pages/AddPage.tsx:86-126 | resolves an input name to the field it names on each page, or to nothing |
| ServerForm.InputNamesRoundTrip | src/pages/AddPage.tsx:86-126 | each page's input name resolves back to its own field |
| ServerForm.ChangesKeepFieldsClean | src/pages/AddPage.tsx:17-43 | starting clean, no change event ever puts a class character into the ip or a non-digit into the port |
| ServerForm.PipeRejected | src/pages/AddPage.tsx:20-27 | because '|' sits inside the character class, an ip containing '|' is rejected |
| MailPage.IndexOf | src/pages/MailServicePage.tsx:34 | the position of the first occurrence of a character, or the length when there is none |
| MailPage.ValidateEmailIffShape | src/pages/MailServicePage.tsx:33-36 | the check holds exactly when the address is local '@' x '.' y, with every part non-empty and free of white space and '@' |
| MailPage.ValidHasOneAt | src/pages/MailServicePage.tsx:34 | a valid address has exactly one '@' |
| MailPage.SubmitMail | src/pages/MailServicePage.tsx:38-60 | empty gives "required" and invalid gives "invalid", both without an add call; the add call happens exactly for a valid address; success clears the field, shows success and reloads; failure keeps the field and shows the error |
| MailPage.EmptyIsNotValid | src/pages/MailServicePage.tsx:41-49 | the empty string never passes the format check |
| MailPage.ValidExample | src/pages/MailServicePage.tsx:33-36 | "ops@example.com" passes |
| MailPage.TwoAtsExample | src/pages/MailServicePage.tsx:33-36 | "a@b@c.d" fails |
| CommandPage.Submit | src/pages/CommandPage.tsx:48-65 | no selection or a blank command gives the empty error; an unknown server gives not-found; only then is the trimmed command sent, the input cleared and execution flagged |
| CommandPage.BlankCommandRefused | src/pages/CommandPage.tsx:49-52 | a whitespace-only command sends nothing and leaves the execution flag alone |
| CommandPage.OnReply | src/pages/CommandPage.tsx:25-37 | a reply for a known server is put at the head of the history with that server's code and name; an unknown one leaves the history alone; either way execution ends |
| CommandPage.EarlierHistoryKept | src/pages/CommandPage.tsx:28-34 | replies received in turn keep the earlier history, unchanged, at the end |
| FilePage.HandleDownload | src/pages/FilePage.tsx:14-40 | an empty selection or path gives the required error and an unknown server gives not-found, neither with a URL; a URL is built exactly when the success toast is shown |
| FilePage.QueryReadsBack | src/pages/FilePage.tsx:26-28 | the built URL's query, after its last '?', splits on '&' into exactly the encoded path parameter, followed by the encoded filename parameter exactly when a filename was given |
| Uri.Encode | src/pages/FilePage.tsx:26-27 | `encodeURIComponent` output holds only unreserved characters and '%' escapes, never '&', '?' or '=' |
| Uri.DecodeEncode | src/pages/FilePage.tsx:26-27 | percent-decoding the encoding of a string gives its UTF-8 bytes |
| StringsTable.ThrowsIffInnerKeyMissing | src/consts/strings.ts:74-76 | a walk throws exactly when some proper prefix of the keys already reads `undefined` |
| StringsTable.ThrowsIsSticky | src/consts/strings.ts:76 | once a read has thrown, the reduce stays thrown |
| StringsTable.GetString3 | src/consts/strings.ts:74-76 | a three-segment path is three property reads from the root |
| StringsTable.ConnectedLabel | src/consts/strings.ts:1-76 | "server.status.connected" gives "연결됨" |
| StringsTable.MissingLeafIsUndefined | src/consts/strings.ts:1-76 | a missing final key gives `undefined`, not an error |
| StringsTable.MissingTableThrows | src/consts/strings.ts:1-76 | "add.form.required", a key the forms use, throws because the table has no "add" section |
| StringsTable.InnerPathReturnsTable | src/consts/strings.ts:1-76 | a path that stops at an inner node returns the sub-table despite the string type |
| Text.JoinSplit | src/consts/strings.ts:75 | joining the parts of `split` with the separator gives back the string |
| Text.TrimEmptyIffBlank | src/pages/CommandPage.tsx:49 | `trim()` is empty exactly when every character is white space |
| SortedStrings.SortDistinct | src/pages/ContaminationPage.tsx:181 | `Array.from(set).sort()`: strictly sorted, with exactly the input's members |
| SortedStrings.SortDistinctOrderInsensitive | src/pages/ContaminationPage.tsx:181 | the result depends only on the set of members, not on insertion order |
| DetailDialog.ProgressColor | src/pages/CardGridPage/components/DetailServerDialog.tsx:29-33 | red exactly when v ≥ 80, amber exactly when 60 ≤ v < 80, emerald exactly when v < 60 |
| DetailDialog.ProgressColorMonotone | src/pages/CardGridPage/components/DetailServerDialog.tsx:29-33 | a larger value never gets a milder colour |
| DetailDialog.RamGauge | src/pages/CardGridPage/components/DetailServerDialog.tsx:91-94 | the RAM gauge shows ram×10 and colours it by ram×10: red from 8 GB, amber from 6 GB |
| DetailDialog.PercentGauge | src/pages/CardGridPage/components/DetailServerDialog.tsx:74-77 | the CPU gauge shows the percentage as is, red from 80, amber from 60 up to 80 and emerald below 60 |

## Left out

- Json.JNum: JSON numbers are modelled as integers. Fractional values, exponent forms and integers beyond 2^53 in an alert file are not modelled, and neither is how JavaScript renders them when an image number is written into an image path.
- Network and socket I/O are not modelled: `serverApi`, `notificationApi` and `mailApi` in `src/services/api.ts`, and the socket.io connection and event wiring. Their results are parameters.
- The object-store client `minioDirectApi` is not part of this model. It is imported by the contamination page but not defined in `src/services/api.ts`. A listing is an `Option` of object names. A read is a function from name to "threw or JSON value".
- Image-URL generation (`src/pages/ContaminationPage.tsx:306-338`) is left out: it is an asynchronous call per image. So are the status colour and label helpers (`src/pages/ContaminationPage.tsx:146-160`), which are view code.
- Calls to socket methods that `src/services/socket.ts` does not define are left out: `on`, `off`, `sendCommand` and `onServerLog`. Also left out is the `markAsRead` the notification page destructures. The pure logic around them is modelled; the wiring is not.
- Timers are left out: the toast auto-hide and the 500 ms search debounce. The search is modelled on the debounced query.
- Toast ids come from `Date.now()`, and command timestamps from `toLocaleString()`. Both are replaced by keys or a given string.
- Locale date formatting with the Asia/Seoul time zone is left out. "Today" and "a week ago" are given as strings.
- Floating point is left out. CPU and memory are exact reals. `toFixed` and the GB display are not modelled.
- HomePage.ComputeStats: the averages are stated only for the empty list and through `AvgCpuWithinRange`, since reals stand in for IEEE doubles and the rounding of the sum and the division is not modelled. The integer fields are stated in full.
- Unicode details are left out:
  - `toLowerCase` maps ASCII letters only.
  - Strings are sequences of code points. JavaScript compares and indexes UTF-16 code units, and the two orders agree only below U+10000.
- Form and page messages are modelled by their string-table keys, not by resolved text. The table in `src/consts/strings.ts` has no "add", "mail", "command", "file" or "contamination" section, so resolving those keys throws (`StringsTable.MissingTableThrows`). Every member below assumes its lookups resolve, that is, it models the pages as they would behave with a table that has those sections. With the table as it stands, each of these pages already throws while rendering its own labels (for example `src/pages/FilePage.tsx:46`), before any handler could run. What the members therefore do not promise for the table as shipped:
- MailPage.SubmitMail: the "required" and "invalid" toasts, and after a successful add the success toast and the list reload. The lookup at `src/pages/MailServicePage.tsx:54` throws after the e-mail field has been cleared, and the lookup in the catch block throws again, so the submission ends in an unhandled rejection with the field cleared and no reload.
- ServerForm.ValidateForm: the required errors. The lookup at `src/components/ServerEditDialog.tsx:61` (and `src/pages/AddPage.tsx:53`) throws before `setErrors`, so an empty field leaves the errors as they were and nothing is submitted.
- ServerForm.HandleChange: the ip and port error messages. The lookups at `src/components/ServerEditDialog.tsx:31,40` (and `src/pages/AddPage.tsx:23,32`) sit inside the state updaters, so the value is still rejected, but the updater throws when React applies it instead of setting the message.
- FilePage.HandleDownload: the required, not-found and success toasts (`src/pages/FilePage.tsx:16,22,39`). On the success path the lookup throws after the download was started.
- CommandPage.Submit: the empty and not-found toasts (`src/pages/CommandPage.tsx:50,56`).
- Property lookup in `getString` sees only the table's own entries. Inherited `Object.prototype` members such as "constructor" are not modelled.
- StringsTable.Child: a read from a leaf string gives `undefined`. JavaScript would read the string's own `length` and indices and the `String.prototype` members, so a path that continues past a leaf, such as "server.status.connected.length", resolves to a number or function there, and one more key after such a read gives `undefined` where the model throws.
- JSON objects are assumed to have distinct keys, with lookup taking the first. `Object.keys` is assumed to keep insertion order; the engine's reordering of integer-like keys is not modelled.
- Non-string elements of a `sidList` array are dropped rather than added to the id set. Object names that are not strings are treated as absent.
- Everything the page does with `status`, `bucket` and `detail` beyond carrying the constants is left out.
- Rendering is not modelled: JSX, CSS classes, the colour constants, and the dummy-data pages and dialogs.
