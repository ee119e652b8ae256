# SNMP dashboard front end: the client-side rules, in Dafny

The dashboard is a thin browser front end for an SNMP monitoring backend.
Almost every page only fetches a collection over HTTP and renders it. This
project models the few rules the pages compute themselves, and proves what
those rules promise:

- **Report export** (`Report`). `handleExportCSV` turns the fetched history
  rows into CSV text. The header line is the first row's keys. Each row
  becomes one line with one cell per header. Cells are joined by `,` and
  lines by `\n`. Only a string value that contains a comma gets quoted,
  with its inner quotes doubled. The page's form state (device, start,
  end, `reportGenerated`) is a class, `Report.ReportForm`, together with
  the Generate button's `disabled` rule and the history query's `enabled`
  rule.
- **CSV reader** (`CsvReader`). This is a reader for section 2 of RFC 4180,
  with `\n` as the record separator. It is the partner the export is
  checked against and is not part of the dashboard. It reads a `\n` at the
  very end of the text as the start of one more record with one empty
  field, where rule 2 of that section would let it end the last record.
- **Alerts** (`Alerts`). The page classifies an alert twice, once as a badge
  colour (`getSeverityColor`) and once as a label ternary. The acknowledge
  action picks a request by a case-insensitive metric name. Its success
  marks the alert list stale.
- **Navigation bar** (`Navbar`). Five fixed links, and the rule that decides
  which link is highlighted for the current path.
- **Settings** (`Settings`). The page's state is a class,
  `Settings.SettingsPage`: the recipient input, the interface tab's
  selected device and the `isDiscovering` flag. It also records the
  requests the handlers issue and the cached queries each successful
  request marks stale. Each threshold row's starting input text is
  modelled too.
- **Status badge** (`StatusBadge`). Two constant tables from
  `'up' | 'down' | 'warning'`: one to a badge variant and label, one to a
  dot colour.
- **Types**, **Api**, **QueryCache** hold the shared pieces:
  - `Types`: the alert and history-row shapes of `src/types/index.ts`.
  - `Api`: the backend requests of `src/lib/api.ts`, as values.
  - `QueryCache`: the query keys, and a stale set that each successful
    mutation adds one key to.

Where the code and its own comments disagree, the model follows the code.
- The comment at `src/app/report/page.tsx:55` speaks of escaping commas
  and quotes, but a string with a quote and no comma is written unchanged.
- The comment at `:46` speaks of all unique keys, but the header is only
  the first row's keys.

So the export does not round-trip in general. `Report.ExportReadsBack`
proves the round trip under conditions that are sufficient for it; they
are not shown to be necessary. The lemmas `NoCommaWrittenRaw`,
`QuoteWithoutCommaIsNotReadBack` and `LineBreakWithoutCommaSplitsRecord`
give inputs where it fails. `EmptyLastRowEndsWithLineBreak` shows an
input where it holds only because of how the reader treats a final line
break.

## Model

| member | source | states |
|---|---|---|
| `Report.Join` | src/app/report/page.tsx:50-61 | `join` puts exactly one separator between neighbouring parts and none at either end: the length is the parts' total length plus one less than their number, and the first part comes first |
| `Report.Text` | src/app/report/page.tsx:58 | a value that is not quoted is joined as its text: `null` and `undefined` as the empty string, a string as itself |
| `Report.Quotes` | src/app/report/page.tsx:56 | only a value whose text contains a comma is quoted |
| `Report.Quoted` | src/app/report/page.tsx:57 | the quoted form opens and closes with `"` and is at least two characters longer than the text |
| `Types.Keys` | src/app/report/page.tsx:47 | a row's keys, in the row's own order, one per property |
| `Types.Lookup` | src/app/report/page.tsx:54 | `record[header]` is `undefined` exactly when the row lacks the key, and otherwise is a value the row holds under that key |
| `Report.EscapeQuotes` | src/app/report/page.tsx:57 | text without `"` is left unchanged |
| `Report.ReadQuotedEscaped` | src/app/report/page.tsx:57 | text with every `"` doubled and put between quotes reads back as the original text under RFC 4180 |
| `Report.Cell` | src/app/report/page.tsx:54-58 | a string containing a comma becomes `"` + that string with its quotes doubled + `"`; any other value, or a missing one, is written as its plain text (empty for `null`/`undefined`), quotes and line breaks included; a value of the readable kinds is written in a form an RFC 4180 reader turns back into its text |
| `Report.RowCells` | src/app/report/page.tsx:52-59 | one cell per header, in header order; each is the cell of that header's value, empty when the row lacks it |
| `Report.Lines` | src/app/report/page.tsx:50-61 | exactly one line per record plus the header; the header is the first record's keys joined by `,`; line i+1 is record i's cells joined by `,` |
| `Report.ExportCsv` | src/app/report/page.tsx:43-61 | nothing is produced exactly when there are no rows; otherwise the lines are joined by `\n`, with no line break after the last |
| `Report.ExportLines` | src/app/report/page.tsx:50-61 | when no header or cell contains a line break, cutting the output at line breaks gives exactly the header line and one line per record |
| `Report.ExportReadsBack` | src/app/report/page.tsx:43-61 | read by the RFC 4180 reader, the output gives the first record's keys, then every record's value texts under them, when there is a header and every header and value is of a kind that survives that reader (sufficient conditions) |
| `Report.NoCommaWrittenRaw` | src/app/report/page.tsx:56-58 | a string with quotes, or with a line break, but no comma is written unquoted |
| `Report.QuoteWithoutCommaIsNotReadBack` | src/app/report/page.tsx:56-58 | that unquoted output reads back with its quotes stripped: no general round trip |
| `Report.LineBreakWithoutCommaSplitsRecord` | src/app/report/page.tsx:56-58 | that output reads back as three records instead of two |
| `Report.EmptyLastRowEndsWithLineBreak` | src/app/report/page.tsx:50-61 | a last row whose one cell is empty leaves a line break at the end of the export, and the reader reads that break as the start of the empty last row |
| `Report.HeaderFromFirstRecordOnly` | src/app/report/page.tsx:46-59 | a key that only a later row has gets no column; a row that lacks a header gets an empty cell |
| `Report.QuotingExample` | src/app/report/page.tsx:56-57 | `a,"b"` is written as `"a,""b"""` |
| `Report.ReportForm.constructor` | src/app/report/page.tsx:16-19 | the form starts with empty device, start and end, and not generated |
| `Report.ReportForm.Complete` | src/app/report/page.tsx:38 | the guard of `handleGenerateReport`: device, start and end are all non-empty |
| `Report.ReportForm.GenerateDisabled` | src/app/report/page.tsx:130 | the Generate button's `disabled` test: one of the three fields is empty |
| `Report.ReportForm.HistoryEnabled` | src/app/report/page.tsx:31 | the history query's `enabled` test: generated, and all three fields non-empty |
| `Report.ReportForm.SelectDevice` | src/app/report/page.tsx:94 | choosing a device changes only the device |
| `Report.ReportForm.SetStartDate` | src/app/report/page.tsx:113 | editing the start changes only the start |
| `Report.ReportForm.SetEndDate` | src/app/report/page.tsx:122 | editing the end changes only the end |
| `Report.ReportForm.GenerateReport` | src/app/report/page.tsx:37-41 | `reportGenerated` becomes true when device, start and end are all set; it is never cleared, and nothing else changes |
| `Report.GenerateDisabledIff` | src/app/report/page.tsx:130 | Generate is disabled exactly when one of the three fields is empty |
| `Report.HistoryEnabledIff` | src/app/report/page.tsx:31 | the history is fetched exactly when a report was generated and all three fields are set |
| `Report.ReportFlow` | src/app/report/page.tsx:28-41 | Generate on an incomplete form does nothing; after a successful Generate, clearing a field stops the fetch but keeps `reportGenerated`, and refilling it resumes the fetch |
| `Alerts.SeverityColor` | src/app/alerts/page.tsx:43-48 | one of destructive, warning and default; for a positive threshold, destructive exactly from 1.5 times the threshold and warning exactly from 1.2 up to 1.5 times it; for a zero threshold, destructive exactly for a positive value |
| `Alerts.SeverityLabel` | src/app/alerts/page.tsx:101-105 | one of Critical, High and Warning; for a positive threshold, Critical exactly at a percentage of 150 or more and High exactly from 120 up to 150, the same tests the colour makes |
| `Alerts.SeverityBadge` | src/app/alerts/page.tsx:95-106 | an alert's severity cell pairs the variant and the text, and for a positive threshold the two name the same severity |
| `Alerts.ColorAgreesWithLabel` | src/app/alerts/page.tsx:43-105 | for a positive threshold the colour and the label agree: destructive with Critical, warning with High, default with Warning |
| `Alerts.LabelMonotonic` | src/app/alerts/page.tsx:101-105 | with a fixed positive threshold, a larger value never gets a lower label |
| `Alerts.ColorMonotonic` | src/app/alerts/page.tsx:43-48 | with a fixed positive threshold, a larger value never gets a lower colour |
| `Alerts.Boundaries` | src/app/alerts/page.tsx:43-105 | a value equal to the threshold is Warning/default; at 1.2 times the threshold it is High/warning; at 1.5 times it is Critical/destructive |
| `Alerts.HundredExamples` | src/app/alerts/page.tsx:43-105 | with threshold 100: 200 is Critical, 130 High, 105 Warning, with the matching colours |
| `Alerts.ZeroThresholdDisagrees` | src/app/alerts/page.tsx:43-105 | with threshold 0, as left by an acknowledgement, a value of 0 is labelled Critical but coloured default (0/0 is NaN) |
| `Alerts.NegativeThresholdDisagrees` | src/app/alerts/page.tsx:43-105 | with a negative threshold the percentage test flips and the two classifications part |
| `Alerts.LowerChar` | src/app/alerts/page.tsx:27 | a capital letter becomes the small letter whose capital it is; any other character is kept |
| `Alerts.ToLower` | src/app/alerts/page.tsx:27 | lower-casing keeps the length and lower-cases each character |
| `Alerts.ToLowerEqualsIff` | src/app/alerts/page.tsx:27-29 | lower-casing and then comparing with a lower-case word is the same as comparing letter by letter, ignoring case |
| `Alerts.AcknowledgeRequest` | src/app/alerts/page.tsx:24-33 | an acknowledgement only ever sets a threshold of 0, CPU or memory, for the alert's own device |
| `Alerts.AcknowledgeAlert` | src/app/alerts/page.tsx:109-114 | a row's Acknowledge button sends a threshold of 0 for that alert's device, and sends nothing exactly when the metric is neither "cpu" nor "memory" in any case |
| `Alerts.AcknowledgeDispatch` | src/app/alerts/page.tsx:24-33 | acknowledge sends a CPU threshold of 0 for the alert's device exactly when the metric is "cpu" in any case, a memory threshold of 0 exactly when it is "memory" in any case, and nothing otherwise |
| `Alerts.AcknowledgeExamples` | src/app/alerts/page.tsx:27-32 | "CPU" and "Memory" dispatch; "cpu_load" sends nothing |
| `Alerts.AcknowledgeSucceeded` | src/app/alerts/page.tsx:34-36 | a successful acknowledge marks the active-alerts query stale and no other query |
| `QueryCache.Invalidate` | src/app/alerts/page.tsx:35 | invalidating a key makes it stale, keeps every stale key stale, and marks nothing else |
| `Navbar.NavItemsInOrder` | src/app/Navbar.tsx:11-17 | five links, in the order /dashboard, /devices, /alerts, /report, /settings |
| `Navbar.IsActive` | src/app/Navbar.tsx:19-24 | a highlighted link's href starts the path, except that Dashboard is also highlighted for `/` |
| `Navbar.DashboardActiveIff` | src/app/Navbar.tsx:20-21 | Dashboard is highlighted exactly for `/` and `/dashboard` |
| `Navbar.OtherActiveIff` | src/app/Navbar.tsx:23 | any other link is highlighted exactly when the path is its href, or its href followed by `/` and more |
| `Navbar.AtMostOneActive` | src/app/Navbar.tsx:11-24 | for every path, no two of the five links are highlighted |
| `Navbar.ActiveFlags` | src/app/Navbar.tsx:31-44 | the bar renders one highlight flag per link, in link order, each flag being `isActive` of that link's href, and at most one flag is set |
| `Navbar.DevicesExamples` | src/app/Navbar.tsx:23 | `/devices/10.0.0.1` highlights Devices; `/devicesX` does not |
| `Navbar.RootActivatesOnlyDashboard` | src/app/Navbar.tsx:19-24 | `/` highlights Dashboard and no other link |
| `Navbar.BelowDashboardActivatesNothing` | src/app/Navbar.tsx:19-24 | `/dashboard/x` highlights no link, Dashboard included |
| `StatusBadge.BadgeFor` | src/components/StatusBadge.tsx:9-17 | every status gets a label and a variant other than the plain default; success is used for up alone and destructive for down alone |
| `StatusBadge.DotColor` | src/components/StatusBadge.tsx:21-25 | every status gets a shade-500 background class |
| `StatusBadge.Tables` | src/components/StatusBadge.tsx:9-25 | up is success/"Up"/green, down is destructive/"Down"/red, warning is warning/"Warning"/yellow; both tables cover all three statuses |
| `StatusBadge.DotClass` | src/components/StatusBadge.tsx:28 | the dot's class is `inline-block w-2 h-2 rounded-full ` followed by the status colour |
| `StatusBadge.LabelIdentifiesStatus` | src/components/StatusBadge.tsx:9-13 | the badge label reads back to the status it was made from |
| `StatusBadge.DotClassIdentifiesStatus` | src/components/StatusBadge.tsx:21-28 | the dot class reads back to the status it was made from |
| `StatusBadge.TablesInjective` | src/components/StatusBadge.tsx:9-25 | distinct statuses get distinct labels, variants, colours and dot classes |
| `Settings.AcceptsRecipient` | src/app/settings/page.tsx:98-102 | an input is submitted exactly when it contains `@` (which makes the non-empty test redundant) |
| `Settings.InitialThresholdText` | src/app/settings/page.tsx:333-334 | a threshold input starts as the threshold's text when there is one, and as "80" when it is absent; it is never empty |
| `Settings.ZeroThresholdShown` | src/app/settings/page.tsx:333 | a threshold of 0 starts as "0", not "80" |
| `Settings.SettingsPage.constructor` | src/app/settings/page.tsx:17-19 | the page starts with an empty input, no selected device, not discovering, nothing sent and nothing stale |
| `Settings.SettingsPage.DiscoveryDisabled` | src/app/settings/page.tsx:301 | the discovery button's `disabled` test: a discovery is running |
| `Settings.SettingsPage.InterfacesEnabled` | src/app/settings/page.tsx:37 | the interface query's `enabled` test: a device is selected |
| `Settings.SettingsPage.InterfacesKey` | src/app/settings/page.tsx:35 | the interface query's key names the selected device |
| `Settings.SettingsPage.SetNewRecipient` | src/app/settings/page.tsx:138 | typing changes only the input |
| `Settings.SettingsPage.SelectDeviceForInterface` | src/app/settings/page.tsx:234-237 | choosing a device changes only the selection |
| `Settings.SettingsPage.HandleAddRecipient` | src/app/settings/page.tsx:98-102 | the add request for the input goes out when the input contains `@`; otherwise nothing happens |
| `Settings.SettingsPage.AddRecipientSucceeded` | src/app/settings/page.tsx:47-50 | a successful add marks the recipient list stale and clears the input, and changes nothing else |
| `Settings.SettingsPage.DeleteRecipient` | src/app/settings/page.tsx:165 | the delete button sends the delete request for that address |
| `Settings.SettingsPage.DeleteRecipientSucceeded` | src/app/settings/page.tsx:56-58 | a successful delete marks the recipient list stale and changes nothing else |
| `Settings.SettingsPage.SaveCpuThreshold` | src/app/settings/page.tsx:62-64 | saving a CPU threshold sends that device's CPU threshold request |
| `Settings.SettingsPage.SaveMemoryThreshold` | src/app/settings/page.tsx:70-72 | saving a memory threshold sends that device's memory threshold request |
| `Settings.SettingsPage.SaveInterfaceThreshold` | src/app/settings/page.tsx:271-277 | saving an interface threshold sends the request for the selected device |
| `Settings.SettingsPage.DeviceThresholdSucceeded` | src/app/settings/page.tsx:65-75 | a successful CPU or memory update marks the device list stale, nothing else |
| `Settings.SettingsPage.InterfaceThresholdSucceeded` | src/app/settings/page.tsx:81-83 | a successful interface update marks the selected device's interface list stale, nothing else |
| `Settings.SettingsPage.RunDiscovery` | src/app/settings/page.tsx:104-107 | running discovery sets `isDiscovering`, which disables the button, and sends the discovery request |
| `Settings.SettingsPage.DiscoverySucceeded` | src/app/settings/page.tsx:89-92 | a successful discovery marks the device list stale and clears `isDiscovering` |
| `Settings.SettingsPage.DiscoveryFailed` | src/app/settings/page.tsx:93-95 | a failed discovery clears `isDiscovering` and marks nothing stale |
| `Settings.DeviceThresholdRow.constructor` | src/app/settings/page.tsx:333-334 | a device row's CPU and memory inputs start from the device's thresholds |
| `Settings.InterfaceThresholdRow.constructor` | src/app/settings/page.tsx:394 | an interface row's input starts as "100" |
| `Settings.AddRecipientFlow` | src/app/settings/page.tsx:44-102 | adding an address with `@` sends exactly one add request; on success the input is empty and only the recipient list is stale |
| `Settings.RejectedRecipientFlow` | src/app/settings/page.tsx:98-102 | an address without `@` sends nothing and stays in the input |
| `Settings.DiscoveryFlow` | src/app/settings/page.tsx:87-107 | the discovery button is disabled exactly while a discovery runs; a failure marks nothing stale and a success marks the device list stale |
| `Settings.InterfaceFlow` | src/app/settings/page.tsx:34-84 | interfaces are fetched only once a device is chosen; a save goes to that device, and its success marks that device's interfaces stale |

## Left out

- Rendering: all JSX and styling, the charts, the dashboard and device pages, the layout, and the loading and empty-state texts. These only display fetched data.
- The HTTP client (`src/lib/api.ts`). A request is modelled only as the `Api.Request` value naming the call and its arguments. URL building and network transfer are not modelled.
- The browser download of the CSV text: the Blob, the object URL, the temporary link, and the date-stamped file name (a foreign date library and the clock).
- The request-cache library. Fetching, deduplication, retries, the asynchronous order of responses, the pending flag that disables the acknowledge button, and key-prefix matching are not modelled. Invalidation is modelled as adding one key to a stale set. No other key on these pages starts with an invalidated key.
- `parseFloat` on threshold text. The save methods take the parsed number as a parameter.
- JavaScript's number-to-string conversion. A number in a history row carries its text (`JsNumber`), and `Settings.InitialThresholdText` takes the threshold's text when the device has a threshold.
- Alerts.SeverityColor and Alerts.SeverityLabel are computed over reals, not IEEE doubles:
  - A zero threshold is modelled with JavaScript's semantics (±Infinity, NaN).
  - Rounding differences between `current / threshold * 100 >= 150` and `current >= threshold * 1.5` are not modelled.
  - Infinite and NaN current values are not modelled.
- Alerts.ToLower maps only the ASCII letters. For `toLowerCase() === 'cpu'` and `=== 'memory'` this is exact: no non-ASCII character lower-cases to a string made of those ASCII letters.
- A history row keeps its properties in the order `Object.keys` returns them. The model does not reorder integer-like keys to the front; the row's list is taken in its given order. Values that are nested objects or arrays are not modelled; `JsValue` has no case for them.
- Report.ExportReadsBack states sufficient conditions for the round trip, not necessary ones: the converse is not proved. The exporter quotes less than section 2 of RFC 4180 asks, and the lemmas `QuoteWithoutCommaIsNotReadBack` and `LineBreakWithoutCommaSplitsRecord` show two inputs where reading back fails.
- Report.ExportReadsBack relies on the reader taking a final line break as the start of one more record. A last row whose cells join to the empty text (one header, and the row lacks it or holds an empty value) leaves the export ending in `\n`. A reader that lets that break end the last record, as rule 2 of section 2 of RFC 4180 allows, returns one row fewer. `Report.EmptyLastRowEndsWithLineBreak` shows such an input.
- The `Device`, `InterfaceMetric` and `Recipient` records of `src/types/index.ts` are only rendered on these pages. They are not modelled; the pages' rules take the fields they use (an address, a threshold text) directly.
- The history query's key (`['deviceHistory', device, start, end]`) is not modelled. Only its `enabled` rule is (`Report.ReportForm.HistoryEnabled`).
- A header that names a member every object inherits (such as `toString`) makes `record[header]` return that inherited member for a row that lacks the key. The model gives such a row an empty cell, as for any other missing key.
- CsvReader separates records with `\n`, the separator the exporter writes, not with the CRLF of RFC 4180.
