# Form and global-event synchronisation: the list and string logic

This project models the core of an editor extension that imports "forms" and
"global events" from a content-management server into workspace files and
exports them back. The two services, `FormService` and `GlobalEventService`,
are mostly glue: SOAP and REST calls, editor prompts and file writes. The model
lifts out the list and string logic inside that glue. Every server reply, file
read and user answer is an input value, never an effect.

Modules, one per source file plus three shared ones:

- `Wrappers`: `Option`, the model's stand-in for JavaScript's `undefined`.
- `Models`: the server profile (`ServerDTO`) and the `Report` an action shows.
- `Text`: the string operations the services use, written out. These are
  `String(n)` of a document id, `indexOf`, and Node's `basename` and
  `parse(..).name`.
- `FormService` (`src/services/FormService.ts`) covers:
  - normalising SOAP replies to lists;
  - the picker labels `"<documentId> - <documentDescription>"`, their parsing
    and the lookup by id;
  - the export picker, whose order is the matching form, then
    "Novo Formulário", then the rest;
  - the form name derived from a path; the two regular expressions are
    written as explicit functions;
  - the password re-confirmation loop;
  - the attachment and custom-event lists with the principal flag;
  - the `'ok'` status check;
  - the `export` pipeline.
- `GlobalEventService` (`src/services/GlobalEventService.ts`) covers:
  - the event list and its empty-list fallbacks;
  - the single-select and multi-select lookups;
  - the read-modify-write upsert of `export`;
  - the `'OK'` status checks.

Methods that follow the source's loops (`BuildExportPicker`,
`ConfirmPassword`, `CollectAttachments`, `CollectCustomEventsAsWritten`,
`LookupPicked`) and the export pipelines (`ExportForm`, `ExportEvent` and its
corrected form `ExportEventChecked`) are proved against specification
functions. The properties are proved as lemmas
about those functions.

## Model

| member | source | states |
|---|---|---|
| `Text.NatToString` | src/services/FormService.ts:133 | `documentId.toString()` (and the number-to-string of the label at line 119): a non-empty run of decimal digits, with a leading `0` only for the id 0; `Text.NatToStringValue` reads it back |
| `Text.NatToStringValue` | src/services/FormService.ts:119 | reading back the digits that `String(id)` writes gives the id |
| `Text.NatToStringInjective` | src/services/FormService.ts:133 | two ids render to the same text only when they are the same id, so the string comparison in `find` is comparison of ids |
| `Text.IndexOf` | src/services/FormService.ts:131 | `indexOf` returns the first occurrence of the pattern, or -1 exactly when there is none |
| `Text.BaseName` | src/services/FormService.ts:380 | `parse(..).base` (and `basename(eventPath)` at lines 390 and 474): a slash-free suffix of the path; `Text.BaseNameOfJoin` states that it is the last path component |
| `Text.BaseNameOfJoin` | src/services/FormService.ts:380 | the base name of `dir/name` is `name` when `name` holds no slash |
| `Text.Stem` | src/services/FormService.ts:382 | `parse(..).name` (also at line 466): a prefix of the base name; `Text.StemDropsExtension` states that it drops the last extension |
| `Text.StemDropsExtension` | src/services/FormService.ts:382 | `parse(..).name` of `stem.ext` is `stem` when the stem is not empty and the extension holds no dot |
| `Text.BaseNameWithout` | src/services/GlobalEventService.ts:157 | `basename(p, '.js')`: the base name, or the base name less a trailing `.js`; the result is empty only when the base name is, so a base name that is exactly the extension is kept whole |
| `Text.BaseNameWithoutOfJoin` | src/services/GlobalEventService.ts:157 | `basename(dir/name.js, '.js')` is `name` |
| `FormService.ToListAsWritten` | src/services/FormService.ts:58-62 | as written, a non-array item becomes a one-element list; a missing item becomes `[undefined]`; a list is kept element for element |
| `FormService.AbsentItemYieldsUndefined` | src/services/FormService.ts:105-109 | a reply without an item (a form with no custom events) yields the list `[undefined]` |
| `FormService.ToList` | src/services/FormService.ts:58-62 | corrected normalisation: a bare item becomes `[item]`, a list is returned unchanged, a missing item becomes `[]` |
| `FormService.ToListAgreesWhenPresent` | src/services/FormService.ts:58-62 | wherever the reply holds an item, the corrected normalisation and the written one agree entry by entry |
| `FormService.ToListIdempotent` | src/services/FormService.ts:58-62 | normalising an already normalised list changes nothing |
| `FormService.FormsAsWritten` | src/services/FormService.ts:36 | `item \|\| []`: a missing item gives `[]` and a list is kept; a bare item gives no list at all |
| `FormService.SingleFormIsNotListed` | src/services/FormService.ts:36 | for a reply whose one form arrives bare, the written `getForms` yields no list, while `ToList` yields that form |
| `FormService.FormsAgreeWhenListed` | src/services/FormService.ts:36 | wherever the written `getForms` yields a list, it is the list `ToList` yields |
| `FormService.Label` | src/services/FormService.ts:119 | the label `documentId + ' - ' + documentDescription` starts with the id's digits and `" - "`, so its first character is a digit (its parsing is `FormService.ParseLabel`) |
| `FormService.FormItem` | src/services/FormService.ts:118-121 | one picker entry: the label with the dataset as detail; `FormService.PickerItems` and `FormService.LabelRoundTrip` state its use |
| `FormService.PickerItems` | src/services/FormService.ts:118-121 | one picker entry per form, in server order, labelled `id - description` with the dataset as detail |
| `FormService.ParseId` | src/services/FormService.ts:131-132 | the id text is the label's prefix before the first `" - "`, or `""` when the label has none (`substring(0, -1)`) |
| `FormService.ParseLabel` | src/services/FormService.ts:119-132 | parsing a form's label yields exactly `String(documentId)`, whatever the description contains |
| `FormService.FirstIndexWithId` | src/services/FormService.ts:133 | the index of the first form whose id renders as the given text, or -1 when no form has it |
| `FormService.FindById` | src/services/FormService.ts:133 | `find` yields the first listed form with that id text, and yields nothing exactly when no form has it |
| `FormService.LabelRoundTrip` | src/services/FormService.ts:118-133 | when ids are unique, building a form's label and parsing it finds that same form |
| `FormService.SelectForm` | src/services/FormService.ts:116-136 | a dismissed picker yields nothing; otherwise the first listed form whose id is the parsed label's, found whenever some form has that id |
| `FormService.SelectPickedForm` | src/services/FormService.ts:123-135 | when ids are unique, picking the i-th entry yields the i-th form |
| `FormService.SelectForms` | src/services/FormService.ts:141-164 | a dismissed picker yields nothing; otherwise there is one lookup per picked label, in pick order |
| `FormService.SelectPickedForms` | src/services/FormService.ts:157-163 | when ids are unique, picking entries yields exactly the picked forms, in pick order, one per pick |
| `FormService.MatchesForm` | src/services/FormService.ts:504 | `formNameOrId == form.documentId \|\| formNameOrId === form.documentDescription`, the loose comparison as `NameEqualsId`; `FormService.LastMatchIndex`, `FormService.OthersMembers` and `FormService.MatchCountPositive` state what it selects |
| `FormService.LastMatchIndex` | src/services/FormService.ts:503-508 | the last form whose id loosely equals the key or whose description equals it, or -1 when none does |
| `FormService.BuildExportPicker` | src/services/FormService.ts:498-523 | the loop with `push` and the two `unshift` calls yields the matching entry (if any), then "Novo Formulário", then the others |
| `FormService.Others` | src/services/FormService.ts:509-514 | the `items.push` list of the non-matching forms' entries; stated by `FormService.OthersMembers`, `FormService.OthersAppend` and `FormService.OthersLength` |
| `FormService.OthersAppend` | src/services/FormService.ts:509-514 | the non-matching entries keep server order: the entries for a concatenation are the concatenation of the entries |
| `FormService.OthersLength` | src/services/FormService.ts:503-515 | every form either matches or contributes exactly one entry |
| `FormService.OthersMembers` | src/services/FormService.ts:503-515 | an entry is among the others exactly when it is the entry of a non-matching form |
| `FormService.MatchCountZero` | src/services/FormService.ts:504 | when no form matches, the match count is zero |
| `FormService.MatchCountPositive` | src/services/FormService.ts:504 | when some form matches, the match count is positive |
| `FormService.LabelIsNotNewFormLabel` | src/services/FormService.ts:533 | no form's label is "Novo Formulário", because every label starts with a digit |
| `FormService.ExportPicker` | src/services/FormService.ts:503-523 | the picker the two `unshift` calls leave; its length and order are stated by `FormService.ExportPickerLength` and `FormService.ExportPickerOrder`, and `FormService.BuildExportPicker` is proved equal to it |
| `FormService.ExportPickerLength` | src/services/FormService.ts:503-523 | the picker has `\|forms\| + 1` entries when no form matches, otherwise `2 + (\|forms\| - matches)` |
| `FormService.ExportPickerOrder` | src/services/FormService.ts:503-523 | the last match comes first when there is one; then "Novo Formulário"; then the non-matching forms in server order, none of them labelled "Novo Formulário" |
| `FormService.ResolveExportChoice` | src/services/FormService.ts:529-541 | a dismissed picker yields nothing; "Novo Formulário" yields a new form; any other label yields the first listed form whose id is the parsed one, and nothing only when no form has that id |
| `FormService.ExportChoiceRoundTrip` | src/services/FormService.ts:503-541 | when ids are unique, every picker entry resolves to what it shows: the new-form entry to a new form, a form's entry to that form |
| `FormService.LastSegmentBelow` | src/services/FormService.ts:295 | the last position after `/forms/` that is followed by a non-slash character, or -1 when there is none |
| `FormService.NonSlashRun` | src/services/FormService.ts:295 | the capture `([^/]+)` is the whole run of non-slash characters |
| `FormService.FolderName` | src/services/FormService.ts:295 | the folder after the last `/forms/` followed by a non-slash character, as a maximal non-empty slash-free run; a path without one is kept unchanged |
| `FormService.FolderNameOfCapture` | src/services/FormService.ts:295 | the greedy match has one answer: whatever satisfies the capture description at some start is what `FolderName` returns |
| `FormService.DigitRun` | src/services/FormService.ts:298 | `\d+` takes the whole run of leading digits |
| `FormService.StripIdPrefix` | src/services/FormService.ts:298 | the result is always a suffix of the folder name; exactly when it is dropped is `FormService.StripIdPrefixSpec` |
| `FormService.StripIdPrefixSpec` | src/services/FormService.ts:298 | a leading `"<digits> - "` is dropped exactly when the rest is all word characters; any other name is kept |
| `FormService.ImportedFolderNameStripped` | src/services/FormService.ts:297-298 | a folder named `<id> - <name>`, the layout the Eclipse plugin writes, is exported under `<name>` |
| `FormService.StripIdPrefixIdempotent` | src/services/FormService.ts:298 | stripping twice is stripping once |
| `FormService.FormName` | src/services/FormService.ts:295-298 | the two `replace` calls in turn, `FolderName` then `StripIdPrefix`; `FormService.FormNameOfImportedFolder` states what it yields for a file under `forms/<id> - <name>` |
| `FormService.FormNameOfImportedFolder` | src/services/FormService.ts:295-298 | a file under the folder `<id> - <w>` below the last `/forms/` of its path is exported under the form name `w`, when `w` is all word characters |
| `FormService.Answer` | src/services/FormService.ts:279-282 | `showInputBox(..) \|\| ""`: the answer is empty exactly when the box was dismissed or left empty |
| `FormService.PasswordGate` | src/services/FormService.ts:275-292 | an empty or dismissed answer cancels; a wrong answer repeats the prompt; the loop passes only at an answer equal to the stored password, after wrong answers only |
| `FormService.PasswordGateAt` | src/services/FormService.ts:278-292 | after wrong answers only, the loop decides at the first answer that is empty or right |
| `FormService.EmptyPasswordNeverPasses` | src/services/FormService.ts:284-290 | when the stored password is empty, the loop can never pass |
| `FormService.ConfirmPassword` | src/services/FormService.ts:275-292 | the `do ... while` loop over the answers ends as the three-way decision says |
| `FormService.CollectAttachments` | src/services/FormService.ts:376-385 | one attachment per file, in order, with its base name and content; principal exactly when its name without extension is the form name |
| `FormService.MainFileIsPrincipal` | src/services/FormService.ts:377-382 | the file `<folder>/<formName>.<ext>` is the principal attachment |
| `FormService.ImportedEventPath` | src/services/FormService.ts:200-205 | where the import writes a custom event, `<folder>/events/<eventId>.js`; `FormService.ExportedEventIdKeepsExtension` and `FormService.CustomEventIdRoundTrip` state what the export reads back from it |
| `FormService.CollectCustomEventsAsWritten` | src/services/FormService.ts:387-393 | as written, one custom event per file, with the full base name, `.js` included, as its id |
| `FormService.ExportedEventIdKeepsExtension` | src/services/FormService.ts:387-393 | the event imported under id `x` (written to `events/x.js`) is exported under id `x.js`, not `x` |
| `FormService.CollectCustomEvents` | src/services/FormService.ts:471-478 | corrected loop: one custom event per file, in order, with the base name without `.js` as its id |
| `FormService.CustomEventIdRoundTrip` | src/services/FormService.ts:200-205 | with the corrected id, an imported event is exported under the id it was imported with |
| `FormService.FormExportReport` | src/services/FormService.ts:395-406 | success exactly when `webServiceMessage === 'ok'`; any other message is shown as it is; a failed call gives the fixed error message |
| `FormService.ExportForm` | src/services/FormService.ts:263-496 | `export` as written: no workspace stops at once; nothing is sent when `getForms` as written yields no list; a payload is sent exactly when a server is chosen, the password loop passed (if asked), and a target and dataset were given; the target is the resolved choice; each attachment is the file's base name, content and principal flag; each custom event is the file's content under the id `basename(path)`, `.js` kept; the report is the status check's |
| `GlobalEventService.EventListOf` | src/services/GlobalEventService.ts:20-40 | the list, or `[]` after an error envelope or a failed fetch |
| `GlobalEventService.FindIndex` | src/services/GlobalEventService.ts:167 | `findIndex`: the first index with the id, or -1 exactly when no event has it |
| `GlobalEventService.FindEvent` | src/services/GlobalEventService.ts:73 | `find`: the first listed event with the id, and nothing exactly when no event has it |
| `GlobalEventService.SelectEvent` | src/services/GlobalEventService.ts:62-74 | a dismissed picker yields nothing; otherwise the first listed event with the picked id, found whenever some event has it |
| `GlobalEventService.SelectPickedEvent` | src/services/GlobalEventService.ts:64-73 | when ids are unique, picking the i-th event's id yields the i-th event |
| `GlobalEventService.EventsWithId` | src/services/GlobalEventService.ts:93-97 | the inner loop: the events holding one picked id, in list order; stated by `GlobalEventService.EventsWithIdMembers`, `GlobalEventService.EventsWithUniqueId` and `GlobalEventService.NoEventWithId` |
| `GlobalEventService.Lookup` | src/services/GlobalEventService.ts:91-98 | both loops: for each pick in turn, every event holding it; stated by `GlobalEventService.LookupMembers` and `GlobalEventService.LookupOnePerPick` |
| `GlobalEventService.LookupPicked` | src/services/GlobalEventService.ts:91-98 | the nested loops yield, for each pick in turn, every event with that id, in list order |
| `GlobalEventService.SelectEvents` | src/services/GlobalEventService.ts:79-101 | a dismissed picker yields nothing; otherwise the result is the lookup of the picks |
| `GlobalEventService.EventsWithIdMembers` | src/services/GlobalEventService.ts:93-97 | an event is collected for an id exactly when it is listed with that id |
| `GlobalEventService.LookupMembers` | src/services/GlobalEventService.ts:91-98 | an event is selected exactly when it is listed and its id is one of the picks |
| `GlobalEventService.EventsWithUniqueId` | src/services/GlobalEventService.ts:93-97 | with unique ids, the events collected for a listed id are that one event |
| `GlobalEventService.NoEventWithId` | src/services/GlobalEventService.ts:93-97 | an id no event has collects nothing |
| `GlobalEventService.LookupOnePerPick` | src/services/GlobalEventService.ts:81-98 | with unique ids and picks taken from the list, the selection is exactly the picked events, one per pick, in pick order |
| `GlobalEventService.Upserted` | src/services/GlobalEventService.ts:167-173 | the list `export` writes back holds the entry, and grows by one exactly when no event had its id |
| `GlobalEventService.UpsertAppends` | src/services/GlobalEventService.ts:167-170 | when no event has the id, the list grows by exactly one, the entry is last and the rest is unchanged |
| `GlobalEventService.UpsertReplacesFirst` | src/services/GlobalEventService.ts:167-173 | when one does, the length is kept, the first matching index holds the entry and every other index is untouched |
| `GlobalEventService.UpsertKeepsIdsUnique` | src/services/GlobalEventService.ts:167-173 | ids unique before stay unique after, and the entry's id occurs exactly once, at the entry |
| `GlobalEventService.UpsertKeepsOthers` | src/services/GlobalEventService.ts:167-173 | every event with another id is still in the list written back |
| `GlobalEventService.UpsertIdempotent` | src/services/GlobalEventService.ts:156-173 | exporting the same file twice writes the same list as exporting it once |
| `GlobalEventService.MessageDetail` | src/services/GlobalEventService.ts:187 | `result?.message?.message` in a string: the server's message, or `"undefined"` when the `message` object or its field is missing |
| `GlobalEventService.EventExportReport` | src/services/GlobalEventService.ts:182-188 | success exactly when `content === 'OK'`; otherwise the failure text `Falha ao exportar o Evento Global <id>!` followed by the server's message; nothing when the save failed and `result.content` cannot be read |
| `GlobalEventService.ExportEvent` | src/services/GlobalEventService.ts:149-189 | the entry is keyed by the company and the base name without `.js`; the pushed list is the upsert of the fetched list; the push is skipped exactly when confirmation is asked and fails |
| `GlobalEventService.FailedReadPushesOnlyEntry` | src/services/GlobalEventService.ts:20-40 | after a failed or refused list read, the list `export` pushes is the one new entry |
| `GlobalEventService.ExportEventChecked` | src/services/GlobalEventService.ts:149-189 | corrected `export`: a failed list read ends it with nothing pushed; a push keeps every listed event with another id and is the upsert of the list read; otherwise as `ExportEvent` |
| `GlobalEventService.EventFilePath` | src/services/GlobalEventService.ts:223-224 | where `saveFile` writes an imported event, `<workspace>/events/<eventId>.js`; `GlobalEventService.ImportExportSameId` states that exporting it targets the same event |
| `GlobalEventService.ImportExportSameId` | src/services/GlobalEventService.ts:223-224 | exporting the file `events/<id>.js` that an import wrote targets event `<id>` again |
| `GlobalEventService.DeleteReport` | src/services/GlobalEventService.ts:212-216 | one delete succeeds exactly when `content === 'OK'`; otherwise the failure text `Erro ao remover Evento Global <id>! ` followed by the server's message; nothing is shown when a failure reply has no `message` object, since `result.message.message` throws |

## Left out

- SOAP client creation, the SOAP calls, REST `fetch` and the JSON envelopes are network I/O. Their replies are inputs (`Item`, `ListReply`, `SaveReply`, an optional message). A failed `getForms` call in `export` is the `None` form-list reply of `FormService.ExportForm`.
- VS Code quick picks, input boxes and messages are UI. A choice is an input (`Option` of a label); the number of password warnings shown is `Gate.attempt`.
- Filesystem reads and writes, `glob.sync` and `Uri.joinPath` are I/O and foreign path code. The files a glob finds come in as `LocalFile` values, and paths are strings joined with `/`.
- Base64 through `Buffer` and `getFileBase64` are library encoders. Attachment content is carried unchanged.
- `getBasePath` and `encodeURIComponent` are library URL building.
- The file writes of `import`, `importMany` and `saveFile` are not modelled. Only the custom-event paths are, through `ImportedEventPath` (FormService.ts line 205) and `EventFilePath` (GlobalEventService.ts line 224). The attachment paths written at FormService.ts lines 196 and 246 are not modelled.
- The unawaited `forms.map(async …)` in `importMany` and the `forEach(async …)` in `delete` are fire-and-forget batches. Only the status check of one delete call is modelled.
- `UtilsService.confirmPassword` is not part of this model. Its answer is the boolean input `passwordConfirmed`.
- The password loop is given a finite script of answers. When the answers run out the result is `Unanswered`, where the editor would keep prompting.
- `FormService.NameEqualsId` models JavaScript's loose `==` between a folder name and a numeric id only for the empty string (0) and plain digit strings. Whitespace, signs, fractions, exponents and hexadecimal forms of `ToNumber` are not modelled.
- `documentId` is a `nat`. Negative and non-integer ids are not modelled.
- `Text.NatToString`: a JavaScript number holds integers exactly only up to 2^53, and `String(n)` switches to exponent form (`"1e+21"`) from 10^21 on. The model writes every id as plain digits, so ids that large are not modelled.
- The regular expressions are modelled for paths without line terminators, which `.` would not match.
- `Text.BaseName` and `Text.Stem` use `/` only. Windows separators and the `..` special case of `path.parse` are not modelled. Node ignores trailing separators (`basename('/a/b/')` is `"b"`, where `Text.BaseName` gives `""`), and `basename('.js', '.js')` is `""` where `Text.BaseNameWithout` keeps `".js"`. Neither case arises for the paths of files the services read.
- `FormService.ExportForm`: the prompts after the target is chosen are collapsed into one dataset-name answer. These are the new form's name, dataset, parent folder and persistence type, and the version option of an update. The payload does not carry the credentials, `publisherId`, `parentDocumentId`, `persistenceType` or `versionOption`.
- `FormService.ExportForm`: a form list reply that `for..of` cannot iterate (a bare form) throws in the source; the model ends the pipeline there as `Aborted` and does not model the exception itself. The pipeline follows the source as written; no pipeline built on the corrected `ToList` and `CollectCustomEvents` is given.
- `FormService.ExportForm`: the picker's choice is any label. That it was one of the entries `BuildExportPicker` shows is not threaded through.
- `console.log` calls are left out.

## Findings

| source | as written | input that shows it | evidently intended | confidence | as-written member | corrected member |
|---|---|---|---|---|---|---|
| src/services/FormService.ts:58-62 | `!Array.isArray(result.item)` also wraps a missing item, giving `[undefined]`. The import loop then reads `item.eventId` of `undefined` | a form with no custom events, whose reply carries no `item` (the same code is at lines 105-109) | a missing item gives the empty list, as `getForms` does | medium; not executed | `FormService.ToListAsWritten` | `FormService.ToList` |
| src/services/FormService.ts:36 | `item \|\| []` passes a bare single item on as it is. `forms.map` then fails on it | a server whose form list reply holds exactly one form, sent bare the way the other calls' replies are | a bare item gives a one-element list, as in `getFileNames` | low; not executed | `FormService.FormsAsWritten` | `FormService.ToList` |
| src/services/FormService.ts:387-393 | the custom event id is `basename(eventPath)`, which keeps `.js` (the same code is at lines 471-478) | the event `displayFields` is imported to `events/displayFields.js` (line 205) and comes back with id `displayFields.js` | `basename(eventPath, '.js')`, as GlobalEventService.ts:157 does | medium; not executed | `FormService.CollectCustomEventsAsWritten` | `FormService.CollectCustomEvents` |
| src/services/GlobalEventService.ts:167-182 | `getEventList` answers `[]` after a failed fetch or an error envelope (lines 20-40), and `export` goes on to push the list it built from that, replacing the remote catalog with the one event being exported (`GlobalEventService.FailedReadPushesOnlyEntry`) | a server whose list fetch fails once: exporting `events/a.js` then pushes `[a]` | stop the export when the list could not be read | medium; not executed | `GlobalEventService.ExportEvent` | `GlobalEventService.ExportEventChecked` |
