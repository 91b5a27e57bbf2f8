# Offline expense queue of the flux expense form

The flux expense form (`script.js`) posts each expense to a Google Forms endpoint. When the
post throws, the expense goes into a queue kept in the browser's local storage under the key
`offlineExpenses`. A later "Sync" drains that queue. This project models, in Dafny, the part of
the script that decides what is sent and what is kept:

- `form_encoding.dfy` (module `FormEncoding`): the expense record and `createGoogleFormData`.
  The encoder turns a record into eleven (entry id, value) fields in a fixed order. It splits
  the date on `-` into year, month and day, and the time on `:` into hour and minute.
  JavaScript's `split` and `join` are modelled for a one-character separator. A destructuring
  that runs short binds `undefined`, and `FormData.append` stores it as the string
  `"undefined"`; the model does the same.
- `drain.dfy` (module `Drain`): what one drain pass must leave behind, stated on values.
  `Survivors` is the list of entries whose send threw, in their original order. `Delivered`
  is the list of entries whose send did not throw. `CountTrue` counts the successful sends.
  `FailedPositions` is an independent, index-based description of the survivors. The lemmas
  prove that a drain keeps exactly the failed entries, unchanged and in order, and that it
  neither loses nor duplicates an entry.
- `offline_sync.dfy` (module `OfflineSync`): the class `ExpenseApp` with two fields.
  `stored` is the local-storage slot: absent, or a list of records. `posted` is the log of
  every form body handed to the network, whether or not the send threw. Its methods are:
  - `SaveOffline` (`saveOffline`).
  - `Submit` (the try/catch of the submit handler).
  - `SyncData` (`syncData`): the backward `for` loop that splices the working copy in place,
    counts the successes and writes the survivors back once.

  `PendingCount` is the count `updateSyncUI` shows.

The network is an oracle. `Submit` takes `sendOk`, and `SyncData` takes `outcomes[i]` for the
entry at original position `i`. In both, true means the `fetch` did not throw. The response of
a `no-cors` request is opaque, so "did not throw" is all the code can observe.

On corrupt slot content `JSON.parse` throws (script.js:77, 127, 134) and nothing catches it;
the model leaves corrupt content out (see below).

## Model

| member | source | states |
|---|---|---|
| FormEncoding.Split | script.js:106-107 | `split` on one separator returns at least one piece, and no piece contains the separator |
| FormEncoding.JoinOfSplit | script.js:106-107 | joining the pieces of a split with the separator gives back the original string |
| FormEncoding.SplitOfJoin | script.js:106-107 | splitting a join of separator-free pieces gives back exactly those pieces |
| FormEncoding.CreateGoogleFormData | script.js:105-123 | the body has exactly 11 fields, and their ids are the fixed entry ids in append order |
| FormEncoding.WellFormedPayload | script.js:105-122 | for a `YYYY-MM-DD` date and an `HH:MM` time: the six plain fields verbatim, then year, month, day, hour and minute as the digit groups |
| FormEncoding.DateFieldsRejoin | script.js:106-118 | for a date with exactly two `-`: the posted year, month and day rejoined with `-` are the date |
| FormEncoding.TimeFieldsRejoin | script.js:107-120 | for a time with exactly one `:`: the posted hour and minute rejoined with `:` are the time |
| FormEncoding.DateWithoutSeparator | script.js:106-118 | a date without `-` is posted whole as the year, and month and day go out as "undefined" |
| FormEncoding.ScenarioDateSplit | script.js:106 | "2024-03-01" splits into "2024", "03", "01" |
| Drain.Survivors | script.js:84-98 | kept entries plus successful sends add up to the original queue length |
| Drain.Delivered | script.js:88-91 | the number of entries removed equals the number of sends that did not throw |
| Drain.CountTrueExtremes | script.js:82-100 | the success count is zero exactly when every send threw, and it equals the queue length exactly when none threw |
| Drain.FailedPositions | script.js:84-95 | the positions whose send threw, strictly increasing, each one failed, and every failed position listed |
| Drain.SurvivorsAreFailedEntries | script.js:84-98 | the j-th kept entry is the original entry at the j-th failed position: exactly the failed entries, contents unchanged, original relative order |
| Drain.DrainPartitionsQueue | script.js:84-98 | kept and removed entries together are the original queue as a multiset: nothing lost, nothing duplicated |
| Drain.AllFailedKeepsQueue | script.js:88-98 | when every send throws, the queue is written back unchanged and nothing is removed |
| Drain.AllDeliveredEmptiesQueue | script.js:88-98 | when no send throws, nothing is kept and every entry is removed |
| Drain.DrainOfEnqueued | script.js:84-95 | the outcome for the last-enqueued record decides only whether it is kept, and earlier entries fare as without it |
| Drain.SpliceStep | script.js:83-91 | before position i is visited, the entry there is still the original entry i, since later splices never shift it; splicing it out on success, or keeping it on failure, leaves the prefix plus the survivors of the visited suffix |
| OfflineSync.BackwardAttemptsFrom | script.js:84-89 | visiting position i next appends the body for original entry i after the bodies already sent for positions above i |
| OfflineSync.ExpenseApp.PendingCount | script.js:134-142 | the count is zero, and the sync button hidden, exactly when the slot is absent or holds an empty list |
| OfflineSync.ExpenseApp.SaveOffline | script.js:126-130 | the stored list becomes the old list plus the record at the end; an absent slot becomes exactly the one-record list; the count grows by one |
| OfflineSync.ExpenseApp.Submit | script.js:60-67 | one body is sent; on success the slot is untouched and the outcome is Delivered; on a throw the record is queued once and the outcome is Queued |
| OfflineSync.ExpenseApp.SyncData | script.js:76-98 | an empty or absent queue sends and writes nothing. Otherwise one body is sent per entry, from the last position to the first, and the stored list becomes exactly the entries whose send threw. The returned count equals the successful sends, and count plus remaining equals the original length |

## Left out

- DOM updates, the modal, button states, `alert`, status text and the default date and time
  (script.js:4-20, 136-201) are presentation only.
- `FileReader`, the image preview and the file-name display (script.js:23-37) are browser I/O.
  The attachment itself is never sent; only `fileRef` is.
- `fetch` is an oracle. Its opaque `no-cors` response, and a request that never settles, are
  not modelled.
- JSON serialisation is not modelled. Storage holds records directly. Corrupt slot content,
  on which `JSON.parse` throws uncaught in `syncData`, `saveOffline` and `updateSyncUI`, is not
  modelled.
- A stored entry that lacks `date` or `time` is not modelled. The source would throw at
  `split` before any write, outside the `try`. In the model every record has all eight string
  fields.
- `navigator.onLine` and the `online`/`offline` listeners (script.js:145-151, 204-205) are
  advisory signals that decide nothing in the queue.
- Interleaving of a submit with a drain in flight is not modelled. The code awaits each
  `fetch` and has no lock, so a record queued during a drain can be overwritten by the drain's
  final write.
- Storage writes are assumed not to throw. `localStorage.setItem` can throw, for example when
  the storage quota is exceeded (script.js:98, 129). In `syncData` the entries already
  delivered would then stay stored and be sent again on the next sync. On the submit handler's
  catch path the record would be lost. In the model every write succeeds.
- Presentation code is assumed not to throw. `showModal(true, rawData)` runs inside the `try`
  (script.js:63), so if it threw after the `fetch` resolved, the record would be queued as
  well. `ExpenseApp.Submit` assumes this does not happen: on a successful send the slot is
  left as it was.
- Overlapping drains are not modelled. `syncData` only changes the sync button's label
  (script.js:80) and does not disable it, so a second drain can start while one is awaiting a
  `fetch`. Both would send every entry, and the later final write would win.
- `Split` covers only the one-character separators the encoder uses. It has no limit
  argument and no multi-character separators.
