# Airbyte: connection save path, Amplitude source setup, substream retrieval

This project models three small parts of the Airbyte code base in Dafny and
proves properties of each:

- **The connection replication page** (`ConnectionReplication.tsx`). When the
  edit form is submitted, the page decides whether the catalog changed. A
  stream counts when it is selected; the selected streams are sorted by name
  and compared entry by entry. A change opens the reset modal. The update
  payload is built by merging the stored connection, the form values, the
  connection id and the `skipReset` choice. The page flags `saved`,
  `schemaHasBeenRefreshed` and `submitError` are set along the way.
  `catalogIsDifferent` is modelled too.
  - Modules: `Catalog` covers filter, stable sort and the change test.
    `Replication` covers the payload, the decisions, and a class
    `ConnectionReplicationPage` whose fields are the page's state.
  - `Replication.Submit` is the specification function of the state
    `onFormSubmit` leaves behind. The method
    `ConnectionReplicationPage.OnFormSubmit` performs the same steps through
    the setters and is proved equal to it.
- **The Amplitude source** (`source.py`), in module `Amplitude`.
  - `_convert_auth_to_token`: Latin-1 encoding, then base64 (module `Base64`),
    `strip`, then ASCII decoding.
  - `_validate_start_date`: a start date in the future is clamped to "now",
    rendered as a string at second precision.
  - `streams`: overwrites `start_date` in the configuration dictionary, held
    in a class `Config`, and returns the five streams.
- **`SubstreamRetriever.read_records`** (`substream_retriever.py`), in module
  `Substream`. All parent records are read first. Then, for each parent in
  order, the records of its sub-response are yielded, followed by further
  pages when the paginator returns a truthy token. Every record is updated
  with the additional fields evaluated for its parent. The generator is
  modelled as a method that builds its trace of events (parent read, record
  yielded). The trace is proved equal to a specification built from
  `Flatten`, the concatenated per-parent blocks.

Rules that shape the model:
- The change test compares whole sorted stream entries, not only their
  names. The model follows the code.
- `Array.prototype.sort` is stable, so two selected streams that share a name
  keep their relative order (`Catalog.SortByNameStable`).
  `Catalog.SameNameReorderCountsAsChange` shows that swapping two such
  streams counts as a change.
- When the schema is refreshing, `saveConnection` returns without sending.
  `onFormSubmit` still sets `saved` and clears `schemaHasBeenRefreshed`, and
  the model keeps this.
- `_validate_start_date` returns the parsed DateTime when it is not in the
  future, but a string when it is. `Amplitude.StartValue` keeps the two
  apart, and `Amplitude.Stored` says what `streams` writes back.
- Calls into code that is not part of this model are parameters. For the
  page, the network calls, the modal and the schema-refresh flag form an
  `Environment`. In `Substream`, the requester, extractors, paginator and
  interpolated mapping are fields of `Retriever`. In `Amplitude`, date
  parsing, date rendering and the current time are arguments.

## Model

Paths are relative to the repository root.

| member | source | states |
|---|---|---|
| Catalog.Selected | airbyte-webapp/src/pages/ConnectionPage/pages/ConnectionItemPage/components/ConnectionReplication.tsx:97 | the filter keeps exactly the selected streams: every kept stream is selected and from the input, every selected input stream is kept, and the list never grows |
| Catalog.Insert | airbyte-webapp/src/pages/ConnectionPage/pages/ConnectionItemPage/components/ConnectionReplication.tsx:98 | inserting adds exactly the one entry (as a multiset) and one to the length |
| Catalog.SortByName | airbyte-webapp/src/pages/ConnectionPage/pages/ConnectionItemPage/components/ConnectionReplication.tsx:98 | sorting by `stream?.name ?? ""` is a permutation of its input |
| Catalog.InsertSorted | airbyte-webapp/src/pages/ConnectionPage/pages/ConnectionItemPage/components/ConnectionReplication.tsx:98 | inserting into a list sorted by name keeps it sorted, for any total preorder on names |
| Catalog.LowerBoundInsert | airbyte-webapp/src/pages/ConnectionPage/pages/ConnectionItemPage/components/ConnectionReplication.tsx:98 | a name at most the inserted one and every present one is at most every name after insertion |
| Catalog.SortByNameSorted | airbyte-webapp/src/pages/ConnectionPage/pages/ConnectionItemPage/components/ConnectionReplication.tsx:98 | the sort's result is sorted by name |
| Catalog.InsertKeyClass | airbyte-webapp/src/pages/ConnectionPage/pages/ConnectionItemPage/components/ConnectionReplication.tsx:98 | insertion puts the new entry before every entry whose name is equivalent to its own |
| Catalog.SortByNameStable | airbyte-webapp/src/pages/ConnectionPage/pages/ConnectionItemPage/components/ConnectionReplication.tsx:98 | the sort is stable: for every name, the entries with an equivalent name appear in the output in their input order |
| Catalog.SortedUnique | airbyte-webapp/src/pages/ConnectionPage/pages/ConnectionItemPage/components/ConnectionReplication.tsx:95-102 | two name-sorted lists with the same entries, no two of which have names equivalent under the comparator, are equal |
| Catalog.SelectedAppend | airbyte-webapp/src/pages/ConnectionPage/pages/ConnectionItemPage/components/ConnectionReplication.tsx:97 | filtering distributes over concatenation |
| Catalog.SelectedSkipsUnselected | airbyte-webapp/src/pages/ConnectionPage/pages/ConnectionItemPage/components/ConnectionReplication.tsx:97 | an unselected stream anywhere in the list does not affect the filter |
| Catalog.SelectedKeepsSelected | airbyte-webapp/src/pages/ConnectionPage/pages/ConnectionItemPage/components/ConnectionReplication.tsx:97 | a selected stream is kept in its place, between what is kept before it and what is kept after it |
| Catalog.AddingUnselectedIsNoChange | airbyte-webapp/src/pages/ConnectionPage/pages/ConnectionItemPage/components/ConnectionReplication.tsx:95-102 | inserting an unselected stream at any position of the edited catalog does not change whether the catalog counts as changed |
| Catalog.RemovingUnselectedIsNoChange | airbyte-webapp/src/pages/ConnectionPage/pages/ConnectionItemPage/components/ConnectionReplication.tsx:95-102 | removing an unselected stream does not change the verdict |
| Catalog.EditingUnselectedIsNoChange | airbyte-webapp/src/pages/ConnectionPage/pages/ConnectionItemPage/components/ConnectionReplication.tsx:95-102 | replacing an unselected stream by another unselected one does not change the verdict |
| Catalog.HasCatalogChanged | airbyte-webapp/src/pages/ConnectionPage/pages/ConnectionItemPage/components/ConnectionReplication.tsx:95-102 | specification of `hasCatalogChanged`: the selected streams of the form and of the saved connection, each sorted by name, differ (its properties are in `Catalog.ChangeBounds` and `Catalog.ChangedIffSelectedDiffer`) |
| Catalog.ChangeBounds | airbyte-webapp/src/pages/ConnectionPage/pages/ConnectionItemPage/components/ConnectionReplication.tsx:95-102 | for any comparator, identical selected streams are never a change, and selected streams that differ as a multiset always are |
| Catalog.ChangedIffSelectedDiffer | airbyte-webapp/src/pages/ConnectionPage/pages/ConnectionItemPage/components/ConnectionReplication.tsx:95-102 | when no two edited selected streams have names equivalent under the comparator, the catalog has changed exactly when the selected streams differ as a multiset: reordering alone is never a change |
| Catalog.SameNameReorderCountsAsChange | airbyte-webapp/src/pages/ConnectionPage/pages/ConnectionItemPage/components/ConnectionReplication.tsx:95-102 | two selected streams both named "users", swapped, count as a change because the sort is stable |
| Replication.CatalogIsDifferent | airbyte-webapp/src/pages/ConnectionPage/pages/ConnectionItemPage/components/ConnectionReplication.tsx:151-154 | specification of `catalogIsDifferent`, the condition under which the diff modal opens (only the condition is modelled) |
| Replication.ValuesFields | airbyte-webapp/src/pages/ConnectionPage/pages/ConnectionItemPage/components/ConnectionReplication.tsx:69 | spreading the form values gives their fields plus `syncCatalog` holding the edited catalog |
| Replication.UpdatePayload | airbyte-webapp/src/pages/ConnectionPage/pages/ConnectionItemPage/components/ConnectionReplication.tsx:65-72 | the payload's keys are the union of the stored connection's and the form's, plus `syncCatalog`, `connectionId` and `skipReset`; the last two always hold the stored id and the decided flag; form values override the stored connection, and the stored connection's other keys pass through |
| Replication.SkipResetDecision | airbyte-webapp/src/pages/ConnectionPage/pages/ConnectionItemPage/components/ConnectionReplication.tsx:110-127 | nothing is saved exactly when the catalog changed and the modal was cancelled; an unchanged catalog saves with `skipReset = true`; `skipReset = false` exactly when the catalog changed, the user chose the reset and the connection is active |
| Replication.PayloadsDiffer | airbyte-webapp/src/pages/ConnectionPage/pages/ConnectionItemPage/components/ConnectionReplication.tsx:67-72 | the payloads with and without a reset always differ |
| Replication.SaveThenMark | airbyte-webapp/src/pages/ConnectionPage/pages/ConnectionItemPage/components/ConnectionReplication.tsx:127-131 | specification of `saveConnection` followed by the two setters: nothing sent while refreshing, otherwise the payload appended; a failed update sets the error instead of the flags (its properties are the `Submit…` lemmas) |
| Replication.Completes | airbyte-webapp/src/pages/ConnectionPage/pages/ConnectionItemPage/components/ConnectionReplication.tsx:109-131 | the condition for reaching `setSaved(true)`: past the lookup and the modal when the catalog changed, and the update did not throw |
| Replication.SubmitDecision | airbyte-webapp/src/pages/ConnectionPage/pages/ConnectionItemPage/components/ConnectionReplication.tsx:110-127 | specification of the `skipReset` that is saved with, or none when the submit stops first (its properties are in SubmitDecisionCases) |
| Replication.Submit | airbyte-webapp/src/pages/ConnectionPage/pages/ConnectionItemPage/components/ConnectionReplication.tsx:88-134 | specification of the state `onFormSubmit` leaves behind (its properties are the `Submit…` lemmas below) |
| Replication.SubmitDecisionCases | airbyte-webapp/src/pages/ConnectionPage/pages/ConnectionItemPage/components/ConnectionReplication.tsx:109-128 | the submit stops before saving exactly when the catalog changed and the state-type lookup failed or the modal was cancelled; otherwise it saves without a reset when unchanged, and with a reset exactly when changed, chosen and active |
| Replication.SubmitSent | airbyte-webapp/src/pages/ConnectionPage/pages/ConnectionItemPage/components/ConnectionReplication.tsx:60-128 | the submit sends the merged payload for the decided `skipReset`, and nothing when it stops early or the schema is refreshing |
| Replication.SubmitMarksSavedIffCompletes | airbyte-webapp/src/pages/ConnectionPage/pages/ConnectionItemPage/components/ConnectionReplication.tsx:109-134 | `saved` becomes true and `schemaHasBeenRefreshed` false exactly when the submit runs to completion, that is past the lookup and the modal, and the update passes or the schema is refreshing |
| Replication.SubmitSendsAtMostOnePayload | airbyte-webapp/src/pages/ConnectionPage/pages/ConnectionItemPage/components/ConnectionReplication.tsx:104-134 | at most one update is sent and it is one of the two merged payloads; none while the schema is refreshing; an unchanged catalog is sent with `skipReset = true` |
| Replication.SubmitCanceledChangesNothing | airbyte-webapp/src/pages/ConnectionPage/pages/ConnectionItemPage/components/ConnectionReplication.tsx:121-124 | a cancelled modal leaves the page as it was apart from the cleared error |
| Replication.SubmitResetsOnlyWhenChosen | airbyte-webapp/src/pages/ConnectionPage/pages/ConnectionItemPage/components/ConnectionReplication.tsx:117-120 | a payload with `skipReset = false` is sent exactly when the catalog changed, the lookup passed, the user chose the reset, the connection is active and the schema is not refreshing |
| Replication.SubmitErrorComesFromFailedCall | airbyte-webapp/src/pages/ConnectionPage/pages/ConnectionItemPage/components/ConnectionReplication.tsx:104-134 | an error left behind is the one thrown by the failed lookup (nothing sent) or by the failed update (one payload sent); no error is left exactly when the submit completes or the modal was cancelled |
| Replication.ConnectionReplicationPage.constructor | airbyte-webapp/src/pages/ConnectionPage/pages/ConnectionItemPage/components/ConnectionReplication.tsx:47-52 | the page starts unsaved and with nothing sent, with the refresh flag it is given and the submit error the form service holds |
| Replication.ConnectionReplicationPage.SaveConnection | airbyte-webapp/src/pages/ConnectionPage/pages/ConnectionItemPage/components/ConnectionReplication.tsx:60-72 | while the schema is refreshing nothing changes and nothing is thrown; otherwise exactly the merged payload is appended to what was sent and a failed update is thrown |
| Replication.ConnectionReplicationPage.OnFormSubmit | airbyte-webapp/src/pages/ConnectionPage/pages/ConnectionItemPage/components/ConnectionReplication.tsx:88-134 | the new page state is `Submit` of the old one, so each `Submit…` lemma above holds of it |
| Base64.Char | airbyte-integrations/connectors/source-amplitude/source_amplitude/source.py:22 | each 6-bit value maps to an ASCII alphabet byte that maps back to it |
| Base64.Value | airbyte-integrations/connectors/source-amplitude/source_amplitude/source.py:22 | a byte has a 6-bit value exactly when it is in the alphabet |
| Base64.Encode | airbyte-integrations/connectors/source-amplitude/source_amplitude/source.py:22 | the encoding is 4 bytes per started group of 3, all alphabet or pad bytes |
| Base64.GroupRoundTrip | airbyte-integrations/connectors/source-amplitude/source_amplitude/source.py:22 | a full 3-byte group decodes back to its bytes |
| Base64.OneRoundTrip | airbyte-integrations/connectors/source-amplitude/source_amplitude/source.py:22 | a final single byte with `==` padding decodes back |
| Base64.TwoRoundTrip | airbyte-integrations/connectors/source-amplitude/source_amplitude/source.py:22 | two final bytes with `=` padding decode back |
| Base64.DecodeEncode | airbyte-integrations/connectors/source-amplitude/source_amplitude/source.py:22 | decoding an encoding gives back the input, for every byte string |
| Amplitude.Latin1Encode | airbyte-integrations/connectors/source-amplitude/source_amplitude/source.py:20-21 | encoding succeeds exactly when every character is below 256, keeps each code point as the byte, and otherwise reports the first character that is not |
| Amplitude.AsciiDecode | airbyte-integrations/connectors/source-amplitude/source_amplitude/source.py:22 | decoding succeeds exactly when every byte is below 128, keeping each value, and otherwise reports the index of the first byte that is not |
| Amplitude.StripStart | airbyte-integrations/connectors/source-amplitude/source_amplitude/source.py:22 | a suffix of the input, with only whitespace dropped, that does not start with whitespace |
| Amplitude.StripEnd | airbyte-integrations/connectors/source-amplitude/source_amplitude/source.py:22 | a prefix of the input, with only whitespace dropped, that does not end with whitespace |
| Amplitude.Strip | airbyte-integrations/connectors/source-amplitude/source_amplitude/source.py:22 | specification of `bytes.strip()` (its properties are in StripTrims) |
| Amplitude.StripTrims | airbyte-integrations/connectors/source-amplitude/source_amplitude/source.py:22 | the stripped bytes are no longer than the input and neither start nor end with whitespace; nothing is left exactly when the input is all whitespace |
| Amplitude.AsciiBytes | airbyte-integrations/connectors/source-amplitude/source_amplitude/source.py:22 | the inverse of ASCII decoding: defined exactly on ASCII strings |
| Amplitude.ConvertAuthToToken | airbyte-integrations/connectors/source-amplitude/source_amplitude/source.py:19-23 | specification of the token: Latin-1 encode both parts, join with a colon, base64, strip, ASCII decode (its properties are the `Token…` lemmas) |
| Amplitude.StripKeepsEncoding | airbyte-integrations/connectors/source-amplitude/source_amplitude/source.py:22 | `strip` leaves base64 output unchanged, since it holds no whitespace |
| Amplitude.TokenShape | airbyte-integrations/connectors/source-amplitude/source_amplitude/source.py:19-23 | the token's bytes are exactly the base64 encoding of `username:password` in Latin-1 |
| Amplitude.TokenDecodesToUserPass | airbyte-integrations/connectors/source-amplitude/source_amplitude/source.py:19-23 | for Latin-1 credentials a token is produced and decodes back to `username`, a colon and `password` |
| Amplitude.TokenLength | airbyte-integrations/connectors/source-amplitude/source_amplitude/source.py:19-23 | the token is 4 characters per started group of 3 bytes of `username:password` |
| Amplitude.TokenIsAscii | airbyte-integrations/connectors/source-amplitude/source_amplitude/source.py:22 | the token consists of ASCII characters only |
| Amplitude.TokenFailsOnlyOutsideLatin1 | airbyte-integrations/connectors/source-amplitude/source_amplitude/source.py:19-23 | building the token fails exactly when a character of either part is outside Latin-1, and then with an encode error |
| Amplitude.ToSecond | airbyte-integrations/connectors/source-amplitude/source_amplitude/source.py:43 | rendering drops the sub-second part: the result is the whole second at or just before the time |
| Amplitude.ValidateStartDate | airbyte-integrations/connectors/source-amplitude/source_amplitude/source.py:34-44 | succeeds exactly when the value is a parseable string; the result is never after now; a date not in the future is kept as is, and a future one becomes now rendered at second precision |
| Amplitude.Stored | airbyte-integrations/connectors/source-amplitude/source_amplitude/source.py:50 | specification of what `config["start_date"]` holds after the clamp: the DateTime itself, or the rendered string |
| Amplitude.StreamList | airbyte-integrations/connectors/source-amplitude/source_amplitude/source.py:53-59 | five streams in order (cohorts, annotations, events, active users, average session length), all with the same authenticator, the last three with the stored start date |
| Amplitude.Get | airbyte-integrations/connectors/source-amplitude/source_amplitude/source.py:50 | specification of `config.get` (what a missing key leads to is stated by `Amplitude.AuthFrom` and `Amplitude.Streams`) |
| Amplitude.EncodePart | airbyte-integrations/connectors/source-amplitude/source_amplitude/source.py:20-21 | encoding a credential part succeeds exactly on a Latin-1 string; a value that is not a string fails first, then an encode error at the first bad character |
| Amplitude.AuthFrom | airbyte-integrations/connectors/source-amplitude/source_amplitude/source.py:52 | both keys are looked up before anything is encoded (a missing `api_key`, then a missing `secret_key`, is a key error); the username is encoded before the password, and each one's encoding error is the result when it is the first to fail; success exactly when both values are strings whose token can be built, giving the Basic authenticator over that token |
| Amplitude.Config.constructor | airbyte-integrations/connectors/source-amplitude/source_amplitude/source.py:46 | the configuration holds the given entries |
| Amplitude.Streams | airbyte-integrations/connectors/source-amplitude/source_amplitude/source.py:46-59 | the start date is overwritten with its clamped value before the token is built, and nothing else in the configuration changes; a failed clamp returns its error, a failed token after a good clamp returns the token's error; the call succeeds exactly when the clamp and the token both succeed, and then returns the five streams over the new start date |
| Substream.Merge | airbyte-cdk/python/airbyte_cdk/sources/declarative/retrievers/substream_retriever.py:61-64 | the updated record has both key sets; the evaluated fields win and the record's other keys stay |
| Substream.MergeAll | airbyte-cdk/python/airbyte_cdk/sources/declarative/retrievers/substream_retriever.py:60-64 | specification of merging every record of a page with the same parent fields (its properties are in `Substream.BlockAt` and `Substream.FlattenAt`) |
| Substream.Truthy | airbyte-cdk/python/airbyte_cdk/sources/declarative/retrievers/substream_retriever.py:55 | specification of the truthiness of the page token: present and not an empty mapping |
| Substream.FirstPage | airbyte-cdk/python/airbyte_cdk/sources/declarative/retrievers/substream_retriever.py:47-53 | specification of the records extracted from a parent's sub-response |
| Substream.HasNextPage | airbyte-cdk/python/airbyte_cdk/sources/declarative/retrievers/substream_retriever.py:54-55 | specification of whether the paginator gives a truthy token for those records |
| Substream.FurtherPages | airbyte-cdk/python/airbyte_cdk/sources/declarative/retrievers/substream_retriever.py:55-59 | specification of `next_pages`: the paginated read when there is a token, otherwise nothing |
| Substream.Block | airbyte-cdk/python/airbyte_cdk/sources/declarative/retrievers/substream_retriever.py:60-65 | specification of what one parent yields (its properties are in BlockAt) |
| Substream.Flatten | airbyte-cdk/python/airbyte_cdk/sources/declarative/retrievers/substream_retriever.py:46-65 | specification of all yielded records, parent by parent (its properties are in FlattenLength, FlattenAt and YieldedCarryParentFields) |
| Substream.ReadEvents | airbyte-cdk/python/airbyte_cdk/sources/declarative/retrievers/substream_retriever.py:45 | specification of the parent reads, one event per parent in order (its properties are in `Substream.ReadRecords` and `Substream.ReadsPrecedeYields`) |
| Substream.YieldEvents | airbyte-cdk/python/airbyte_cdk/sources/declarative/retrievers/substream_retriever.py:65 | specification of the yields, one event per record in order (its properties are in `Substream.ReadRecords`, `Substream.YieldEventsAppend` and `Substream.ReadsPrecedeYields`) |
| Substream.YieldEventsAppend | airbyte-cdk/python/airbyte_cdk/sources/declarative/retrievers/substream_retriever.py:65 | yielding two lists is yielding their concatenation |
| Substream.FlattenStep | airbyte-cdk/python/airbyte_cdk/sources/declarative/retrievers/substream_retriever.py:46-65 | one more parent adds exactly its block at the end of the yielded records |
| Substream.ReadsPrecedeYields | airbyte-cdk/python/airbyte_cdk/sources/declarative/retrievers/substream_retriever.py:45-65 | in a trace of reads followed by yields, nothing but yields follows a yield |
| Substream.ReadParents | airbyte-cdk/python/airbyte_cdk/sources/declarative/retrievers/substream_retriever.py:45 | the parents are the full-refresh read of the parent stream, each recorded as read |
| Substream.YieldChained | airbyte-cdk/python/airbyte_cdk/sources/declarative/retrievers/substream_retriever.py:60-65 | the inner loop yields the chained records, each updated with the parent's evaluated fields |
| Substream.ReadRecords | airbyte-cdk/python/airbyte_cdk/sources/declarative/retrievers/substream_retriever.py:38-65 | every parent is read before anything is yielded, then the blocks of all parents are yielded in parent order; no parent read follows a yield |
| Substream.FlattenLength | airbyte-cdk/python/airbyte_cdk/sources/declarative/retrievers/substream_retriever.py:46-65 | the number of yielded records is the sum over parents of the first-page size plus the further pages when there is a token |
| Substream.BlockAt | airbyte-cdk/python/airbyte_cdk/sources/declarative/retrievers/substream_retriever.py:53-64 | a parent's block is its first page then, only when the token is truthy, its further pages, each merged with that parent's fields |
| Substream.FlattenAt | airbyte-cdk/python/airbyte_cdk/sources/declarative/retrievers/substream_retriever.py:46-65 | the k-th record of parent i is yielded right after all records of the parents before it |
| Substream.YieldedCarryParentFields | airbyte-cdk/python/airbyte_cdk/sources/declarative/retrievers/substream_retriever.py:60-65 | every yielded record carries every additional field of some parent, with that parent's evaluated value (FlattenAt with BlockAt says which parent) |

## Left out

- Rendering of the page (`Formik`, the form, the warning and diff modals), analytics tracking, `useUnmount`, `useTrackPage` and translated messages: these are UI and side effects with no bearing on the saved state.
- The `useEffect` that opens the catalog diff modal when `catalogIsDifferent` holds: only the condition, `Replication.CatalogIsDifferent`, is modelled. Opening the modal is UI.
- `tidyConnectionFormValues` and `toWebBackendConnectionUpdate` are not part of this model. The tidied values and the stored connection as an update are given values.
- The remote calls (`getStateType`, `openModal`, `updateConnection`) and the comparator `naturalComparatorBy`: these are given as outcomes and as a total preorder on names. The awaited asynchrony, and any interleaving with other renders, are not modelled.
- Deep equality `equal` is Dafny's structural equality on the modelled entries.
- Catalog.ChangedIffSelectedDiffer: requires that no two edited selected streams have names equivalent under the comparator (`Catalog.DistinctKeys`). With two selected streams of equivalent names, the stable sort keeps their input order, so a pure reorder counts as a change (`Catalog.SameNameReorderCountsAsChange`).
- Base64.Decode: accepts non-zero padding bits in the last group, as lenient decoders do. It is only a partner of `Encode` here, since the source only encodes.
- `check_connection` and the Amplitude stream classes (`api.py` is not part of this model): streams are datatype values that record their constructor arguments.
- `pendulum.now`, `pendulum.parse` and `to_datetime_string`: these become a time argument, a parse function and a render function. Time zones and the logger call are left out.
- Python's dynamic typing of `config`: values are strings, date-times or other. `Amplitude.EncodePart` reports a non-string value as `NotAString` at the point where Python's `encode` call would raise.
- `SubstreamRetriever`: the HTTP requester of `SimpleRetriever`, the state, the stream slicer and the contents of `super().read_records` are not part of this model. The further pages of parent `i` are a given `nextPages(i)`.
- Substream.ReadRecords: records are values, so the in-place `record.update` as seen by other holders of the same dictionary is not modelled. The yielded order is modelled; the laziness of the generator, meaning when page requests happen relative to yields, is not.
- `cursor_field`, `stream_slice` and `stream_state` are fixed inside `additionalFields`. `sync_mode` is accepted and ignored, as in the source, which always reads in full-refresh mode.
