# Export of a dataset to a CSV attachment

This project models the core of a data-fair processing plugin. The plugin exports the lines of a dataset to a CSV file and publishes that file as an attachment of the same dataset. One run does four things:

1. It builds the URL of the first request to the dataset's line API. The URL holds the page size, the selected fields joined by commas, and an optional `qs=field:value` filter.
2. It repeats a loop until a page comes back without a truthy `next` link. Each pass requests a page, deletes the `_score` key from every record, pushes the records onto an object-mode stream in order, and then follows the page's link. After the loop it calls `push()` with no value. On an object-mode stream that queues `undefined` as one more chunk and does not end the stream, since only `push(null)` ends it (see Findings).
3. It names the upload after the file's base name. It reads the dataset's attachment list, splices out the first attachment with that name, and appends a new entry. The new entry is the upload response with `type: 'file'` and the processing's label as `title`.
4. It picks the unit in which the size of the upload is logged.

The modules follow these parts:

- `Values`: JavaScript values and truthiness.
- `LinesUrl`: part 1.
- `Pagination`: part 2. The stream is the class `RecordStream`, whose queued chunks and ended flag the pushes update in place. `FetchPages` models the loop and its final `push()` as written, and `FetchPagesEnded` the corrected ending with `push(null)`.
- `Attachments`: part 3.
- `ByteDisplay`: part 4.
- `Export`: the whole run, using the corrected ending.

The server is modelled by its answers, which the run takes as inputs:

- the pages of the line API, in request order;
- the body of the upload response;
- the attachment list of the dataset.

If the pages run out before one comes without a link, the next request is rejected. The run then fails at that point: the final `push()` is never made and nothing is uploaded.

Pages are requested 1000 lines at a time (`size=1000`, `LinesUrl.PageSize`).

## Model

| member | source | states |
|---|---|---|
| LinesUrl.FirstUrlQuery | index.js:31-32 | The query string of the first URL, read back under `href + '/lines?'`, is exactly `size=1000`, `select=<fields joined by ','>` and, only when the filter applies, `qs=<field>:<value>`, in that order. This holds whenever no field name and no filter part contains `&`. |
| LinesUrl.FilterSuffix | index.js:32 | The `qs` parameter is present if and only if the filter, its field and its value are all truthy. Otherwise the URL is the one built without a filter. |
| LinesUrl.SelectedFields | index.js:31 | Splitting the `select` parameter at commas gives back the configured field list, in order, when that list is non-empty and no field name contains a comma. An empty list would give back one empty name. |
| LinesUrl.SplitJoin | index.js:31 | `split(sep)` inverts `join(sep)` on a non-empty list whose elements do not contain `sep`. |
| LinesUrl.UrlFromParts | index.js:31-32 | The first URL is `href + '/lines?'` followed by its `key=value` pieces joined by `&`. |
| Pagination.Clean | index.js:37 | `delete result._score`: the record loses `_score` and keeps every other key with its value. |
| Pagination.CleanAll | index.js:36-39 | The records of one page, cleaned one by one, in the same order and the same number. |
| Pagination.RecordStream.constructor | index.js:20-21 | A new object-mode stream holds no record and has not ended. |
| Pagination.RecordStream.Push | index.js:38 | Pushing any value but `null` onto the object-mode stream queues it as the next chunk and leaves the stream open. It requires a stream that has not ended. |
| Pagination.RecordStream.PushEnd | index.js:42 | Pushing `null`, the end-of-stream signal, ends the stream and queues nothing. This is the corrected form of line 42. |
| Pagination.Chunks | index.js:38 | Records become stream chunks one for one. |
| Pagination.ChunksAt | index.js:38 | The `i`-th chunk is the `i`-th record. |
| Pagination.ChunksAppend | index.js:36-39 | The chunks of consecutive record lists are concatenated. |
| Pagination.ChunksStep | index.js:36-39 | Reading one more page queues that page's cleaned records after the earlier ones. |
| Pagination.PushPage | index.js:36-39 | After the `for` loop over a page, the stream holds its old chunks followed by the page's cleaned records, and it is still open. |
| Pagination.PushNextPage | index.js:36-39 | Pushing page `i` takes the stream from the records of the first `i` pages to those of the first `i + 1`. |
| Pagination.ReadPages | index.js:33-41 | The do-while loop. The URLs requested are `Requests(first, responses)`. The loop stops by itself exactly when some page has a falsy link. The stream holds the cleaned records of the pages read, in page order, and is still open. |
| Pagination.FetchPages | index.js:33-42 | As written: the loop, then `push()`, which queues `undefined` after the records of a run that read every page and leaves the stream open. The requests and the success are those of `ReadPages`. |
| Pagination.FetchPagesEnded | index.js:33-42 | Corrected: the loop, then `push(null)`. The stream holds exactly the cleaned records of the pages read, and it has ended exactly when the loop stopped by itself. |
| Pagination.TrailingUndefined | index.js:42 | As written, a run that reads every page leaves one chunk more than the pages hold results, and that last chunk is `undefined`. |
| Pagination.EmptyPageQueuesUndefined | index.js:42 | As written, a single empty page without a link leaves `undefined` as the only chunk. |
| Pagination.RecordsOnly | index.js:36-42 | With the corrected ending, every chunk is a record, and there are as many as the pages read hold results. |
| Pagination.PagesReadAll | index.js:40-41 | When every page's link is truthy, all pages are read and the loop does not stop by itself. |
| Pagination.PagesReadStop | index.js:40-41 | The loop reads exactly up to and including the first page whose link is falsy. |
| Pagination.Exhausted | index.js:33-41 | When every page's link is truthy, all pages are read, the loop does not stop by itself, and the failed request comes last. |
| Pagination.Stopped | index.js:40-42 | When the loop leaves at the first page with a falsy link, that page is the last one read and the requests end with its own. |
| Pagination.RequestsAsUrls | index.js:33-41 | The requests are the first URL followed by the link of each page read before the last request. |
| Pagination.RequestsSoFar | index.js:33-41 | The URLs requested so far, followed by the requests still to come from the current URL, make up the whole request sequence. |
| Pagination.RecordsStep | index.js:36-39 | Reading one more page appends that page's cleaned records. |
| Pagination.RequestsShape | index.js:33-41 | There is one request per page read, plus one when the pages run out. Every request after the first is the truthy `next` link of the page answered just before it. |
| Pagination.RecordsAppend | index.js:33-41 | The records of consecutive runs of pages are concatenated in page order. |
| Pagination.RecordsAt | index.js:36-39 | The cleaned `j`-th result of page `k` sits right after the records of all earlier pages. |
| Pagination.RecordCount | index.js:36-39 | As many records are pushed as the pages hold results together. |
| Pagination.RecordsCleaned | index.js:37 | No pushed record carries `_score`. |
| Pagination.SinglePage | index.js:33-42 | A single page without a link gives one request and exactly that page's cleaned records. |
| Attachments.LastSegment | index.js:44 | The base name of a path holds no `/`, ends the path, and is either the whole path or preceded by a `/`. |
| Attachments.LastSegmentAfter | index.js:22 | The base name of `dir + '/' + name` is the base name of `name`, whatever `dir` is. |
| Attachments.UploadNameIs | index.js:22 | The upload is named `<filename>.csv` when the configured file name holds no `/`, whatever the temporary directory is. |
| Attachments.FindIndex | index.js:63 | `findIndex` returns the first index of an attachment named after the upload, or -1 when there is none. |
| Attachments.NewEntry | index.js:70-74 | The new entry has the upload response's keys plus `type` and `title`. `type` is `'file'`, `title` is the label, and every other key keeps the response's value. |
| Attachments.WithoutFirstAt | index.js:64 | `splice(idx, 1)` at the first matching index removes exactly the first attachment with that name. |
| Attachments.WithoutFirstNone | index.js:63-64 | With no matching attachment, the list is left as it was. |
| Attachments.UpdateAttachments | index.js:62-76 | The list patched onto the dataset is the old list without its first attachment named after the upload, followed by the new entry. |
| Attachments.WithoutFirstCount | index.js:63-64 | Removing the first match drops one entry, and one of that name, exactly when there is a match. |
| Attachments.CountAppend | index.js:69-75 | Appending an entry adds one to the count of a name exactly when the entry carries that name. |
| Attachments.ReplacedLength | index.js:63-75 | The patched list has one entry fewer when a match was removed, plus the new entry, which comes last. |
| Attachments.ReplacedUnique | index.js:63-75 | With at most one attachment of that name before, and a new entry of that name, exactly one is left. |
| Attachments.LeavesNoneNamed | index.js:63-64 | With at most one match, none is left after the splice. |
| Attachments.CountPositive | index.js:63 | An attachment with that name makes its count positive. |
| Attachments.PublishTwice | index.js:62-77 | Publishing the same file twice in a row gives the same list as publishing it once with the second entry, and leaves one entry of that name. |
| Attachments.NewEntryName | index.js:71 | The new entry is named after the upload exactly when the upload response is, because the spread keeps its `name`. |
| Attachments.OthersKeepOrder | index.js:64 | The splice keeps every attachment of another name, in the same order. |
| Attachments.OthersAppendNamed | index.js:69-75 | Appending an entry of that name leaves the other-named attachments unchanged. |
| ByteDisplay.Pow1000 | index.js:12 | The powers of 1000 are at least 1. |
| ByteDisplay.UnitsArePowers | index.js:12 | The unit table has six units, and the threshold of unit `k` is `1000^k`. |
| ByteDisplay.DisplayBytes | index.js:9-16 | As written: `NaN` gives `undefined` and 0 gives `'0 octets'`. A positive size below `1000^5` is shown in the unit `u < 5` with `1000^u <= size < 1000^(u+1)`. A size of at least `1000^5` gives `undefined`. |
| ByteDisplay.OnePetaOctetIsUndefined | index.js:12-15 | A size of exactly `1000^5` octets is shown as `undefined`. |
| ByteDisplay.DisplayBytesIntended | index.js:9-16 | Corrected: every positive size is shown in the largest unit whose threshold it reaches, `Po` included. Every number gets a unit, and only `NaN` gives `undefined`. |
| Export.Run | index.js:19-77 | One run, with the corrected end-of-stream push, tied to the parts above. It states the requests made and the records queued. It publishes exactly when a page without a link is reached, and the stream has then ended. It also states the upload's name and the attachment list patched. |
| Export.PublishedAttachments | index.js:62-77 | After publishing, exactly one attachment is named after the upload, and every other attachment is kept in order. This holds when the dataset had at most one of that name and the upload response carries that name. |

## Left out

- HTTP: `axios` requests are modelled by the server's answers, passed in as inputs. Headers, `maxContentLength`/`maxBodyLength` and the POST and PATCH requests themselves are not modelled. The run returns the list it would patch.
- Files and streams: the CSV conversion (`csv.stringify` with header and quoted strings), the write stream, `pump`, `fs.createReadStream` and the multipart `FormData` body are I/O. The model keeps only the chunks pushed onto the object stream and whether it ended. What `csv.stringify` makes of a trailing `undefined` chunk is not modelled.
- Concurrency: `pump` is not awaited, so the upload can start before the CSV file is fully written. The model is sequential and does not capture that race.
- Logging: the `log.info` lines, including the count of lines fetched per page and the size message, are not modelled.
- ByteDisplay.DisplayBytes: returns the unit chosen, not the text. The floating-point division `aSize / def[i - 1][0]` and `toLocaleString` are left out because they are floating point and locale formatting.
- ByteDisplay.DisplayBytes: `parseInt(aSize, 10)` is taken as already applied. The input is the integer it yields, or `None` for `NaN`. The form-data length is an integer.
- Attachments.UploadName: `path.join` normalisation and Windows separators are not modelled. The base name is the text after the last `/` of `tmpDir + '/' + filename + '.csv'`.
- Attachments.UpdateAttachments: takes the attachment list as a value. A dataset without an `attachments` array, on which `findIndex` would throw, is not modelled.
- Pagination.Clean: a record is a map, so the order of its keys is not kept. `csv.stringify` with `header: true` takes its columns from the first record's keys in order, and that column order is not modelled.
- Pagination.Clean: records are values. `delete result._score` mutates the response object in place, and no other reference to it is modelled.
- Pagination.FetchPages: a rejected request is modelled only as the responses running out. A page without `results`, on which the loop would throw, is not modelled.
- Values.Value: numbers in records are integers. Floating-point values and nested objects are not distinguished, since the model only moves records, apart from removing `_score`.
- LinesUrl.FilterApplies: the filter's field and value are strings, truthy when non-empty. JavaScript truthiness of other configuration values, such as the number `0`, is not modelled.
- Export.Run: the `label` of the configuration becomes the attachment's `title`. The upload response is taken as given; the model does not compute it from the file.

## Findings

| source | as written | input that shows it | evidently intended | confidence | as-written member | corrected member |
|---|---|---|---|---|---|---|
| index.js:12-15 | The loop returns at the first threshold above the size. When the size reaches the largest threshold, `Po`, the loop ends and `displayBytes` returns `undefined`, so the `Po` unit is never used. | A content length of `1000^5` = 1000000000000000 octets is logged as `(undefined)`. | Such a size is shown in `Po`: `1 Po` for `1000^5`. | not executed | ByteDisplay.OnePetaOctetIsUndefined | ByteDisplay.DisplayBytesIntended |
| index.js:42 | The stream is created in object mode, where only `null` ends it. `push()` with no value pushes `undefined`, which is queued as one more chunk after the records, and the stream is never ended. | One page with no results and no `next` link: the stream's only chunk is `undefined`, and it stays open. | `push(null)`: end the stream after the last record. | not executed | Pagination.TrailingUndefined | Pagination.FetchPagesEnded |
