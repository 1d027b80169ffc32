# Artwork table: selection and pagination state

This project models the state logic of the single `App` component of a
browser table of artworks. The component loads one page of records at a time
from a public collection API and shows them in a checkbox table with a
paginator. It keeps the checked rows in one selection that lasts across page
changes. A pop-over lets the user type a count N and select the first N rows
of the page.

The component's React state becomes the class `AppState.App`. Its fields are
the loaded rows (only their ids), the 1-based page, the loading flag, the
selected ids, the bulk-select text, and the pagination `total` and `limit`.
Each handler becomes a method that replaces some of these fields. The method
contracts state the new state through pure functions in three modules:

- `Pagination`: the ids the client gives to the rows of a page,
  `(page - 1) * 12 + index + 1`, and the paginator's offset-to-page arithmetic
  `ceil(first / rows) + 1`.
- `Selection`: the page view of the selection (a filter of the loaded rows),
  the reconcile step (drop the page's ids, append the page's new selection),
  and the order-preserving de-duplication `Array.from(new Set(...))`.
- `BulkInput`: the text field's filter `replace(/\D/, '')`, which removes only
  the first non-digit, the reading of the text as `Number(text)`, the Submit
  button's `disabled` expression, and the handler's range check. The text is a
  sequence of UTF-16 code units, as JavaScript holds it. The pattern has no
  `u` flag, so it removes one code unit. A character outside the Basic
  Multilingual Plane is two code units (a surrogate pair), and the filter
  removes only the first of them.

Some behaviour comes straight from the code and is stated as lemmas:

- Non-numeric text (NaN) enables the Submit button, because NaN compares false
  to both bounds. The handler then ignores it.
- The button checks N against the collection total, but the handler checks it
  against the rows on the page. A count between the two enables Submit and
  does nothing.
- A failed load clears the loading flag and keeps the previous page's rows.
  The class keeps a ghost `shownPage` for the page those rows came from. A
  response that parses but whose records cannot be mapped fails after the
  pagination figures were already replaced.
- Typing a character outside the Basic Multilingual Plane into digit text
  leaves its lone low surrogate behind, so the text is no longer a number.

## Model

| member | source | states |
|---|---|---|
| AppState.App.constructor | src/App.tsx:33-45 | initial state: page 1, loading, no rows, empty selection, total 0, limit 12, empty text |
| AppState.App.LoadSucceeded | src/App.tsx:80-96 | a successful load of k records gives k rows, the row at index i having id (page-1)*12 + i + 1; it takes the reported total and limit, clears loading, and keeps page, selection and text |
| AppState.App.LoadFailed | src/App.tsx:78-79 | a request or parse that fails only clears loading; the previous rows, their page and the pagination figures stay |
| AppState.App.LoadFailedAfterPagination | src/App.tsx:81-101 | a body that parses but whose records cannot be mapped replaces total and limit, then clears loading; the previous rows stay |
| AppState.App.OnPageChange | src/App.tsx:58-63 | with first >= 0 and rows > 0: if ceil(first/rows)+1 is the current page nothing changes, otherwise page becomes that value and loading is set; rows and selection are untouched |
| AppState.App.CurrentPageSelection | src/App.tsx:65-67 | the checked rows are exactly the loaded rows whose id is selected |
| AppState.App.HandleSelectionChange | src/App.tsx:69-75 | given distinct rows of the page (what the table reports), the new selection is the old one without the loaded rows' ids, followed by the page's new selection, and it stays duplicate-free |
| AppState.App.SetSelectRange | src/App.tsx:134 | the stored text is the typed text with its first non-digit code unit removed |
| AppState.App.HandleSelectionWithNumber | src/App.tsx:48-56 | with N in [1, rows on page] the selection becomes the de-duplication of old ++ first N ids, which is the old selection in its order followed by the first N ids not yet selected; any other text leaves it unchanged; the selection stays duplicate-free |
| AppState.App.SubmitIsDisabled | src/App.tsx:136-140 | Submit is disabled exactly when the text is empty, or is digit text whose value is outside [1, total] |
| AppState.PageIdsNoDup | src/App.tsx:82-83 | the ids of one page never repeat |
| AppState.SelectionSurvivesOtherPage | src/App.tsx:65-74 | selecting on page p, then on another page q, leaves p's checked rows exactly the rows chosen on p, in page order |
| AppState.FirstNMerge | src/App.tsx:49-53 | on a duplicate-free selection, "first N" keeps the old selection as a prefix and appends the first N page ids not yet selected; the result holds the old ids and the first N ids and nothing else |
| AppState.RevisitPage | src/App.tsx:58-96 | driving the class through page p, a selection there, page q, a selection there and back to p shows p's rows checked as chosen |
| Pagination.PageIds | src/App.tsx:82-83 | a load of k records gives k ids; with k <= 12 each id gives back its page and its index |
| Pagination.PageIdsConsecutive | src/App.tsx:82-83 | the ids of a page are consecutive and strictly increasing |
| Pagination.PageIdsDisjoint | src/App.tsx:82-83 | two different pages with at most 12 rows each share no id |
| Pagination.RowIdInverse | src/App.tsx:83 | for index < 12 an id gives back the page and the index it was made from |
| Pagination.CeilDiv | src/App.tsx:59 | the result c is the ceiling of a/b: b*(c-1) < a <= b*c |
| Pagination.CeilDivUnique | src/App.tsx:59 | those bounds determine the ceiling uniquely |
| Pagination.PageFromOffset | src/App.tsx:59 | the page p from the event satisfies rows*(p-2) < first <= rows*(p-1), and p >= 1 when first >= 0 |
| Pagination.OffsetRoundTrip | src/App.tsx:59 | for every positive rows, the offset (p-1)*rows maps back to p |
| AppState.PaginatorEchoIsNoOp | src/App.tsx:59-60 | with the paginator given first = (page-1)*12 and rows = limit (line 132), its echo designates the current page, so nothing changes, when the limit is 12 |
| AppState.PaginatorEchoWithOtherLimit | src/App.tsx:59-60 | with limit 10 on page 2 the echoed offset 12 designates page 3, so the echo is a no-op only for limit 12 |
| Selection.Remove | src/App.tsx:73 | the ids kept are exactly those of the selection that are not on the page |
| Selection.Retain | src/App.tsx:66 | the rows kept are exactly those whose id occurs in the selection |
| Selection.Reconcile | src/App.tsx:71-74 | an id is in the result iff it was selected and is off the page, or it is in the new selection; the result ends with the new selection |
| Selection.Dedup | src/App.tsx:52 | the result has no duplicates and holds exactly the values of the input |
| Selection.RemoveAppend | src/App.tsx:73 | the filter distributes over concatenation, so it keeps relative order |
| Selection.ReconcileKeepsOtherIds | src/App.tsx:71-74 | when the new selection lies on the page, the selected ids off the page are unchanged, in their original order |
| Selection.ReconcileKeepsOtherPage | src/App.tsx:71-74 | the selection restricted to any page disjoint from the current one is unchanged, order included |
| Selection.ReconcileView | src/App.tsx:65-74 | after a reconcile the page's view of the selection is the new selection taken in page order |
| Selection.RetainIdempotent | src/App.tsx:66 | taking the page's view of the page's view changes nothing |
| Selection.ReportViewBack | src/App.tsx:65-74 | reporting the page's view back as the page's new selection leaves that view as it was |
| Selection.ReconcileNoDup | src/App.tsx:71-74 | a duplicate-free selection stays duplicate-free when the page's new selection is duplicate-free and lies on the page |
| Selection.DedupOfNoDup | src/App.tsx:52 | a duplicate-free sequence is its own de-duplication |
| Selection.DedupAppend | src/App.tsx:52 | Dedup(a ++ b) is Dedup(a) followed by the first occurrences in b of values absent from a, in order |
| Selection.MergeKeepsOldThenAppends | src/App.tsx:52 | with both parts duplicate-free, the merge is the old selection followed by the new ids not already in it |
| BulkInput.StripFirstNonDigit | src/App.tsx:134 | digit text is unchanged; other text loses exactly the code unit at its first non-digit position |
| BulkInput.StripAfterDigits | src/App.tsx:134 | after a digit prefix, the first non-digit code unit is the one removed, whatever follows it |
| BulkInput.KeystrokeKeepsDigits | src/App.tsx:134 | typing one Basic Multilingual Plane character (one code unit) anywhere in digit text keeps it if it is a digit and drops it otherwise, so the text stays digit text |
| BulkInput.AstralKeystrokeLeavesSurrogate | src/App.tsx:134 | typing a character outside the Basic Multilingual Plane into digit text removes only its high surrogate; the low surrogate stays and the text is no longer digit text |
| BulkInput.PasteCanLeaveNonDigit | src/App.tsx:134 | the filter is not global: "a1b" becomes "1b", which is not digit text |
| BulkInput.ParseCount | src/App.tsx:49 | text reads as a number iff it is digit text, and the empty text reads as 0 |
| BulkInput.ParseDecimal | src/App.tsx:49 | the decimal text of every count reads back as that count |
| BulkInput.SubmitDisabled | src/App.tsx:136-140 | disabled exactly when the text is empty, or is digit text whose value is outside [1, total]; text that is not a number (NaN) leaves Submit enabled |
| BulkInput.RequestedCount | src/App.tsx:49-50 | a count is accepted iff the text is digit text whose value is in [1, rows on page], and then the count is that value |
| BulkInput.AcceptedIsEnabled | src/App.tsx:50 | every count the handler accepts has Submit enabled, when the page holds no more rows than the total |
| BulkInput.EnabledButIgnored | src/App.tsx:50 | a count above the rows on the page and at most the total enables Submit but the handler ignores it |

## Left out

- The HTTP request, `response.json()`, the promise chain and the error log (src/App.tsx:78-102). A load is a call with the record count and the reported `total` and `limit`, or a failure.
- Overlapping loads. A slow response for an older page could overwrite a newer one. That is asynchronous behaviour; here a load always belongs to the current page.
- All rendering: the table, the columns, the paginator widget and the loading screen. The pop-over's `hide`/`toggle` calls (src/App.tsx:54, 119) are also left out, because they only show or hide it.
- AppState.App.LoadFailed: covers a request or a parse that fails (src/App.tsx:78-79). A body that parses but cannot be mapped is AppState.App.LoadFailedAfterPagination. A body without a `pagination` object would make `total` and `limit` undefined; the model keeps them as integers.
- Pagination.OffsetRoundTrip: the paginator receives `first = (page - 1) * 12` with the literal 12 but `rows = limit` (src/App.tsx:132), so the echo of the current page is a no-op only when the API reports limit 12. AppState.PaginatorEchoIsNoOp states it under that condition, and AppState.PaginatorEchoWithOtherLimit shows a limit of 10 designating another page. AppState.App.OnPageChange takes the event's `first` and `rows` as given by the widget; the widget's own computation of them from `limit` is not modelled.
- AppState.App.HandleSelectionChange: the table is trusted to report distinct rows of its own `value` (the loaded rows). The method requires this, and the selection stays duplicate-free because of it.
- The row text fields (title, place of origin, artist, inscriptions, dates) and the other pagination fields (offset, current page, total pages, next URL). No logic reads them.
- The `console.log` loop over the new ids (src/App.tsx:92-94).
- BulkInput.ParseCount: JavaScript `Number()` also accepts surrounding whitespace, signs, decimals, exponents and hex literals (" 12", "1e1", "0x1A"). The model reads every non-digit text as NaN. A pasted text can still hold non-digits after the field's filter.
- Pagination.PageFromOffset: `Math.ceil` on a float quotient is modelled as integer ceiling division, and the paginator's `rows` is required to be positive. A zero or negative row count, which the paginator does not produce, is not modelled.
- The ids are always synthesised with page size 12, whatever `limit` the API reports. The model keeps this. Pagination.PageIdsDisjoint and AppState.SelectionSurvivesOtherPage therefore require at most 12 rows per page.
