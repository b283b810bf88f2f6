# gpt-assistente gateway: a Dafny model of the request logic

`app.py` is a small Flask gateway. It authenticates against Microsoft Entra
(MSAL), calls Microsoft Graph for the OneDrive of one configured user
(`ONEDRIVE_USER`), and exposes `/search`, `/read` and `/debug/list` behind an
`x-api-key` guard. This project models the pure decision logic inside those
handlers as total Dafny functions:

- `path_url`, the builder of path-addressed Graph URLs;
- the `require_api_key` guard;
- `search`: query validation, choice of the search URL, and the display path of each result;
- `read`: path validation, content download, case-insensitive extension dispatch
  (`.pdf`, `.docx`, `.txt`, else 415), DOCX text assembly, and `MAX_CHARS` truncation;
- `debug_list`: choice of the listing URL and the list of names;
- the mapping of failures to statuses: `requests.HTTPError` gives 502, anything else gives 500.

Each handler returns a `Reply(status, body, calls)`. `calls` lists the Graph
URLs the handler requested, so "no upstream call" reads `calls == []`.

Everything outside this logic becomes a parameter:

- Graph itself is a function from URL to `Result`. It stands for `gget(url)` together with `.json()` or `.content`.
- The document libraries are the fields of `ReadEndpoint.Extractors`: `pdfminer`'s `extract_text`, `python-docx`'s `Document`, and `bytes.decode("utf-8", errors="ignore")`.

Files and modules:

| file | module | models |
|---|---|---|
| common.dfy | `Common` | `Option`, JSON `Field`, bytes, `Failure`/`Result`/`Outcome` |
| pytext.dfy | `PyText` | `strip`, `lstrip("/")`, `lower`, `endswith`, `replace(pat, "")`, `join`, plus `split` as the inverse of `join` |
| graph.dfy | `Graph` | `path_url`, the content, search and listing URLs, OData literal quoting |
| http.dfy | `Http` | drive items, reply bodies, failure-to-status mapping, API-key guard |
| search.dfy | `SearchEndpoint` | `search()` |
| read.dfy | `ReadEndpoint` | `read()` |
| debug_list.dfy | `DebugListEndpoint` | `debug_list()` |
| gateway.dfy | `Gateway` | the guarded routes and end-to-end properties |

Some behaviour of `app.py` worth stating plainly, because the model follows it:

- In `app.py`, a truncated text is `MAX_CHARS` characters plus the 18-character marker `"\n\n[...troncato...]"`, so it is longer than `MAX_CHARS`.
- In `app.py`, plain text is decoded with `errors="ignore"`, which drops invalid bytes instead of replacing them.
- In `app.py`, only `.pdf`, `.docx` and `.txt` are read. Every other extension, `.md` and `.csv` included, gives 415.
- In `app.py`, a wrong or missing key gives 403, never 401.
- In `app.py`, `/read` of an unsupported extension answers 415 only after the download succeeds. The file is fetched first, so a failed download gives 502 or 500 instead.
- In `app.py`, `data.get("value", [])` falls back to `[]` only when the key is missing. A `null` listing raises `TypeError` and is answered 500. A `null` element of the listing raises `AttributeError` and is also answered 500.
- `app.py` has no token cache, retry loop, pagination or shared-link resolution.

## Model

| member | source | states |
|---|---|---|
| PyText.Strip | app.py:105-106 | `strip()` leaves no whitespace at either end, and is empty exactly when the input was all whitespace (`str.isspace` code points) |
| PyText.StripRemovesExactlySurroundingSpace | app.py:105-106 | `strip()` removes exactly the surrounding whitespace: `Strip(a + m + b) == m` for blank `a`, `b` and an unpadded `m` |
| PyText.TrimLeft | app.py:75 | `lstrip` drops the longest prefix of the dropped characters and keeps the rest as a suffix of the input |
| PyText.LStripSlashesIgnoresLeadingSlashes | app.py:75 | `lstrip("/")` of `n` slashes followed by `s` equals `lstrip("/")` of `s` |
| PyText.Lower | app.py:153 | `lower()` keeps the length and lowers each ASCII capital, leaving every other character as it is |
| PyText.RemoveAll | app.py:123 | `replace(pat, "")` never lengthens the string and is the identity when `pat` does not occur |
| PyText.RemoveAllDropsLeadingOccurrence | app.py:123 | an occurrence of `pat` at the front is deleted and the pass resumes right after it |
| PyText.RemoveAllKeepsPrefixBeforeOccurrence | app.py:123 | text before the first occurrence of `pat` is kept unchanged |
| PyText.RemoveAllAtFirstOccurrence | app.py:123 | with the first occurrence at `|a|`, `(a + pat + s).replace(pat, "") == a + s.replace(pat, "")`; with the two lemmas above and the no-occurrence case this fixes the result for every input |
| PyText.Join | app.py:164-165 | `sep.join(parts)` is empty for no parts and the part itself for one; otherwise it starts with the first part followed by `sep`; PyText.SplitJoin and ReadEndpoint.JoinAppend are its partners |
| PyText.Split | app.py:165 | the reference decoder for `join`: splitting never yields an empty list or a piece containing the separator |
| PyText.JoinSplit | app.py:164-165 | `sep.join(s.split(sep)) == s` |
| PyText.SplitJoin | app.py:164-165 | `sep.join(parts).split(sep) == parts` when there is a part and no part contains `sep` |
| Graph.PathUrl | app.py:71-76 | the URL is the fixed drive-root prefix followed by the path minus its leading slashes; `None` or the empty path gives the empty suffix, and the suffix never starts with `/` |
| Graph.PathUrlIgnoresLeadingSlashes | app.py:75 | `path_url("/"*n + p) == path_url(p)` |
| Graph.ContentUrl | app.py:152 | the download URL is the drive-root prefix, the path with its leading slashes cut off, and `:/content` |
| Graph.SearchUrlAsWritten | app.py:113-116 | the URL `search` sends: the search scope, `(q='`, the query exactly as given, and `')` |
| Graph.QuoteBodyLength | app.py:114-116 | doubling quotes never shortens the query, lengthens it whenever it holds a quote, and changes nothing when it holds none |
| Graph.QuoteStep | app.py:114-116 | reading a literal body that starts with one written character gives that character back in front of the rest |
| Graph.ReadClosedLiteral | app.py:114-116 | the OData literal round trip: any text written with doubled quotes and then the closing quote reads back as the text and whatever follows the closing quote (when that does not start with a quote) |
| Graph.ReadLiteralBodyIsQuoted | app.py:114-116 | every literal that reads as text `t` was written as `t` with doubled quotes plus the closing quote |
| Graph.SearchUrl | app.py:113-116 | the corrected search URL: searches in the folder `path_url(path)` addresses when `path` is non-empty, else from the drive root; the `q=` literal reads back as exactly the query; it equals the URL `search` builds when the query has no single quote |
| Graph.AsWrittenSearchUrlKeepsQueryIff | app.py:113-116 | the URL as written carries the query intact if and only if the query has no single quote |
| Graph.AsWrittenSearchUrlCutsQueryAtQuote | app.py:114-116 | for a query `a + "'" + b` with no quote in `a` and `b` not starting with one (such as `l'amico`), the URL as written carries the query `a` and leaves `b + "')"` after the literal |
| Graph.DebugListUrl | app.py:231-233 | root children when the stripped argument is empty or only slashes, otherwise `path_url(stripped) + ":/children"` |
| Graph.OnlySlashesIffNothingLeft | app.py:231-232 | `lstrip("/")` leaves nothing exactly when the argument is all slashes |
| Http.Listing | app.py:120 | `data.get("value", [])` iterated, here and in `debug_list`: a missing `value` is the empty list, an array is its items, and a JSON `null` raises `'NoneType' object is not iterable` |
| Http.FailureReply | app.py:132-139 | an HTTP error gives 502 with the error JSON, or with the exception's text when that JSON does not parse; any other exception gives 500 under `error` |
| Http.Guarded | app.py:28-32 | no key configured: every request passes; key configured: the request passes exactly when `x-api-key` equals it, else 403 `{"error": "Forbidden"}` with no Graph call |
| SearchEndpoint.ResultPath | app.py:121-123 | the display path is never longer than `parent + "/" + name`, and is exactly that when the marker does not occur in it |
| SearchEndpoint.ResultPathDropsRootMarker | app.py:121-123 | for `parent == "/drive/root:" + rest`, the display path is `rest + "/" + name` whenever the marker does not occur in `rest + "/" + name` |
| SearchEndpoint.ResultPathWithoutColons | app.py:121-123 | the same for every `rest` and `name` without `:` |
| SearchEndpoint.ResultPathMarkerAcrossJoin | app.py:123 | the removal runs over the joined string: a marker formed across the joining `/` is removed as well |
| SearchEndpoint.ToHit | app.py:120-130 | an item yields an entry exactly when it is an object with no `null` in a needed field; the entry copies name, size, webUrl and id and carries the display path; a `null` item or parent reference raises `AttributeError`, a `null` parent path the left-operand `TypeError` and a `null` name the string-concatenation `TypeError`, in that order |
| SearchEndpoint.Hits | app.py:119-131 | all items readable if and only if every item gets an entry, in Graph's order; otherwise the exception of the first unreadable item |
| SearchEndpoint.Answer | app.py:118-139 | exactly one call to the given URL; 200 exactly when the call succeeds, the listing is not `null` and every item is readable, with one entry per item in order; a failed call goes through the 502/500 mapping; a `null` listing gives 500 with `'NoneType' object is not iterable`, and otherwise the first unreadable item gives 500 with the text of its exception |
| SearchEndpoint.Handle | app.py:102-116 | a blank `q` gives 400 with no call; otherwise the answer for the URL `search` builds from the stripped query and path, the query put between quotes as it is |
| SearchEndpoint.SearchRequestCarriesQuery | app.py:105-116 | with a non-blank `q`, the one URL requested searches the folder `path_url(path)` addresses when the stripped `path` is non-empty and the drive root otherwise; its `q=` literal reads back as the stripped query if and only if that query has no single quote |
| SearchEndpoint.CorrectedHandle | app.py:102-116 | `search()` with the query quoted as an OData literal: 400 on a blank `q`, otherwise the answer for the corrected URL |
| SearchEndpoint.CorrectedSearchCarriesQuery | app.py:105-116 | the corrected request's literal reads back as every stripped query, and the corrected handler answers exactly as `search()` when the query has no single quote |
| ReadEndpoint.KindOf | app.py:153-169 | PDF, DOCX or text exactly when the lower-cased path ends with `.pdf`, `.docx` or `.txt` |
| ReadEndpoint.KindOfIgnoresCase | app.py:153-166 | `Report.PDF` is PDF, `offerta.DocX` is DOCX and `/note.txt` is text |
| ReadEndpoint.KindOfLooksAtEnd | app.py:153-169 | `Docs/x.xyz`, a bare `pdf` and `note.txt.bak` are unsupported |
| ReadEndpoint.DocxLines | app.py:161-164 | the `parts` list holds every paragraph first, in order, then one line per table row in table order, each line being that row's cells joined by tabs |
| ReadEndpoint.JoinAppend | app.py:165 | joining two non-empty lists puts exactly one separator between their joins |
| ReadEndpoint.ParagraphsComeFirst | app.py:161-165 | when there is at least one paragraph, the DOCX text starts with the paragraphs joined by newlines, followed by a newline when any table row exists |
| ReadEndpoint.DocxTextReadsBack | app.py:161-165 | for a document with at least one paragraph or table row and no newline in any paragraph or cell, the DOCX text splits at newlines into the paragraphs and then one line per table row in table order; a row with at least one cell and no tab in any cell splits back at tabs into its cells |
| ReadEndpoint.DocxTextExample | app.py:161-165 | paragraph `Hello` plus a 2x2 table gives `Hello\ncellA\tcellB\ncellC\tcellD` |
| ReadEndpoint.PyPrefix | app.py:172 | Python's `text[:n]` is a prefix of `text` of length `n` when `0 <= n <= len(text)`, the whole text when `n` is larger, `len(text) + n` characters for a negative `n` down to `-len(text)`, and empty below that |
| ReadEndpoint.Truncate | app.py:171-172 | a text of at most `MAX_CHARS` characters is unchanged; a longer one is Python's `text[:MAX_CHARS]` plus the marker; for a non-negative `MAX_CHARS` it is of length `MAX_CHARS` + 18, with the same first `MAX_CHARS` characters |
| ReadEndpoint.TruncationIsMarked | app.py:171-172 | the leading text is never altered, and the result ends with the marker if and only if text was cut or already ended with it |
| ReadEndpoint.TruncationExample | app.py:171-172 | `MAX_CHARS = 10` and 50 characters give 28 characters |
| ReadEndpoint.Extract | app.py:155-167 | a PDF goes to the PDF extractor, a text file to the UTF-8 decoder, and a DOCX file to the DOCX parser, whose document becomes `DocxText`; an extractor's exception is passed on |
| ReadEndpoint.Answer | app.py:150-181 | one download call; 415 exactly when the download succeeded and the extension is unsupported; 200 exactly when an extractor produced text, answered with the path and the truncated text, of at most `MAX_CHARS` + 18 characters when `MAX_CHARS` is not negative; a failed download goes through the 502/500 mapping, and an extractor's exception gives 500 with its text |
| ReadEndpoint.Handle | app.py:142-152 | a blank path gives 400 with no call; otherwise the answer for the stripped path and its content URL `path_url(path) + ":/content"` |
| DebugListEndpoint.ListedNames | app.py:236 | one name per child, in order, `null` where the name is missing or `null`; a `null` child raises `AttributeError` |
| DebugListEndpoint.Handle | app.py:228-243 | always one call to the root or folder listing URL; 200 exactly when the call succeeds and neither the listing nor a child is `null`, with the children's names; a failed call goes through the 502/500 mapping under `http_error`; a `null` listing gives 500 with `'NoneType' object is not iterable` and a `null` child 500 with `'NoneType' object has no attribute 'get'` |
| DebugListEndpoint.DebugListIgnoresPadding | app.py:231 | whitespace around the argument and slashes before it do not change the answer |
| Gateway.SearchRoute | app.py:102-103 | `/search` runs only behind the guard: the endpoint's answer when no key is configured or the right key is sent, `Forbidden` otherwise |
| Gateway.ReadRoute | app.py:142-143 | `/read` runs only behind the guard, in the same way |
| Gateway.DebugListRoute | app.py:228-229 | `/debug/list` runs only behind the guard, in the same way |
| Gateway.MissingKeyIsRefusedEverywhere | app.py:28-32 | with a key configured, a request without `x-api-key` to `/search`, `/read` or `/debug/list` is answered 403 with no call |
| Gateway.UnsupportedPathIsDownloadedThenRefused | app.py:152-169 | `/read` with the right key of any non-blank path whose extension is unsupported downloads the file and, when the download succeeds, answers 415 whatever the extractors would do |
| Gateway.BlankQueryMakesNoCall | app.py:105-109 | a missing or blank query never reaches Graph, whatever the key configuration |
| Gateway.BlankPathMakesNoCall | app.py:145-148 | a missing or blank path never reaches Graph, whatever the key configuration |

## Findings

| source | as written | input that shows it | evidently intended | confidence | as-written member | corrected member |
|---|---|---|---|---|---|---|
| app.py:114-116 | the query is put between single quotes unescaped: `search(q='{q}')` | `q = "l'amico"` gives `search(q='l'amico')`, whose OData string literal is `l` and leaves `amico'` as trailing junk | double each single quote, as OData string literals require (`search(q='l''amico')`) | medium, not executed | Graph.SearchUrlAsWritten, Graph.AsWrittenSearchUrlKeepsQueryIff, Graph.AsWrittenSearchUrlCutsQueryAtQuote, SearchEndpoint.SearchRequestCarriesQuery | Graph.SearchUrl, SearchEndpoint.CorrectedHandle, SearchEndpoint.CorrectedSearchCarriesQuery |

`SearchEndpoint.Handle` and the `/search` route request the URL as `search`
writes it. `SearchEndpoint.CorrectedHandle` is the same handler with the
corrected URL. For every query without a single quote the two answer alike.

## Left out

- `get_token` and `debug_token` (app.py:39-58, 185-204): calls into MSAL, an external identity provider. A token failure is an `Exception` failure of the Graph parameter.
- `gget` (app.py:61-68): network I/O. The Graph parameter returns a value, an `HttpFailure` (from `raise_for_status`), or an `Exception`. Failures of `.json()` on the response count as `Exception`.
- PDF extraction, DOCX parsing and UTF-8 decoding (app.py:156-167): foreign libraries. They are fields of `ReadEndpoint.Extractors`, and the model covers only the dispatch and assembly around them.
- Flask routing, JSON serialisation, `home`, `health`, reading environment variables (including `int(MAX_CHARS)`), and `app.run` (app.py:14-24, 80-99, 247-248): framework and process glue. `MAX_CHARS` is taken as an arbitrary integer. A negative value is handled as Python slicing handles it.
- `request.get_json(force=True, silent=True)` (app.py:145): the `path` argument is modelled as an optional string. A falsy body or `path` (`[]`, `0`, `false`, `""`) becomes `{}` or `""` and is answered 400, which is the model's missing or blank path. A truthy body that is not an object, or a truthy `path` that is not a string, raises outside the `try` block, where Flask answers. That is not modelled.
- `debug_drive` (app.py:207-225): pure pass-through of three Graph calls.
- PyText.Lower: only ASCII letters are lowered. The only non-ASCII letters whose lower case holds ASCII letters are U+0130 (giving `i` plus a combining dot) and U+212A (giving `k`). Neither letter occurs in `.pdf`, `.docx` or `.txt`, so the dispatch is unaffected.
- URL escaping: paths and queries enter the URL as text, as in `app.py`. `requests`' own re-quoting of a URL is not modelled.
- Exception texts: `str(e)` of upstream and library exceptions is an opaque string. For `null` item fields the model uses CPython's `TypeError`/`AttributeError` texts.
- Graph item fields: `size` is an optional integer, and the other fields are optional strings. Other JSON types in those fields, a `value` that is neither an array nor `null`, an element that is neither an object nor `null`, and a response that is not a JSON object are not modelled.
