# ImageFetchPy download pipeline in Dafny

A model of the download pipeline of ImageFetchPy (`ImageFetchPy/main.py`),
which scrapes a Google Images result page for each keyword and saves the
pictures in `images/<slug>/` by number, with a URL ledger in
`images/<slug>/url/<slug>_urls.txt` so that later runs skip images
already fetched. The slug is the keyword with every space replaced by `_`.
The image files themselves are named after the raw keyword:
`<keyword>_<number><ext>`.

The model covers:

- the cursor scan over the page markup. Each pass finds the next `"https://`, the next `"` after it, and a `\` before that quote. The filter then keeps a token only if an allow-listed extension occurs in it and neither of Google's two static hosts does;
- the dedupe against the ledger, the two counters `image_counter` and `last_number`, and the limit. Both loops are modelled: `download_query`'s, and its ledger-free copy `download_images_from_html`;
- the decision `download_image` takes once the reply and the sniffed MIME type are known;
- the reconciliation of existing state:
  - the starting counter computed from the folder listing;
  - the ledger set read back from the file;
  - the keyword list;
  - the folder name (slug).

Python's own semantics are modelled where the code leans on them:

- `str.find` returning `-1` and accepting `-1` back as a start or end;
- slicing with negative and out-of-range bounds;
- `strip` and its whitespace set;
- `split`;
- `int()` and `str()`;
- `in` on strings;
- reading a text file line by line with universal newlines.

Modules:

- `PyText`, `PyInt`: Python string and integer semantics.
- `Wrappers`: `Option` and `Result`.
- `Extractor`: one pass of the scan, and the filter.
- `Fetcher`: `download_image`.
- `LedgerStore`:
  - the slug and the keyword list;
  - image file names and the starting counter;
  - the ledger file.
- `Orchestrator`: the per-keyword loop, as `Step`/`Run` functions and as the two imperative methods proved equal to them.
- `QueryRunner`: the keyword loop of `download_query` over a model of the `images/` tree.

The outside world is given as inputs:

- `pages(i)` is the search page for the `i`-th keyword, or None when `download_page` raised.
- An `Environment` maps the number of downloads already attempted in a loop to an `Attempt`. An `Attempt` holds the reply to the GET (a transport error, or the body's text with the MIME type the sniffer reports) and whether the following ledger append succeeds.
- The folder tree is a map from folder name to the names `os.listdir` reports plus the ledger file's text.

Behaviour of the code that the model keeps, though a reader might expect otherwise:

- **The scan does not end when the candidates run out.** With no opener left, `find` returns `-1`. The next cursor is then the first `"` of the whole page, so the scan starts over (`Extractor.CursorWraps`). The loop only ends when `image_counter` reaches `limit`. The methods therefore take an iteration bound and report whether they stopped on it.
- **After the wrap the page's URLs are requested again.** Every opener is found again, except one standing at the page's first `"`. The ledger set is loaded before the loop and never grows during it, so a URL that failed is tried again, and a URL that succeeded is downloaded again under the next number. With too few URLs that succeed, the same ones are downloaded again until the limit is reached (`Orchestrator.WrapRequestsAgain`). With none that succeed, the loop never ends (`Orchestrator.NeverFinishes`).
- **A token with no closing quote is still produced.** It runs up to, but not including, the page's last character (`Extractor.UnclosedToken`).
- **A thumbnail-proxy URL is counted.** It still gets a number and a ledger line, but no file is written, so the saved numbers have a gap (`Orchestrator.ThumbnailCounted`).
- **A failed ledger append leaves the image uncounted.** This happens after the file was already written. The next counted image is given the same number. When its extension is the same, it overwrites the earlier file. When the extension differs, the two files stand side by side (`Orchestrator.LedgerFailureKeepsNumber`).
- **A URL with surrounding whitespace is requested on every run.** A token such as `https://a.co/x.jpg ` (from the page `"https://a.co/x.jpg "`) passes the filter and is appended to the ledger. Reading the ledger back strips each line, so the stored URL never matches the token again. A token with a line break inside it behaves the same way (`QueryRunner.UnlistableUrlRequestedAgain`, `QueryRunner.TrailingSpaceUnlistable`).
- **The ledger is read once per keyword.** A URL that occurs twice on one page is downloaded twice (`Orchestrator.RepeatNotBlocked`).
- **A malformed name stops the whole run.** A listed name that starts with the keyword but has no integer between its last `_` and the next `.` raises out of `download_query`. The `url` sub-folder is such a name for every keyword that is a prefix of `url`, the empty keyword produced by a trailing comma among them (`QueryRunner.PrefixOfUrlAborts`). The stop is modelled; the empty keyword's folders are not (see below).
- **A failed page fetch stops the whole run.** The remaining keywords are not processed.

## Model

| member | source | states |
|---|---|---|
| PyText.Find | ImageFetchPy/main.py:231-234 | `find` returns the lowest index at which the text occurs wholly inside the range after CPython's normalisation of `start` and `end` (negative from the end; a start is never capped), or -1 exactly when there is no such occurrence |
| PyText.Slice | ImageFetchPy/main.py:235-238 | a slice is never longer than the text; with bounds inside the text and in order it is the text between them; a negative end counts from the end of the text, so `s[a:-1]` drops the last character; bounds that cross after clamping give the empty text |
| PyText.Strip | ImageFetchPy/main.py:221 | the result begins and ends with a non-space, and a text that already does is unchanged |
| PyText.StripIsInfix | ImageFetchPy/main.py:202 | `strip` removes a whitespace prefix and a whitespace suffix and nothing else |
| PyText.Split | ImageFetchPy/main.py:212 | `split` on one character gives at least one part; no part holds the separator; every character of a part comes from the text |
| PyText.JoinSplit | ImageFetchPy/main.py:202 | joining the parts of a split with the separator gives the text back |
| PyText.SplitJoin | ImageFetchPy/main.py:202 | splitting a join of separator-free parts gives the parts back |
| PyText.SplitAtLast | ImageFetchPy/main.py:212 | the part after the last separator is the last element of the split |
| PyText.ReplaceJoinsSplit | ImageFetchPy/main.py:59 | `ReplaceChar`, `replace` of one character by another, agrees with Python's identity `s.replace(a, b) == b.join(s.split(a))` |
| PyInt.ParseIntToString | ImageFetchPy/main.py:212 | `int(str(n)) == n` for every integer, and `str(n)` holds no `_` |
| PyInt.IntToStringSeparators | ImageFetchPy/main.py:110 | the decimal text of a number contains neither `_` nor `.` |
| PyInt.IntText | ImageFetchPy/main.py:212 | the text `int()` reads begins and ends with a character that is not whitespace to `int()` |
| PyInt.ParseIntSurrounded | ImageFetchPy/main.py:212 | whitespace that `int()` skips, before and after the digits, does not change the number read |
| PyInt.SeparatorNotSkipped | ImageFetchPy/main.py:212 | a suffix that starts with one of the separator characters U+001C to U+001F makes `int()` raise, although `strip` removes that character |
| LedgerStore.Slug | ImageFetchPy/main.py:59 | the folder name has the keyword's length; every space of the keyword becomes `_` and every other character stays in place; a keyword without spaces is its own folder name |
| LedgerStore.KeywordList | ImageFetchPy/main.py:202 | one keyword per comma-separated item, and keyword k is item k stripped, so it holds no comma and no surrounding whitespace |
| LedgerStore.KeywordListOfJoin | ImageFetchPy/main.py:202 | a comma-joined list of comma-free items is read back as those items, each stripped; items that are already stripped come back unchanged |
| LedgerStore.SuffixText | ImageFetchPy/main.py:212 | the suffix taken from a name holds neither `_` nor `.` |
| LedgerStore.SuffixTextAfterLast | ImageFetchPy/main.py:212 | the suffix of a name with an `_` is the text after its last `_`, up to the first `.` after it or the end of the name |
| LedgerStore.SuffixTextWithoutUnderscore | ImageFetchPy/main.py:212 | the suffix of a name without `_` is its text up to the first `.`, or the whole name |
| LedgerStore.SuffixOfFileName | ImageFetchPy/main.py:110 | the suffix read back from `<keyword>_<n><ext>` is `str(n)` and parses to `n`, for any keyword and any extension that starts with `.` and has no `_` |
| LedgerStore.NameCarriesNumber | ImageFetchPy/main.py:110 | the name `FileName` gives an image starts with the keyword, so the counter computation picks it up, and `EntryNumber` reads its number back |
| LedgerStore.ExistingNumbersSpec | ImageFetchPy/main.py:211-212 | `ExistingNumbers`, the list comprehension, raises exactly when some name that starts with the keyword has no integer suffix (`EntryNumber` is None), and then reports such a name; otherwise it holds exactly the `EntryNumber`s of the matching names |
| LedgerStore.Max | ImageFetchPy/main.py:213 | `max` returns an element that bounds every element |
| LedgerStore.LastNumberIsMax | ImageFetchPy/main.py:211-213 | `LastNumber`, the starting counter, raises exactly when a matching name has no integer suffix; otherwise it is at least every matching name's number, 0 when nothing matches, and some matching name's number otherwise |
| LedgerStore.UrlDirectoryBreaksCounter | ImageFetchPy/main.py:211-213 | with `url` listed, a keyword that is a prefix of `url` makes the counter computation raise |
| LedgerStore.AddEntries | ImageFetchPy/main.py:211 | the listing after writing files holds exactly the old names and the new ones |
| LedgerStore.NextCounterCoversSaved | ImageFetchPy/main.py:211-213 | after saving images numbered above the starting counter, the counter computed from the new listing does not raise, does not decrease, and is at least every saved number |
| LedgerStore.UniversalNewlinesPlain | ImageFetchPy/main.py:220 | `UniversalNewlines`, text-mode reading, leaves a text without carriage returns unchanged |
| LedgerStore.FileLinesPartition | ImageFetchPy/main.py:221 | `FileLines`, iteration over the file, gives lines that concatenate to the text, each non-empty, each but the last ending with a newline |
| LedgerStore.FileLinesAppend | ImageFetchPy/main.py:221 | the lines of a text that ends with a complete line, followed by more text, are the lines of each part |
| LedgerStore.StripLine | ImageFetchPy/main.py:221 | stripping a URL line gives the URL back when it has no surrounding whitespace |
| LedgerStore.AppendedLines | ImageFetchPy/main.py:186-187 | `AppendedText`, the text the appends write, has exactly one line per URL, with no carriage return and a final newline |
| LedgerStore.LedgerReload | ImageFetchPy/main.py:216-221 | `LedgerUrls`, the set read back from a ledger after appending one-line, stripped URLs, is the old URL set plus exactly those URLs |
| LedgerStore.LedgerUrlsAreLines | ImageFetchPy/main.py:221 | every URL read back from a ledger is one stripped line: no newline, no carriage return, no surrounding whitespace |
| Fetcher.MimeExtensionOf | ImageFetchPy/main.py:105 | `MimeExtension` gives a dot followed by the MIME subtype, the text between the first `/` and the next |
| Fetcher.MimeExtensionMissing | ImageFetchPy/main.py:105 | reading the subtype raises exactly when the MIME string has no `/` |
| Fetcher.DownloadImage | ImageFetchPy/main.py:88-117 | thumbnail-proxy URLs and only those return without a fetch; a file is written only for a fetched non-markup body whose MIME extension is allowed, under `<keyword>_<last_number+1><ext>`; a body whose text contains `html` raises, and only such a body raises that error |
| Fetcher.WrittenExactly | ImageFetchPy/main.py:100-115 | a file is written if and only if the URL is not a thumbnail, the fetch succeeded, the body is not markup and the MIME extension exists and is allowed; the extension starts with `.` |
| Fetcher.ContentDecides | ImageFetchPy/main.py:100-110 | apart from the thumbnail prefix, the outcome depends on the reply alone and not on the URL (its apparent extension included) |
| Fetcher.HtmlTypeRejected | ImageFetchPy/main.py:104-108 | a body sniffed as `text/html` is never saved unless `.html` is allowed |
| Extractor.Scan | ImageFetchPy/main.py:231-238 | one pass gives an opener position and a closing position, each a valid index or -1 |
| Extractor.TokenShape | ImageFetchPy/main.py:231-238 | with an opener and a closing quote found, the cursor moves strictly forward to that quote, and the token is the text after the opening quote up to the first backslash or the quote; it starts with `https://` and holds no quote and no backslash |
| Extractor.UnclosedToken | ImageFetchPy/main.py:232-238 | an opener without a later quote still gives a token, which ends at the first backslash or else one character before the end of the page, and holds no quote and no backslash |
| Extractor.CursorWraps | ImageFetchPy/main.py:231-232 | with no opener left, the next cursor is the first quote of the whole page (-1 if there is none), and the following pass does not find an opener that stands at that quote |
| Extractor.WrapPage | ImageFetchPy/main.py:231-238 | on the page `" "u"` the first pass yields `u`, the next wraps the cursor to the first quote with an empty token, and the pass after it yields `u` again |
| Extractor.ScanAt | ImageFetchPy/main.py:231-238 | a pass is determined by the first opener after the cursor, the first quote after it, and the first backslash before that quote |
| Extractor.ScanQuotedUrl | ImageFetchPy/main.py:231-238 | a quoted URL that is the first opener after the cursor yields its text up to the first backslash, and the cursor moves to its closing quote |
| Extractor.TwoQuotedUrls | ImageFetchPy/main.py:229-238 | two space-separated quoted URLs are produced in order by two passes |
| Extractor.ScanQuotedPage | ImageFetchPy/main.py:229-238 | on a page of space-separated quoted URLs, the pass that starts at the closing quote of URL k-1 yields URL k and moves the cursor to URL k's closing quote |
| Extractor.ExampleTokens | ImageFetchPy/main.py:231-238 | the page `"https://example.com/a.jpg" "https://ssl.gstatic.com/b.png"` yields both URLs, in order |
| Extractor.ExampleFilter | ImageFetchPy/main.py:240 | of those two, only the first passes the filter with the default allow-list |
| Extractor.ExampleJpegAccepted | ImageFetchPy/main.py:194 | `https://example.com/a.jpg` passes `IsCandidate` with the default allow-list |
| Extractor.ExcludedHostRejected | ImageFetchPy/main.py:240 | `IsCandidate`, the filter, rejects a token containing `ssl.gstatic.com` or `www.gstatic.com` whatever the allow-list |
| Extractor.EscapeExample | ImageFetchPy/main.py:234-236 | in `"https://example.com/a.jpg\"more text"` the token ends at the backslash |
| Orchestrator.StepCoherent | ImageFetchPy/main.py:229-249 | an iteration (`Step`, with `Attempted` for an admitted token) makes a call exactly when its token is admitted, moves the cursor to the closing position, and keeps the loop state coherent: the counter equals the number of counted calls; `last_number` is the start plus the counter; the ledger lines are the counted URLs; each call was on an admitted URL with `last_number` equal to the start plus the images counted before it, and was counted exactly when neither `download_image` nor the ledger append raised |
| Orchestrator.StepCount | ImageFetchPy/main.py:245 | an iteration counts at most one image and never uncounts one |
| Orchestrator.RunCoherent | ImageFetchPy/main.py:229-249 | any number of iterations keeps the loop state coherent |
| Orchestrator.RunCount | ImageFetchPy/main.py:229 | over `Run`, the `while image_counter < limit` loop (`Iterate` applied to `Step`, cut off after a given number of iterations), the counter never decreases and never passes the limit |
| Orchestrator.RunSettled | ImageFetchPy/main.py:229 | once the counter reaches the limit, further iterations of `Iterate` change nothing, so the iteration bound only cuts off runs that would not end |
| Orchestrator.SavedNumbering | ImageFetchPy/main.py:243-246 | every image file the calls wrote (`SavedImages`) is numbered above the starting counter and at most one above the final `last_number`, with an allowed extension that starts with `.` |
| Orchestrator.LedgerUrlSkipped | ImageFetchPy/main.py:240-241 | a URL already in the ledger is not `Admitted`: it costs an iteration and nothing else: no call, no ledger line, no count |
| Orchestrator.ThumbnailCounted | ImageFetchPy/main.py:243-246 | an admitted thumbnail-proxy URL writes no file yet is counted, raises `last_number`, and with the ledger is logged |
| Orchestrator.LedgerFailureKeepsNumber | ImageFetchPy/main.py:243-249 | a failed ledger append leaves both counters and the ledger unchanged even when a file was written, so the next counted image is given the same number |
| Orchestrator.RunWithoutCandidates | ImageFetchPy/main.py:229-240 | when no cursor position yields an admissible token, iterations change only the cursor |
| Orchestrator.NeverFinishes | ImageFetchPy/main.py:229-232 | then, with a positive limit, no number of iterations reaches the limit or makes a call |
| Orchestrator.RepeatNotBlocked | ImageFetchPy/main.py:241-246 | a URL that occurs twice on the page is requested twice |
| Orchestrator.WrapRequestsAgain | ImageFetchPy/main.py:229-246 | on the page `" "u"` with `u` admitted and both replies accepted, three iterations request `u`, wrap back to the first quote, and request `u` again under the next number, so a limit of two is met by one URL |
| Orchestrator.PageLog | ImageFetchPy/main.py:243 | the calls made on a page of admitted URLs: call j is on URL j with `last_number` equal to the start plus j, and is counted |
| Orchestrator.PageStep | ImageFetchPy/main.py:229-249 | on a page of quoted, admitted URLs whose replies are all accepted, iteration k takes URL k, hands it to `download_image` with `last_number` equal to start+k, counts it and, with the ledger, appends it |
| Orchestrator.PageRun | ImageFetchPy/main.py:229-249 | on such a page, n iterations with n at most the number of URLs and at most the limit take the first n URLs in order |
| Orchestrator.Reach | ImageFetchPy/main.py:229 | the number of images a page of N acceptable URLs yields: at most N and at most a non-negative limit, and equal to N or to the limit, or 0 for a negative limit |
| Orchestrator.LimitReached | ImageFetchPy/main.py:229-249 | for a page of N quoted URLs that pass the filter and are not in the ledger, whose replies are non-markup bodies with an allowed MIME extension and whose ledger appends succeed, `Run` for min(N, limit) iterations counts that many images; `last_number` ends at the start plus that count; call j is on URL j and is counted; each non-thumbnail URL j is written as `<keyword>_<start+j+1><ext>`; the ledger lines are those URLs in order (`Orchestrator.RunSettled` shows that further iterations change nothing once the limit is reached) |
| Orchestrator.ScanPass | ImageFetchPy/main.py:231-238 | the three `find` calls and the slice of one pass compute `Scan` |
| Orchestrator.Iteration | ImageFetchPy/main.py:230-249 | one execution of the loop body computes `Step` |
| Orchestrator.DownloadQueryLoop | ImageFetchPy/main.py:226-249 | the loop with the ledger ends in the state `Run` specifies, coherent; it stops short of the limit only when its bound ran out; for a non-negative limit the counter ends at most at the limit, and equal to it when the loop ended by itself |
| Orchestrator.DownloadImagesFromHtml | ImageFetchPy/main.py:131-153 | the same for the loop without the ledger: no ledger check, no ledger lines, and an image is counted whenever `download_image` does not raise |
| QueryRunner.Prepared | ImageFetchPy/main.py:206-207 | after the folders are created, the keyword's folder lists exactly its old names plus `url` and keeps its ledger, or holds only `url` when it is new |
| QueryRunner.PreparedIdempotent | ImageFetchPy/main.py:60-70 | creating the folders of a keyword that already has them changes nothing |
| QueryRunner.FileNames | ImageFetchPy/main.py:110 | one file name per saved image; for an extension that starts with `.` and holds no `_`, the name starts with the keyword and the counter computation reads the image's number back from it |
| QueryRunner.CommitLogsUrls | ImageFetchPy/main.py:216-221 | in `Committed`, the folder after a run (its image files added to the listing, and the URLs appended to the ledger by `AppendLedger`, which creates the file on the first append), when every URL the run appended is one stripped line (`IsLedgerLine`), the ledger stays well formed, and reading it gives the URLs it held plus exactly the URLs the run appended |
| QueryRunner.RerunSkipsLogged | ImageFetchPy/main.py:241 | when every URL the previous run appended is one stripped line (`IsLedgerLine`), the next run for the same keyword requests no URL the ledger held and none the previous run appended, whatever its page |
| QueryRunner.UnlistableUrlRequestedAgain | ImageFetchPy/main.py:216-243 | a quoted URL that passes the filter but is not one stripped line is requested again by the first iteration of a run, whatever ledger the folder holds |
| QueryRunner.TrailingSpaceUnlistable | ImageFetchPy/main.py:240 | `https://a.co/x.jpg `, with its trailing space, starts with `https://`, holds no quote and no backslash, passes the default filter, and is not one stripped line |
| QueryRunner.CommitKeepsCounterAhead | ImageFetchPy/main.py:211-213 | given that no allowed extension contains `_`, the counter computed from the listing of `Committed`, the folder after a run, does not raise, does not decrease, and is at least every number the run wrote |
| QueryRunner.NextRunNumbersAhead | ImageFetchPy/main.py:211-213 | given that no allowed extension contains `_`, for one keyword of `download_query` the next run's starting counter is at least this run's, and every image this run wrote is numbered above this run's start and at most the next run's start |
| QueryRunner.RunKeepsOldImages | ImageFetchPy/main.py:211-213 | given that no allowed extension contains `_`, no image file a run writes has the name of an entry its folder listed before the run, so re-running never overwrites an existing image (overwrites within one run are the ledger-failure case above) |
| QueryRunner.PrefixOfUrlAborts | ImageFetchPy/main.py:211-213 | a keyword that is a prefix of `url` stops the run at the counter computation |
| QueryRunner.RunKeywordsFrame | ImageFetchPy/main.py:205-211 | the run leaves untouched every folder that is not one of its keywords' folders |
| QueryRunner.DownloadKeyword | ImageFetchPy/main.py:206-249 | one pass of the keyword loop computes `ProcessKeyword`: create folders, fetch the page, compute the counter, load the ledger, run the loop, in that order |
| QueryRunner.DownloadKeywords | ImageFetchPy/main.py:205-249 | the `for keyword in keyword_to_search` loop computes `RunKeywords`, stopping at the first keyword whose fetch or counter raises or whose loop does not end within the bound |
| QueryRunner.DownloadQuery | ImageFetchPy/main.py:194-253 | the whole call does what `RunKeywords` specifies over the comma-separated keyword list, stopping at the first keyword whose fetch or counter raises or whose loop does not end within the bound |

## Left out

- Network I/O is left out: `download_page` and `requests.get`. The page and each reply are inputs. Status codes are not checked by the code and are not modelled.
- The MIME sniffer (python-magic) is left out. Its answer is a string inside each reply.
- `download_image` tests `'html' in str(r.content)`. This is modelled as a test on the body's text, because the `bytes` repr contains `html` exactly when the bytes do.
- Filesystem mechanics are left out:
  - directory creation and its errno handling;
  - listing order;
  - the bytes written;
  - a failing image write: the ledger append's failure is modelled, an `open`/`write` failure of the image file is not;
  - a keyword containing `/` or other path syntax.
- `time.sleep` pacing is left out. It has no effect on the state.
- The `progressbar` is left out and assumed never to raise. `bar.update` runs inside `download_image`'s `try`, after the file is written (main.py:113), so an exception from it would make the iteration uncounted; the progressbar library is not part of this model.
- Building the search URL is left out: `urllib.parse.quote` is a library call, and the page is given per keyword instead.
- `initialize`, `setup.py` and `ImageFetchPy/cli.py` are left out. The command line's default limit of 10 is not part of this model.
- Orchestrator.DownloadQueryLoop: the Python loop need not terminate. Each loop method is therefore bounded by `maxIterations` and reports through `exhausted` whether the bound stopped it (`Orchestrator.RunSettled` shows that the bound changes nothing for a loop that ends by itself).
- Orchestrator.DownloadImagesFromHtml is bounded the same way.
- QueryRunner.DownloadQuery: a keyword whose loop does not end within the bound stops the model's run with `StillScanning`. The Python function would keep scanning that keyword forever.
- PyInt.ParseInt models `int()` only for text without `_`, with ASCII digits. It skips the whitespace `int()` skips, which is Python's whitespace set without U+001C to U+001F. `int()` also accepts Unicode decimal digits; with them the model reports a parse failure where Python would succeed. Names in the listing with `_` inside the suffix cannot arise, since the suffix is taken after the last `_`.
- QueryRunner.Prepared / QueryRunner.RunKeywordsFrame: the empty keyword, produced by a trailing comma, is modelled as a folder named `""`. In the program its folder `os.path.join("images/", "")` is `images/` itself: `create_url_directory` then creates `images/url`, which is the folder of the keyword `url`, and the listing holds the other keywords' folders. The model instead creates a separate folder `""` listing only `url` and leaves the folder `url` alone, so for a keyword list with an empty keyword `RunKeywordsFrame` claims the folder `url` untouched where the program may create it. Both stop the run at the counter computation, as `PrefixOfUrlAborts` states.
- PyText.IsSpace is the set of characters Python's `str.isspace()` accepts, used by `strip`. It is written out, not derived from the Unicode database.
- The ledger file is modelled as written and read in POSIX text mode. On Windows, text mode writes `\r\n` for each line; `QueryRunner.LedgerWellFormed` then excludes the real file, and the ledger lemmas do not cover it.
