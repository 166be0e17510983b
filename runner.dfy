/**
  `download_query` as a whole: the keyword list, and for each keyword the
  folder set-up, the page fetch, the starting counter from the folder
  listing, the ledger load, the download loop, and what the loop leaves in
  the folder (image files and ledger lines).
 */
module QueryRunner {
  import opened Wrappers
  import opened PyText
  import opened LedgerStore
  import opened Orchestrator
  import opened Extractor

  /**
    One keyword's folder under `images/`: the names `os.listdir` reports
    for it (the `url` sub-folder among them) and the text of the ledger
    file in `url/`, when that file exists.
   */
  datatype Folder = Folder(entries: seq<string>, ledger: Option<string>)

  /** The `images/` tree, by folder name. */
  type Disk = map<string, Folder>

  /** Why a run stopped before the last keyword: the page fetch raised, the counter scan raised, or the loop is still scanning. */
  datatype Stop =
    | PageFetchFailed(keyword: string)
    | MalformedSuffix(keyword: string, entry: string)
    | StillScanning(keyword: string)

  datatype QueryResult = QueryResult(disk: Disk, stop: Option<Stop>)

  /** The folder after `create_image_directories` and `create_url_directory`: it exists and lists `url`. */
  function Prepared(disk: Disk, slug: string): (f: Folder)
    ensures "url" in f.entries
    ensures slug in disk ==> f.ledger == disk[slug].ledger && forall e :: e in f.entries <==> e in disk[slug].entries || e == "url"
    ensures slug !in disk ==> f.ledger.None? && forall e :: e in f.entries <==> e == "url"
  {
    var f := if slug in disk then disk[slug] else Folder([], None);
    f.(entries := AddEntries(f.entries, ["url"]))
  }

  /** Creating the folders again changes nothing: both calls tolerate an existing directory. */
  lemma PreparedIdempotent(disk: Disk, slug: string)
    ensures Prepared(disk[slug := Prepared(disk, slug)], slug) == Prepared(disk, slug)
  {
  }

  /** The names the saved images get: `<keyword>_<number><ext>`. */
  function FileNames(keyword: string, images: seq<SavedImage>): (names: seq<string>)
    ensures |names| == |images|
    ensures forall k :: 0 <= k < |images| ==> names[k] == FileName(keyword, images[k].number, images[k].ext)
    ensures forall k :: 0 <= k < |images| && |images[k].ext| >= 1 && images[k].ext[0] == '.' && '_' !in images[k].ext ==>
      StartsWith(names[k], keyword) && EntryNumber(names[k]) == Some(images[k].number)
  {
    ImageNamesCarryNumbers(keyword, images);
    seq(|images|, k requires 0 <= k < |images| => FileName(keyword, images[k].number, images[k].ext))
  }

  /** Every saved image's name is picked up by the next counter computation, with its own number. */
  lemma ImageNamesCarryNumbers(keyword: string, images: seq<SavedImage>)
    ensures forall k :: 0 <= k < |images| && |images[k].ext| >= 1 && images[k].ext[0] == '.' && '_' !in images[k].ext ==>
      StartsWith(FileName(keyword, images[k].number, images[k].ext), keyword)
      && EntryNumber(FileName(keyword, images[k].number, images[k].ext)) == Some(images[k].number)
  {
    forall k | 0 <= k < |images| && |images[k].ext| >= 1 && images[k].ext[0] == '.' && '_' !in images[k].ext
      ensures StartsWith(FileName(keyword, images[k].number, images[k].ext), keyword)
      ensures EntryNumber(FileName(keyword, images[k].number, images[k].ext)) == Some(images[k].number)
    {
      NameCarriesNumber(keyword, images[k].number, images[k].ext);
    }
  }

  /** The ledger text after appending `lines` (the file is created by the first append). */
  function AppendLedger(ledger: Option<string>, lines: seq<string>): Option<string> {
    if |lines| == 0 then ledger
    else Some((if ledger.Some? then ledger.value else "") + AppendedText(lines))
  }

  /** What a run of the loop leaves in the folder: the image files it wrote and the URL lines it appended. */
  function Committed(folder: Folder, keyword: string, final: ScanState): Folder {
    Folder(AddEntries(folder.entries, FileNames(keyword, SavedImages(final.log))), AppendLedger(folder.ledger, final.ledgerLines))
  }

  /** The loop as `download_query` runs it for one keyword, deduping against the ledger as loaded. */
  function LedgerQuery(text: string, keyword: string, exts: set<string>, limit: int, folder: Folder): Query {
    Query(text, keyword, exts, limit, WithLedger(LedgerUrls(folder.ledger)))
  }

  /**
    One pass of the keyword loop: prepare the folder, fetch the page (a
    failure ends the whole run), compute the starting counter from the
    listing (a matching name without a number ends the whole run), load the
    ledger, run the download loop and record its effects.
   */
  function ProcessKeyword(disk: Disk, keyword: string, limit: int, exts: set<string>, page: Option<string>,
                          env: Environment, fuel: nat): QueryResult
  {
    var slug := Slug(keyword);
    var folder := Prepared(disk, slug);
    var prepared := disk[slug := folder];
    match page
    case None => QueryResult(prepared, Some(PageFetchFailed(keyword)))
    case Some(text) =>
      match LastNumber(folder.entries, keyword)
      case Err(entry) => QueryResult(prepared, Some(MalformedSuffix(keyword, entry)))
      case Ok(last) =>
        var final := Run(LedgerQuery(text, keyword, exts, limit, folder), env, Initial(last), fuel);
        QueryResult(prepared[slug := Committed(folder, keyword, final)],
          if final.count < limit then Some(StillScanning(keyword)) else None)
  }

  /** The keywords from position `i` on, each with its own page and its own environment, until one stops the run. */
  function RunKeywords(disk: Disk, keywords: seq<string>, i: nat, limit: int, exts: set<string>,
                       pages: nat -> Option<string>, downloads: nat -> Environment, fuel: nat): QueryResult
    decreases |keywords| - i
  {
    if i >= |keywords| then QueryResult(disk, None)
    else
      var r := ProcessKeyword(disk, keywords[i], limit, exts, pages(i), downloads(i), fuel);
      if r.stop.Some? then r else RunKeywords(r.disk, keywords, i + 1, limit, exts, pages, downloads, fuel)
  }

  /** A ledger as this program leaves it: empty or ending with a complete line, with no carriage return. */
  predicate LedgerWellFormed(ledger: Option<string>) {
    ledger.Some? ==> '\r' !in ledger.value && (|ledger.value| == 0 || ledger.value[|ledger.value| - 1] == '\n')
  }

  /** Appending lines to the text of a well-formed ledger file, read back. */
  lemma AppendTextReload(content: string, lines: seq<string>)
    requires '\r' !in content && (|content| == 0 || content[|content| - 1] == '\n')
    requires forall k :: 0 <= k < |lines| ==> IsLedgerLine(lines[k])
    requires |lines| > 0
    ensures LedgerWellFormed(Some(content + AppendedText(lines)))
    ensures LedgerUrls(Some(content + AppendedText(lines))) == LedgerUrls(Some(content)) + set u | u in lines
  {
    var added := AppendedText(lines);
    LedgerReload(content, lines);
    AppendedLines(lines);
    assert (content + added)[|content + added| - 1] == added[|added| - 1];
    forall c | c in content + added ensures c != '\r' {
      assert c in content || c in added;
    }
  }

  /** Appending lines to a well-formed ledger, read back. */
  lemma AppendLedgerReload(ledger: Option<string>, lines: seq<string>)
    requires LedgerWellFormed(ledger)
    requires forall k :: 0 <= k < |lines| ==> IsLedgerLine(lines[k])
    ensures LedgerWellFormed(AppendLedger(ledger, lines))
    ensures LedgerUrls(AppendLedger(ledger, lines)) == LedgerUrls(ledger) + set u | u in lines
  {
    if |lines| > 0 {
      var content := if ledger.Some? then ledger.value else "";
      AppendTextReload(content, lines);
      if ledger.None? {
        assert FileLines(UniversalNewlines("")) == [];
        assert LedgerUrls(Some(content)) == {};
      }
    }
  }

  /**
    Reading the ledger back after a run gives the URLs it held before plus
    exactly the URLs the run appended, as long as each appended URL fits on
    one line and has no surrounding whitespace.
   */
  lemma CommitLogsUrls(folder: Folder, keyword: string, final: ScanState)
    requires LedgerWellFormed(folder.ledger)
    requires forall k :: 0 <= k < |final.ledgerLines| ==> IsLedgerLine(final.ledgerLines[k])
    ensures LedgerWellFormed(Committed(folder, keyword, final).ledger)
    ensures LedgerUrls(Committed(folder, keyword, final).ledger) == LedgerUrls(folder.ledger) + set u | u in final.ledgerLines
  {
    assert Committed(folder, keyword, final).ledger == AppendLedger(folder.ledger, final.ledgerLines);
    AppendLedgerReload(folder.ledger, final.ledgerLines);
  }

  /**
    Idempotence across runs: no URL the ledger held, and no URL a run
    appended to it, is requested by the next run for the same keyword,
    whatever its page.
   */
  lemma RerunSkipsLogged(folder: Folder, keyword: string, exts: set<string>, limit: int, text: string,
                         env: Environment, fuel: nat, last: int,
                         text2: string, limit2: int, env2: Environment, fuel2: nat, last2: int)
    requires LedgerWellFormed(folder.ledger)
    requires var final := Run(LedgerQuery(text, keyword, exts, limit, folder), env, Initial(last), fuel);
      forall k :: 0 <= k < |final.ledgerLines| ==> IsLedgerLine(final.ledgerLines[k])
    ensures var final := Run(LedgerQuery(text, keyword, exts, limit, folder), env, Initial(last), fuel);
      var again := Run(LedgerQuery(text2, keyword, exts, limit2, Committed(folder, keyword, final)), env2, Initial(last2), fuel2);
      forall k :: 0 <= k < |again.log| ==> again.log[k].url !in final.ledgerLines && again.log[k].url !in LedgerUrls(folder.ledger)
  {
    var final := Run(LedgerQuery(text, keyword, exts, limit, folder), env, Initial(last), fuel);
    var q2 := LedgerQuery(text2, keyword, exts, limit2, Committed(folder, keyword, final));
    CommitLogsUrls(folder, keyword, final);
    RunCoherent(q2, env2, last2, Initial(last2), fuel2);
    var again := Run(q2, env2, Initial(last2), fuel2);
    forall k | 0 <= k < |again.log| ensures again.log[k].url !in final.ledgerLines && again.log[k].url !in LedgerUrls(folder.ledger) {
      assert RequestFits(q2, env2, last2, k, again.log[..k], again.log[k]);
    }
  }

  /**
    The ledger does not protect a URL that cannot be read back from it: a
    token with surrounding whitespace or a line break is requested on every
    run, whatever the ledger holds, even when an earlier run appended it.
   */
  lemma UnlistableUrlRequestedAgain(folder: Folder, keyword: string, exts: set<string>, limit: int,
                                    env: Environment, last: int, u: string)
    requires StartsWith(u, Scheme) && '"' !in u && '\\' !in u
    requires !IsLedgerLine(u) && IsCandidate(u, exts) && limit >= 1
    ensures var q := LedgerQuery("\"" + u + "\"", keyword, exts, limit, folder);
      var log := Run(q, env, Initial(last), 1).log;
      |log| == 1 && log[0].url == u
  {
    var text := "\"" + u + "\"";
    var q := LedgerQuery(text, keyword, exts, limit, folder);
    if u in LedgerUrls(folder.ledger) {
      LedgerUrlsAreLines(folder.ledger, u);
      assert false;
    }
    assert u + "" == u;
    assert text == "" + "\"" + u + "" + "\"" + "";
    ScanQuotedUrl("", u, "", "", -1);
    assert Admitted(q, Scan(text, -1).token);
    RunUnfold(q, env, Initial(last), 1);
  }

  /** A URL followed by a space, the token a page yields for `"https://a.co/x.jpg "`. */
  const TrailingSpaceUrl := "https://a.co/x.jpg "

  /**
    That token passes the default filter and cannot be read back from the
    ledger, so `UnlistableUrlRequestedAgain` applies to it.
   */
  lemma TrailingSpaceUnlistable()
    ensures StartsWith(TrailingSpaceUrl, Scheme) && '"' !in TrailingSpaceUrl && '\\' !in TrailingSpaceUrl
    ensures !IsLedgerLine(TrailingSpaceUrl) && IsCandidate(TrailingSpaceUrl, DefaultExtensions)
  {
    var u := TrailingSpaceUrl;
    assert u[..8] == Scheme;
    assert IsBlank(StrBlanks, u[|u| - 1]);
    TrailingSpaceCandidate(u);
  }

  lemma TrailingSpaceCandidate(u: string)
    requires u == TrailingSpaceUrl
    ensures IsCandidate(u, DefaultExtensions)
  {
    assert u[14..18] == ".jpg";
    ContainsAt(u, ".jpg", 14);
    assert ".jpg" in DefaultExtensions;
    MissingCharNotContained(u, "ssl.gstatic.com", 'l');
    MissingCharNotContained(u, "www.gstatic.com", 'w');
    assert ExcludedHosts[0] == "ssl.gstatic.com" && ExcludedHosts[1] == "www.gstatic.com";
  }

  /**
    Listing the folder after a run gives a starting counter at least as
    large as before and at least the number of every image the run wrote,
    so a later run never writes under a number already used (given that no
    allowed extension contains `_`).
   */
  lemma CommitKeepsCounterAhead(folder: Folder, q: Query, env: Environment, start: int, final: ScanState)
    requires LastNumber(folder.entries, q.keyword) == Ok(start)
    requires forall e :: e in q.exts ==> '_' !in e
    requires Coherent(q, env, start, final)
    ensures var after := LastNumber(Committed(folder, q.keyword, final).entries, q.keyword);
      && after.Ok? && after.value >= start
      && forall s :: s in SavedImages(final.log) ==> s.number <= after.value
  {
    SavedNumbering(q, env, start, final);
    var images := SavedImages(final.log);
    SavedImagesNamed(q.keyword, images, start, q.exts);
    NextCounterCoversSaved(folder.entries, q.keyword, FileNames(q.keyword, images), Numbers(images), Exts(images));
    assert Committed(folder, q.keyword, final).entries == AddEntries(folder.entries, FileNames(q.keyword, images));
    forall s | s in images ensures s.number <= LastNumber(Committed(folder, q.keyword, final).entries, q.keyword).value {
      var k :| 0 <= k < |images| && images[k] == s;
      assert Numbers(images)[k] == s.number;
    }
  }

  /** The numbers of saved images, in order. */
  function Numbers(images: seq<SavedImage>): (numbers: seq<int>)
    ensures |numbers| == |images| && forall k :: 0 <= k < |images| ==> numbers[k] == images[k].number
  {
    seq(|images|, k requires 0 <= k < |images| => images[k].number)
  }

  /** The extensions of saved images, in order. */
  function Exts(images: seq<SavedImage>): (exts: seq<string>)
    ensures |exts| == |images| && forall k :: 0 <= k < |images| ==> exts[k] == images[k].ext
  {
    seq(|images|, k requires 0 <= k < |images| => images[k].ext)
  }

  /** Images numbered above `start` with allowed extensions are saved under names the counter computation reads back. */
  lemma SavedImagesNamed(keyword: string, images: seq<SavedImage>, start: int, allowed: set<string>)
    requires forall e :: e in allowed ==> '_' !in e
    requires forall s :: s in images ==> start < s.number && s.ext in allowed && |s.ext| >= 1 && s.ext[0] == '.'
    ensures SavedNames(FileNames(keyword, images), keyword, Numbers(images), Exts(images))
    ensures forall k :: 0 <= k < |images| ==> Numbers(images)[k] > start
  {
    forall k | 0 <= k < |images| ensures Numbers(images)[k] > start && '_' !in Exts(images)[k] {
      assert images[k] in images;
    }
  }

  /**
    The next run for the same keyword starts counting at least where this
    one started, and above every image this one wrote.
   */
  lemma NextRunNumbersAhead(disk: Disk, keyword: string, limit: int, exts: set<string>, text: string, env: Environment, fuel: nat)
    requires forall e :: e in exts ==> '_' !in e
    requires LastNumber(Prepared(disk, Slug(keyword)).entries, keyword).Ok?
    ensures var folder := Prepared(disk, Slug(keyword));
      var start := LastNumber(folder.entries, keyword).value;
      var final := Run(LedgerQuery(text, keyword, exts, limit, folder), env, Initial(start), fuel);
      var r := ProcessKeyword(disk, keyword, limit, exts, Some(text), env, fuel);
      var next := LastNumber(Prepared(r.disk, Slug(keyword)).entries, keyword);
      && next.Ok? && next.value >= start
      && forall s :: s in SavedImages(final.log) ==> start < s.number <= next.value
  {
    var slug := Slug(keyword);
    var folder := Prepared(disk, slug);
    var start := LastNumber(folder.entries, keyword).value;
    var q := LedgerQuery(text, keyword, exts, limit, folder);
    var final := Run(q, env, Initial(start), fuel);
    RunCoherent(q, env, start, Initial(start), fuel);
    SavedNumbering(q, env, start, final);
    CommitKeepsCounterAhead(folder, q, env, start, final);
    var after := Committed(folder, keyword, final);
    assert "url" in folder.entries;
    assert "url" in after.entries;
    assert AddEntries(after.entries, ["url"]) == after.entries;
    assert Prepared(ProcessKeyword(disk, keyword, limit, exts, Some(text), env, fuel).disk, slug) == after;
  }

  /**
    Re-running the tool never overwrites an image that was already there:
    no file this run writes has a name its folder listed beforehand.
   */
  lemma RunKeepsOldImages(disk: Disk, keyword: string, limit: int, exts: set<string>, text: string, env: Environment, fuel: nat)
    requires forall e :: e in exts ==> '_' !in e
    requires LastNumber(Prepared(disk, Slug(keyword)).entries, keyword).Ok?
    ensures var folder := Prepared(disk, Slug(keyword));
      var start := LastNumber(folder.entries, keyword).value;
      var final := Run(LedgerQuery(text, keyword, exts, limit, folder), env, Initial(start), fuel);
      forall n :: n in FileNames(keyword, SavedImages(final.log)) ==> n !in folder.entries
  {
    var folder := Prepared(disk, Slug(keyword));
    var start := LastNumber(folder.entries, keyword).value;
    var q := LedgerQuery(text, keyword, exts, limit, folder);
    var final := Run(q, env, Initial(start), fuel);
    RunCoherent(q, env, start, Initial(start), fuel);
    SavedNumbering(q, env, start, final);
    LastNumberIsMax(folder.entries, keyword);
    var images := SavedImages(final.log);
    var names := FileNames(keyword, images);
    forall n | n in names ensures n !in folder.entries {
      var k :| 0 <= k < |names| && names[k] == n;
      assert images[k] in images;
      NameCarriesNumber(keyword, images[k].number, images[k].ext);
      forall i | 0 <= i < |folder.entries| ensures folder.entries[i] != n {
        if StartsWith(folder.entries[i], keyword) {
          assert Matches(folder.entries, keyword, i);
        }
      }
    }
  }

  /** A keyword that is a prefix of `url` (the empty keyword among them) stops the run at the counter scan, once its page is fetched. */
  lemma PrefixOfUrlAborts(disk: Disk, keyword: string, limit: int, exts: set<string>, text: string, env: Environment, fuel: nat)
    requires StartsWith("url", keyword)
    ensures ProcessKeyword(disk, keyword, limit, exts, Some(text), env, fuel).stop.Some?
    ensures ProcessKeyword(disk, keyword, limit, exts, Some(text), env, fuel).stop.value.MalformedSuffix?
  {
    UrlDirectoryBreaksCounter(Prepared(disk, Slug(keyword)).entries, keyword);
  }

  /** One keyword touches only its own folder. */
  lemma ProcessKeywordFrame(disk: Disk, keyword: string, limit: int, exts: set<string>, page: Option<string>,
                            env: Environment, fuel: nat, slug: string)
    requires Slug(keyword) != slug
    ensures var r := ProcessKeyword(disk, keyword, limit, exts, page, env, fuel);
      (slug in r.disk <==> slug in disk) && (slug in disk ==> r.disk[slug] == disk[slug])
  {
    var own := Slug(keyword);
    var folder := Prepared(disk, own);
    var prepared := disk[own := folder];
    assert (slug in prepared <==> slug in disk) && (slug in disk ==> prepared[slug] == disk[slug]);
    if page.Some? {
      match LastNumber(folder.entries, keyword)
      case Err(_) =>
      case Ok(last) =>
        var final := Run(LedgerQuery(page.value, keyword, exts, limit, folder), env, Initial(last), fuel);
        var after := prepared[own := Committed(folder, keyword, final)];
        assert ProcessKeyword(disk, keyword, limit, exts, page, env, fuel).disk == after;
        assert (slug in after <==> slug in prepared) && (slug in prepared ==> after[slug] == prepared[slug]);
    }
  }

  /** The first of the remaining keywords, and then the rest unless it stopped the run. */
  lemma RunKeywordsUnfold(disk: Disk, keywords: seq<string>, i: nat, limit: int, exts: set<string>,
                          pages: nat -> Option<string>, downloads: nat -> Environment, fuel: nat)
    requires i < |keywords|
    ensures var r := ProcessKeyword(disk, keywords[i], limit, exts, pages(i), downloads(i), fuel);
      RunKeywords(disk, keywords, i, limit, exts, pages, downloads, fuel)
        == if r.stop.Some? then r else RunKeywords(r.disk, keywords, i + 1, limit, exts, pages, downloads, fuel)
  {
  }

  /** A run touches only the folders of its keywords; every other folder is left as it was. */
  lemma {:induction false} RunKeywordsFrame(disk: Disk, keywords: seq<string>, i: nat, limit: int, exts: set<string>,
                                            pages: nat -> Option<string>, downloads: nat -> Environment, fuel: nat, slug: string)
    requires forall k :: i <= k < |keywords| ==> Slug(keywords[k]) != slug
    ensures var r := RunKeywords(disk, keywords, i, limit, exts, pages, downloads, fuel);
      (slug in r.disk <==> slug in disk) && (slug in disk ==> r.disk[slug] == disk[slug])
    decreases |keywords| - i
  {
    if i < |keywords| {
      var r := ProcessKeyword(disk, keywords[i], limit, exts, pages(i), downloads(i), fuel);
      RunKeywordsUnfold(disk, keywords, i, limit, exts, pages, downloads, fuel);
      ProcessKeywordFrame(disk, keywords[i], limit, exts, pages(i), downloads(i), fuel, slug);
      if r.stop.None? {
        RunKeywordsFrame(r.disk, keywords, i + 1, limit, exts, pages, downloads, fuel, slug);
      }
    }
  }

  /** The body of the keyword loop of `download_query`, for one keyword. */
  method DownloadKeyword(disk: Disk, keyword: string, limit: int, exts: set<string>, page: Option<string>,
                         env: Environment, maxIterations: nat)
    returns (result: QueryResult)
    ensures result == ProcessKeyword(disk, keyword, limit, exts, page, env, maxIterations)
  {
    var slug := Slug(keyword);
    var folder := Prepared(disk, slug);
    var current := disk[slug := folder];
    if page.None? {
      return QueryResult(current, Some(PageFetchFailed(keyword)));
    }
    var listing := LastNumber(folder.entries, keyword);
    if listing.Err? {
      return QueryResult(current, Some(MalformedSuffix(keyword, listing.error)));
    }
    var existingUrls := LedgerUrls(folder.ledger);
    var final, exhausted := DownloadQueryLoop(page.value, keyword, exts, limit, listing.value, existingUrls, env, maxIterations);
    current := current[slug := Committed(folder, keyword, final)];
    result := QueryResult(current, if exhausted then Some(StillScanning(keyword)) else None);
  }

  /**
    `download_query(keywords, limit, extensions)`: `pages(i)` is the search
    page fetched for the `i`-th keyword (None when the fetch raised),
    `downloads(i)` the outside world's answers during its loop, and
    `maxIterations` bounds each loop.
   */
  method DownloadQuery(keywords: string, limit: int, exts: set<string>, disk: Disk,
                       pages: nat -> Option<string>, downloads: nat -> Environment, maxIterations: nat)
    returns (result: QueryResult)
    ensures result == RunKeywords(disk, KeywordList(keywords), 0, limit, exts, pages, downloads, maxIterations)
  {
    result := DownloadKeywords(KeywordList(keywords), limit, exts, disk, pages, downloads, maxIterations);
  }

  /** The keyword loop of `download_query`, over the list already split and stripped. */
  method DownloadKeywords(keywordToSearch: seq<string>, limit: int, exts: set<string>, disk: Disk,
                          pages: nat -> Option<string>, downloads: nat -> Environment, maxIterations: nat)
    returns (result: QueryResult)
    ensures result == RunKeywords(disk, keywordToSearch, 0, limit, exts, pages, downloads, maxIterations)
  {
    var current := disk;
    var i := 0;
    while i < |keywordToSearch|
      invariant i <= |keywordToSearch|
      invariant RunKeywords(current, keywordToSearch, i, limit, exts, pages, downloads, maxIterations)
        == RunKeywords(disk, keywordToSearch, 0, limit, exts, pages, downloads, maxIterations)
      decreases |keywordToSearch| - i
    {
      var r := DownloadKeyword(current, keywordToSearch[i], limit, exts, pages(i), downloads(i), maxIterations);
      if r.stop.Some? {
        return r;
      }
      current := r.disk;
      i := i + 1;
    }
    result := QueryResult(current, None);
  }
}
