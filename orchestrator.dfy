/**
  The per-keyword download loop. `download_query` runs it with the URL
  ledger: it scans the page, filters candidates, skips those already in
  the ledger, calls `download_image`, appends the URL to the ledger and
  counts the image. `download_images_from_html` is the same loop without
  the ledger.
 */
module Orchestrator {
  import opened PyText
  import opened Extractor
  import opened Fetcher
  import opened LedgerStore

  /** Whether the loop dedupes against and appends to the URL ledger, and the URLs the ledger held when the run began. */
  datatype Mode = WithoutLedger | WithLedger(existing: set<string>)

  /** The loop's fixed inputs: the page markup, the raw keyword, the allow-list, the limit and the ledger mode. */
  datatype Query = Query(text: string, keyword: string, exts: set<string>, limit: int, mode: Mode)

  /**
    What the outside world does for one attempted download: the reply to
    the GET (with the MIME type sniffed from the body), and whether the
    ledger append that follows succeeds.
   */
  datatype Attempt = Attempt(reply: Reply, ledgerAppendOk: bool)

  /** The outside world's answers, indexed by the number of downloads attempted before. */
  type Environment = nat -> Attempt

  /**
    One call of `download_image`: the URL, the `last_number` it was given,
    its outcome, and whether the iteration went on to count the image
    (no exception from `download_image` or from the ledger append).
   */
  datatype Request = Request(url: string, base: int, outcome: ImageOutcome, committed: bool)

  /** The loop variables `end_object`, `image_counter` and `last_number`, the calls made so far and the ledger lines appended. */
  datatype ScanState = ScanState(cursor: int, count: int, lastNumber: int, log: seq<Request>, ledgerLines: seq<string>)

  function Initial(lastNumber: int): ScanState {
    ScanState(-1, 0, lastNumber, [], [])
  }

  /** A token is handed to `download_image` when it passes the filter and, with the ledger, is not in it. */
  predicate Admitted(q: Query, token: string) {
    IsCandidate(token, q.exts) && (q.mode.WithLedger? ==> token !in q.mode.existing)
  }

  /** One iteration of the loop body. */
  function Step(q: Query, env: Environment, st: ScanState): ScanState {
    var sc := Scan(q.text, st.cursor);
    if Admitted(q, sc.token) then Attempted(q, env(|st.log|), st, sc) else st.(cursor := sc.closing)
  }

  /** The rest of an iteration once the token is admitted: `download_image`, then the ledger append and the two increments. */
  function Attempted(q: Query, attempt: Attempt, st: ScanState, sc: Scanned): ScanState {
    var outcome := DownloadImage(sc.token, q.keyword, q.exts, st.lastNumber, attempt.reply);
    var committed := !outcome.Raised? && (q.mode.WithoutLedger? || attempt.ledgerAppendOk);
    ScanState(
      sc.closing,
      if committed then st.count + 1 else st.count,
      if committed then st.lastNumber + 1 else st.lastNumber,
      st.log + [Request(sc.token, st.lastNumber, outcome, committed)],
      if committed && q.mode.WithLedger? then st.ledgerLines + [sc.token] else st.ledgerLines)
  }

  /**
    `while image_counter < limit:` over a loop body, cut off after `fuel`
    iterations: the loop itself has no other exit, and need not end.
   */
  function Iterate(limit: int, body: ScanState -> ScanState, st: ScanState, fuel: nat): ScanState
    decreases fuel
  {
    if fuel == 0 || st.count >= limit then st else Iterate(limit, body, body(st), fuel - 1)
  }

  /** The per-keyword loop, run for at most `fuel` iterations. */
  function Run(q: Query, env: Environment, st: ScanState, fuel: nat): ScanState {
    Iterate(q.limit, s => Step(q, env, s), st, fuel)
  }

  /** One more iteration of a loop that has not reached its limit. */
  lemma RunUnfold(q: Query, env: Environment, st: ScanState, fuel: nat)
    requires fuel > 0 && st.count < q.limit
    ensures Run(q, env, st, fuel) == Run(q, env, Step(q, env, st), fuel - 1)
  {
  }

  /** How many calls were counted. */
  function Successes(log: seq<Request>): nat
    decreases |log|
  {
    if |log| == 0 then 0 else Successes(log[..|log| - 1]) + (if log[|log| - 1].committed then 1 else 0)
  }

  /** The URLs of the counted calls, in order. */
  function CommittedUrls(log: seq<Request>): seq<string>
    decreases |log|
  {
    if |log| == 0 then []
    else CommittedUrls(log[..|log| - 1]) + (if log[|log| - 1].committed then [log[|log| - 1].url] else [])
  }

  /** The number and extension of an image file as written. */
  datatype SavedImage = SavedImage(number: int, ext: string)

  /** The files the calls wrote, in order (a later one may overwrite an earlier one of the same name). */
  function SavedImages(log: seq<Request>): seq<SavedImage>
    decreases |log|
  {
    if |log| == 0 then []
    else
      var r := log[|log| - 1];
      SavedImages(log[..|log| - 1]) + (if r.outcome.Written? then [SavedImage(r.base + 1, r.outcome.ext)] else [])
  }

  /**
    The `k`-th call (with `before` the calls ahead of it) was made on an
    admitted URL, with `last_number` equal to the start value plus the
    images counted before it, and its outcome and whether it was counted
    are what `download_image` and the ledger append decide on the `k`-th
    answer of the environment.
   */
  predicate RequestFits(q: Query, env: Environment, start: int, k: nat, before: seq<Request>, r: Request) {
    && Admitted(q, r.url)
    && r.base == start + Successes(before)
    && r.outcome == DownloadImage(r.url, q.keyword, q.exts, r.base, env(k).reply)
    && r.committed == (!r.outcome.Raised? && (q.mode.WithoutLedger? || env(k).ledgerAppendOk))
  }

  /** What the loop state says about a run that began with `last_number == start`. */
  predicate Coherent(q: Query, env: Environment, start: int, st: ScanState) {
    && -1 <= st.cursor < |q.text|
    && st.count == Successes(st.log)
    && st.lastNumber == start + st.count
    && (q.mode.WithLedger? ==> st.ledgerLines == CommittedUrls(st.log))
    && (q.mode.WithoutLedger? ==> st.ledgerLines == [])
    && forall k :: 0 <= k < |st.log| ==> RequestFits(q, env, start, k, st.log[..k], st.log[k])
  }

  /** One iteration keeps the state coherent; it makes a call exactly when the token is admitted. */
  lemma StepCoherent(q: Query, env: Environment, start: int, st: ScanState)
    requires Coherent(q, env, start, st)
    ensures Coherent(q, env, start, Step(q, env, st))
    ensures |Step(q, env, st).log| == |st.log| + (if Admitted(q, Scan(q.text, st.cursor).token) then 1 else 0)
    ensures Step(q, env, st).cursor == Scan(q.text, st.cursor).closing
  {
    var next := Step(q, env, st);
    var sc := Scan(q.text, st.cursor);
    if Admitted(q, sc.token) {
      var log := next.log;
      assert log[..|st.log|] == st.log;
      assert forall k :: 0 <= k < |st.log| ==> log[..k] == st.log[..k];
      assert RequestFits(q, env, start, |st.log|, log[..|st.log|], log[|st.log|]);
    }
  }

  /** One iteration counts at most one image. */
  lemma StepCount(q: Query, env: Environment, st: ScanState)
    ensures st.count <= Step(q, env, st).count <= st.count + 1
  {
  }

  lemma {:induction false} RunCoherent(q: Query, env: Environment, start: int, st: ScanState, fuel: nat)
    requires Coherent(q, env, start, st)
    ensures Coherent(q, env, start, Run(q, env, st, fuel))
    decreases fuel
  {
    if fuel > 0 && st.count < q.limit {
      StepCoherent(q, env, start, st);
      RunCoherent(q, env, start, Step(q, env, st), fuel - 1);
    }
  }

  lemma {:induction false} IterateCount(limit: int, body: ScanState -> ScanState, st: ScanState, fuel: nat)
    requires forall s: ScanState :: s.count <= body(s).count <= s.count + 1
    requires st.count <= limit
    ensures st.count <= Iterate(limit, body, st, fuel).count <= limit
    decreases fuel
  {
    if fuel > 0 && st.count < limit {
      IterateCount(limit, body, body(st), fuel - 1);
    }
  }

  lemma {:induction false} IterateSettled(limit: int, body: ScanState -> ScanState, st: ScanState, fuel: nat, more: nat)
    requires Iterate(limit, body, st, fuel).count >= limit
    ensures Iterate(limit, body, st, fuel + more) == Iterate(limit, body, st, fuel)
    decreases fuel
  {
    if fuel > 0 && st.count < limit {
      IterateSettled(limit, body, body(st), fuel - 1, more);
    }
  }

  /** The counter never decreases and, from a count within the limit, never passes the limit. */
  lemma RunCount(q: Query, env: Environment, st: ScanState, fuel: nat)
    requires st.count <= q.limit
    ensures st.count <= Run(q, env, st, fuel).count <= q.limit
  {
    forall s: ScanState ensures s.count <= Step(q, env, s).count <= s.count + 1 {
      StepCount(q, env, s);
    }
    IterateCount(q.limit, s => Step(q, env, s), st, fuel);
  }

  /** Once the loop has reached its limit, more iterations change nothing: the bound only cuts off runs that never end. */
  lemma RunSettled(q: Query, env: Environment, st: ScanState, fuel: nat, more: nat)
    requires Run(q, env, st, fuel).count >= q.limit
    ensures Run(q, env, st, fuel + more) == Run(q, env, st, fuel)
  {
    IterateSettled(q.limit, s => Step(q, env, s), st, fuel, more);
  }

  /** Every call was counted, or not, as fits its outcome, and the image files are numbered from the start value up. */
  lemma SavedNumbering(q: Query, env: Environment, start: int, st: ScanState)
    requires Coherent(q, env, start, st)
    ensures forall s :: s in SavedImages(st.log) ==>
      start < s.number <= st.lastNumber + 1 && s.ext in q.exts && |s.ext| >= 1 && s.ext[0] == '.'
  {
    SavedInRange(q, env, start, st.log);
  }

  lemma {:induction false} SavedInRange(q: Query, env: Environment, start: int, log: seq<Request>)
    requires forall k :: 0 <= k < |log| ==> RequestFits(q, env, start, k, log[..k], log[k])
    ensures forall s :: s in SavedImages(log) ==>
      start < s.number <= start + Successes(log) + 1 && s.ext in q.exts && |s.ext| >= 1 && s.ext[0] == '.'
    decreases |log|
  {
    if |log| > 0 {
      var init := log[..|log| - 1];
      var r := log[|log| - 1];
      assert forall k :: 0 <= k < |init| ==> init[..k] == log[..k];
      SavedInRange(q, env, start, init);
      assert init == log[..|log| - 1];
      assert RequestFits(q, env, start, |log| - 1, init, r);
      WrittenExactly(r.url, q.keyword, q.exts, r.base, env(|log| - 1).reply);
    }
  }

  /** A URL already in the ledger costs an iteration and nothing else: no call, no ledger line, no count. */
  lemma LedgerUrlSkipped(q: Query, env: Environment, st: ScanState)
    requires q.mode.WithLedger? && Scan(q.text, st.cursor).token in q.mode.existing
    ensures Step(q, env, st) == st.(cursor := Scan(q.text, st.cursor).closing)
  {
  }

  /**
    A thumbnail-proxy URL is fetched by nobody and written nowhere, yet it
    is counted, takes a number, and (with the ledger) is logged.
   */
  lemma ThumbnailCounted(q: Query, env: Environment, st: ScanState)
    requires Admitted(q, Scan(q.text, st.cursor).token) && StartsWith(Scan(q.text, st.cursor).token, ThumbnailPrefix)
    requires q.mode.WithoutLedger? || env(|st.log|).ledgerAppendOk
    ensures var next := Step(q, env, st);
      && next.count == st.count + 1 && next.lastNumber == st.lastNumber + 1
      && SavedImages(next.log) == SavedImages(st.log)
      && (q.mode.WithLedger? ==> next.ledgerLines == st.ledgerLines + [Scan(q.text, st.cursor).token])
  {
    var next := Step(q, env, st);
    assert next.log[..|st.log|] == st.log;
  }

  /**
    When the ledger append fails after a file was written, the image is
    not counted, so the next image counted is given the same number: its
    file replaces this one when the two extensions agree, and stands
    beside it under another name when they differ.
   */
  lemma LedgerFailureKeepsNumber(q: Query, env: Environment, st: ScanState)
    requires q.mode.WithLedger? && Admitted(q, Scan(q.text, st.cursor).token) && !env(|st.log|).ledgerAppendOk
    ensures var next := Step(q, env, st);
      && next.count == st.count && next.lastNumber == st.lastNumber && next.ledgerLines == st.ledgerLines
      && (next.log[|st.log|].outcome.Written? ==>
            SavedImages(next.log) == SavedImages(st.log) + [SavedImage(st.lastNumber + 1, next.log[|st.log|].outcome.ext)])
  {
    var next := Step(q, env, st);
    assert next.log[..|st.log|] == st.log;
  }

  /** With no admissible token at any cursor position, iterations only move the cursor. */
  lemma RunWithoutCandidates(q: Query, env: Environment, st: ScanState, fuel: nat)
    requires forall c :: -1 <= c < |q.text| ==> !Admitted(q, Scan(q.text, c).token)
    requires -1 <= st.cursor < |q.text|
    ensures Run(q, env, st, fuel) == st.(cursor := Run(q, env, st, fuel).cursor)
  {
    forall s: ScanState | -1 <= s.cursor < |q.text|
      ensures Step(q, env, s) == s.(cursor := Step(q, env, s).cursor) && -1 <= Step(q, env, s).cursor < |q.text|
    {
      assert !Admitted(q, Scan(q.text, s.cursor).token);
    }
    IterateMovesOnly(q.limit, s => Step(q, env, s), st, fuel, |q.text|);
  }

  /** A loop body that only moves a cursor within bounds leaves everything else as it was, however long it runs. */
  lemma {:induction false} IterateMovesOnly(limit: int, body: ScanState -> ScanState, st: ScanState, fuel: nat, n: int)
    requires forall s: ScanState :: -1 <= s.cursor < n ==> body(s) == s.(cursor := body(s).cursor) && -1 <= body(s).cursor < n
    requires -1 <= st.cursor < n
    ensures Iterate(limit, body, st, fuel) == st.(cursor := Iterate(limit, body, st, fuel).cursor)
    decreases fuel
  {
    if fuel > 0 && st.count < limit {
      IterateMovesOnly(limit, body, body(st), fuel - 1, n);
    }
  }

  /**
    With no admissible token anywhere and a positive limit, the loop never
    ends: however many iterations run, nothing is downloaded and the
    counter stays below the limit.
   */
  lemma NeverFinishes(q: Query, env: Environment, lastNumber: int, fuel: nat)
    requires forall c :: -1 <= c < |q.text| ==> !Admitted(q, Scan(q.text, c).token)
    requires q.limit > 0
    ensures Run(q, env, Initial(lastNumber), fuel).count == 0 < q.limit
    ensures Run(q, env, Initial(lastNumber), fuel).log == []
  {
    RunWithoutCandidates(q, env, Initial(lastNumber), fuel);
  }

  /**
    The ledger is read once per run: a URL that occurs twice on the page is
    requested twice, even when the first request was logged.
   */
  lemma RepeatNotBlocked(q: Query, env: Environment, lastNumber: int, a: string)
    requires StartsWith(a, Scheme) && '"' !in a && '\\' !in a
    requires q.text == "\"" + a + "\" \"" + a + "\""
    requires Admitted(q, a) && q.limit >= 2
    ensures var log := Run(q, env, Initial(lastNumber), 2).log;
      |log| == 2 && log[0].url == a && log[1].url == a
  {
    TwoQuotedUrls(a, a, q.text);
    var st0 := Initial(lastNumber);
    var sc0 := Scan(q.text, -1);
    assert sc0.token == a && sc0.closing == |a| + 1;
    var st1 := Attempted(q, env(0), st0, sc0);
    assert st1 == Step(q, env, st0);
    assert st1.cursor == |a| + 1 && st1.count <= 1 && |st1.log| == 1 && st1.log[0].url == a;
    var sc1 := Scan(q.text, |a| + 1);
    assert sc1.token == a;
    var st2 := Attempted(q, env(1), st1, sc1);
    assert st2 == Step(q, env, st1);
    assert |st2.log| == 2 && st2.log[1].url == a && st2.log[0] == st1.log[0];
    assert Run(q, env, st0, 2) == Run(q, env, st1, 1) == Run(q, env, st2, 0);
  }

  /**
    The scan wraps and takes the page again: on the page `" "u"`, once `u`
    is taken the next pass finds no opener and goes back to the first
    quote, and the pass after that yields `u` again. With the ledger as
    loaded not holding `u`, the URL is downloaded a second time, under the
    next number, and the limit of two is met by one URL.
   */
  lemma WrapRequestsAgain(q: Query, env: Environment, start: int, u: string)
    requires StartsWith(u, Scheme) && '"' !in u && '\\' !in u
    requires q.text == "\" \"" + u + "\""
    requires Admitted(q, u) && !Admitted(q, "") && q.limit == 2
    requires Accepts(q, env(0)) && Accepts(q, env(1))
    ensures var last := Run(q, env, Initial(start), 3);
      && last.count == 2 && last.lastNumber == start + 2 && |last.log| == 2
      && last.log[0].url == u && last.log[0].base == start && last.log[0].committed
      && last.log[1].url == u && last.log[1].base == start + 1 && last.log[1].committed
  {
    WrapPage(u, q.text);
    WrapRun(q, env, start, u, |u| + 3);
  }

  /** The three iterations of `WrapRequestsAgain`, given only where the three passes land. */
  lemma WrapRun(q: Query, env: Environment, start: int, u: string, c: int)
    requires Scan(q.text, -1).token == u && Scan(q.text, -1).closing == c
    requires Scan(q.text, c).token == "" && Scan(q.text, c).closing == 0
    requires Scan(q.text, 0).token == u && Scan(q.text, 0).closing == c
    requires Admitted(q, u) && !Admitted(q, "") && q.limit == 2
    requires Accepts(q, env(0)) && Accepts(q, env(1))
    ensures var last := Run(q, env, Initial(start), 3);
      && last.count == 2 && last.lastNumber == start + 2 && |last.log| == 2
      && last.log[0].url == u && last.log[0].base == start && last.log[0].committed
      && last.log[1].url == u && last.log[1].base == start + 1 && last.log[1].committed
  {
    var st0 := Initial(start);
    AcceptedStep(q, env, st0);
    var st1 := Step(q, env, st0);
    var st2 := st1.(cursor := 0);
    assert Step(q, env, st1) == st2;
    AcceptedStep(q, env, st2);
    var st3 := Step(q, env, st2);
    RunUnfold(q, env, st0, 3);
    RunUnfold(q, env, st1, 2);
    RunUnfold(q, env, st2, 1);
    assert Run(q, env, st0, 3) == st3;
  }

  /** An iteration whose token is admitted and whose answer is accepted counts the image and moves on. */
  lemma AcceptedStep(q: Query, env: Environment, st: ScanState)
    requires Admitted(q, Scan(q.text, st.cursor).token) && Accepts(q, env(|st.log|))
    ensures var sc := Scan(q.text, st.cursor);
      Step(q, env, st) == ScanState(sc.closing, st.count + 1, st.lastNumber + 1,
        st.log + [Request(sc.token, st.lastNumber, DownloadImage(sc.token, q.keyword, q.exts, st.lastNumber, env(|st.log|).reply), true)],
        if q.mode.WithLedger? then st.ledgerLines + [sc.token] else st.ledgerLines)
  {
    StepAdmitted(q, env, st);
  }

  /** An answer under which a call succeeds: the body arrives, is not markup, has an allowed type, and the ledger append goes through. */
  predicate Accepts(q: Query, a: Attempt) {
    && a.reply.Received? && !Contains(a.reply.body, "html")
    && MimeExtension(a.reply.mime).Some? && MimeExtension(a.reply.mime).value in q.exts
    && (q.mode.WithLedger? ==> a.ledgerAppendOk)
  }

  /** A page that lists `urls` in quotes, each admitted, each answered so that its call succeeds. */
  predicate PageFits(q: Query, env: Environment, urls: seq<string>) {
    && q.text == QuotedPage(urls)
    && (forall i :: 0 <= i < |urls| ==> StartsWith(urls[i], Scheme) && '"' !in urls[i] && '\\' !in urls[i])
    && (forall i :: 0 <= i < |urls| ==> Admitted(q, urls[i]))
    && (forall i :: 0 <= i < |urls| ==> Accepts(q, env(i)))
  }

  /** The call a run makes on the `j`-th URL of such a page, numbered up from `start`. */
  function PageRequest(q: Query, env: Environment, urls: seq<string>, start: int, j: nat): Request
    requires j < |urls|
  {
    Request(urls[j], start + j, DownloadImage(urls[j], q.keyword, q.exts, start + j, env(j).reply), true)
  }

  /** The calls made on the first `k` URLs of such a page. */
  function PageLog(q: Query, env: Environment, urls: seq<string>, start: int, k: nat): (log: seq<Request>)
    requires k <= |urls|
    ensures |log| == k && forall j :: 0 <= j < k ==> log[j] == PageRequest(q, env, urls, start, j)
    decreases k
  {
    if k == 0 then [] else PageLog(q, env, urls, start, k - 1) + [PageRequest(q, env, urls, start, k - 1)]
  }

  /** The loop state after the first `k` URLs of such a page: all requested, all counted, numbered up from `start`. */
  function PageState(q: Query, env: Environment, urls: seq<string>, start: int, k: nat): ScanState
    requires k <= |urls|
  {
    ScanState(PageCursor(urls, k), k, start + k, PageLog(q, env, urls, start, k), if q.mode.WithLedger? then urls[..k] else [])
  }

  /** The state after one more URL, spelled out. */
  lemma PageStateNext(q: Query, env: Environment, urls: seq<string>, start: int, k: nat)
    requires k < |urls|
    ensures var st := PageState(q, env, urls, start, k);
      PageState(q, env, urls, start, k + 1) == ScanState(
        PageCursor(urls, k + 1), st.count + 1, st.lastNumber + 1,
        st.log + [PageRequest(q, env, urls, start, k)],
        if q.mode.WithLedger? then st.ledgerLines + [urls[k]] else st.ledgerLines)
  {
    assert urls[..k] + [urls[k]] == urls[..k + 1];
  }

  /** An admitted token is attempted. */
  lemma StepAdmitted(q: Query, env: Environment, st: ScanState)
    requires Admitted(q, Scan(q.text, st.cursor).token)
    ensures Step(q, env, st) == Attempted(q, env(|st.log|), st, Scan(q.text, st.cursor))
  {
  }

  /** Attempting the next URL of such a page, under an answer that accepts it, counts it. */
  lemma PageAttempted(q: Query, env: Environment, urls: seq<string>, start: int, k: nat, sc: Scanned)
    requires k < |urls| && sc.token == urls[k] && sc.closing == PageCursor(urls, k + 1) && Accepts(q, env(k))
    ensures Attempted(q, env(k), PageState(q, env, urls, start, k), sc) == PageState(q, env, urls, start, k + 1)
  {
    var outcome := DownloadImage(urls[k], q.keyword, q.exts, start + k, env(k).reply);
    assert !outcome.Raised?;
    PageStateNext(q, env, urls, start, k);
  }

  /** One iteration on such a page takes the next URL and counts it. */
  lemma PageStep(q: Query, env: Environment, urls: seq<string>, start: int, k: nat)
    requires PageFits(q, env, urls) && k < |urls|
    ensures Step(q, env, PageState(q, env, urls, start, k)) == PageState(q, env, urls, start, k + 1)
  {
    var st := PageState(q, env, urls, start, k);
    ScanQuotedPage(urls, k);
    var sc := Scan(q.text, st.cursor);
    assert sc.token == urls[k] && sc.closing == PageCursor(urls, k + 1);
    assert Admitted(q, urls[k]) && Accepts(q, env(k));
    StepAdmitted(q, env, st);
    PageAttempted(q, env, urls, start, k, sc);
  }

  /** A loop that moves along a chain of states below the limit, one per iteration, ends at the last of them. */
  lemma {:induction false} IterateChain(limit: int, body: ScanState -> ScanState, states: seq<ScanState>, k: nat)
    requires k < |states|
    requires forall i :: 0 <= i < |states| - 1 ==> states[i].count < limit && body(states[i]) == states[i + 1]
    ensures Iterate(limit, body, states[k], |states| - 1 - k) == states[|states| - 1]
    decreases |states| - k
  {
    if k < |states| - 1 {
      IterateChain(limit, body, states, k + 1);
    }
  }

  /** The states after each of the first `n` URLs of such a page, the start state first. */
  function PageStates(q: Query, env: Environment, urls: seq<string>, start: int, n: nat): (states: seq<ScanState>)
    requires n <= |urls|
    ensures |states| == n + 1 && forall i :: 0 <= i <= n ==> states[i] == PageState(q, env, urls, start, i)
  {
    seq(n + 1, i requires 0 <= i <= n => PageState(q, env, urls, start, i))
  }

  /** Each iteration on such a page, within the limit, moves to the next of those states. */
  lemma PageChain(q: Query, env: Environment, urls: seq<string>, start: int, n: nat)
    requires PageFits(q, env, urls)
    requires n <= |urls| && n <= q.limit
    ensures var states := PageStates(q, env, urls, start, n);
      forall i :: 0 <= i < n ==> states[i].count < q.limit && Step(q, env, states[i]) == states[i + 1]
  {
    var states := PageStates(q, env, urls, start, n);
    forall i | 0 <= i < n
      ensures states[i].count < q.limit && Step(q, env, states[i]) == states[i + 1]
    {
      PageStep(q, env, urls, start, i);
    }
  }

  /** A run over the first `n` URLs of such a page, `n` within the limit, ends in the state after them. */
  lemma PageRun(q: Query, env: Environment, urls: seq<string>, start: int, n: nat)
    requires PageFits(q, env, urls)
    requires n <= |urls| && n <= q.limit
    ensures Run(q, env, PageState(q, env, urls, start, 0), n) == PageState(q, env, urls, start, n)
  {
    var states := PageStates(q, env, urls, start, n);
    PageChain(q, env, urls, start, n);
    IterateChain(q.limit, s => Step(q, env, s), states, 0);
  }

  /** How many images a run on a page of `n` good URLs counts: `n`, cut to the limit. */
  function Reach(n: nat, limit: int): (reach: nat)
    ensures reach <= n && (limit >= 0 ==> reach <= limit)
    ensures limit <= 0 ==> reach == 0
    ensures reach == n || reach == limit || (limit < 0 && reach == 0)
  {
    if limit <= 0 then 0 else if n <= limit then n else limit
  }

  /**
    What a loop state records after taking the first `n` URLs of such a
    page: `n` images counted, in page order, the `j`-th call given the
    number `start + j + 1` and, unless it is a thumbnail, written under the
    name built from that number and its sniffed type; with the ledger, the
    `n` URLs are its new lines.
   */
  predicate TookInOrder(q: Query, env: Environment, urls: seq<string>, start: int, n: nat, st: ScanState)
    requires n <= |urls|
  {
    && st.count == n && st.lastNumber == start + n && |st.log| == n
    && (forall j :: 0 <= j < n ==> st.log[j].url == urls[j] && st.log[j].base == start + j && st.log[j].committed)
    && (forall j :: 0 <= j < n && !StartsWith(urls[j], ThumbnailPrefix) && Accepts(q, env(j)) ==>
          var ext := MimeExtension(env(j).reply.mime).value;
          st.log[j].outcome == Written(FileName(q.keyword, start + j + 1, ext), ext))
    && (q.mode.WithLedger? ==> st.ledgerLines == urls[..n])
  }

  /**
    The limit is enforced and met: on a page of quoted URLs that are all
    admitted and all answered so that the call succeeds, the loop takes
    the URLs in page order and stops after `n` of them, `n` being the
    number of URLs cut to the limit (`RunSettled` then says that once the
    limit is met, further iterations change nothing).
   */
  lemma LimitReached(q: Query, env: Environment, urls: seq<string>, start: int)
    requires PageFits(q, env, urls)
    ensures TookInOrder(q, env, urls, start, Reach(|urls|, q.limit), Run(q, env, Initial(start), Reach(|urls|, q.limit)))
  {
    var n := Reach(|urls|, q.limit);
    PageRunFromStart(q, env, urls, start);
    PageStateFacts(q, env, urls, start, n);
  }

  /** A run from the start over such a page, for as many iterations as it counts images, ends in the state after them. */
  lemma PageRunFromStart(q: Query, env: Environment, urls: seq<string>, start: int)
    requires PageFits(q, env, urls)
    ensures Run(q, env, Initial(start), Reach(|urls|, q.limit)) == PageState(q, env, urls, start, Reach(|urls|, q.limit))
  {
    var n := Reach(|urls|, q.limit);
    assert urls[..0] == [];
    assert Initial(start) == PageState(q, env, urls, start, 0);
    if n > 0 {
      PageRun(q, env, urls, start, n);
    }
  }

  /** What the state after the first `n` URLs of such a page records. */
  lemma PageStateFacts(q: Query, env: Environment, urls: seq<string>, start: int, n: nat)
    requires PageFits(q, env, urls) && n <= |urls|
    ensures TookInOrder(q, env, urls, start, n, PageState(q, env, urls, start, n))
  {
    var st := PageState(q, env, urls, start, n);
    forall j | 0 <= j < n && !StartsWith(urls[j], ThumbnailPrefix)
      ensures st.log[j].outcome == Written(FileName(q.keyword, start + j + 1, MimeExtension(env(j).reply.mime).value), MimeExtension(env(j).reply.mime).value)
    {
      assert st.log[j] == PageRequest(q, env, urls, start, j);
      assert Accepts(q, env(j));
    }
  }

  /** The scanning statements at the head of each iteration, from `new_line` to `object_raw`. */
  method ScanPass(text: string, endObject: int) returns (pass: Scanned)
    ensures pass == Scan(text, endObject)
  {
    var newLine := Find(text, Opener, endObject + 1, |text|);
    var closing := Find(text, "\"", newLine + 1, |text|);
    var buffor := Find(text, "\\", newLine + 1, closing);
    var objectRaw;
    if buffor != -1 {
      objectRaw := Slice(text, newLine + 1, buffor);
    } else {
      objectRaw := Slice(text, newLine + 1, closing);
    }
    pass := Scanned(newLine, closing, buffor, objectRaw);
  }

  /**
    The body of the loop, its `try` block: one scan pass and, for an
    admitted token, `download_image`, the ledger append (with the ledger)
    and the two increments, each skipped once something has raised.
   */
  method Iteration(q: Query, env: Environment, st: ScanState) returns (next: ScanState)
    ensures next == Step(q, env, st)
  {
    var pass := ScanPass(q.text, st.cursor);
    var objectRaw := pass.token;
    next := st.(cursor := pass.closing);
    if IsCandidate(objectRaw, q.exts) && (q.mode.WithLedger? ==> objectRaw !in q.mode.existing) {
      var attempt := env(|st.log|);
      var outcome := DownloadImage(objectRaw, q.keyword, q.exts, st.lastNumber, attempt.reply);
      var counted := !outcome.Raised? && (q.mode.WithoutLedger? || attempt.ledgerAppendOk);
      next := next.(log := st.log + [Request(objectRaw, st.lastNumber, outcome, counted)]);
      if counted {
        if q.mode.WithLedger? {
          next := next.(ledgerLines := st.ledgerLines + [objectRaw]);
        }
        next := next.(count := st.count + 1, lastNumber := st.lastNumber + 1);
      }
    }
  }

  /**
    The loop of `download_query`, updating `end_object`, `image_counter`
    and `last_number` in place, for at most `maxIterations` iterations;
    `exhausted` reports that the bound, not the limit, ended it.
   */
  method DownloadQueryLoop(text: string, keyword: string, exts: set<string>, limit: int, lastNumber: int,
                           existingUrls: set<string>, env: Environment, maxIterations: nat)
    returns (final: ScanState, exhausted: bool)
    ensures final == Run(Query(text, keyword, exts, limit, WithLedger(existingUrls)), env, Initial(lastNumber), maxIterations)
    ensures Coherent(Query(text, keyword, exts, limit, WithLedger(existingUrls)), env, lastNumber, final)
    ensures exhausted <==> final.count < limit
    ensures 0 <= limit ==> 0 <= final.count <= limit
    ensures 0 <= limit && !exhausted ==> final.count == limit
  {
    var q := Query(text, keyword, exts, limit, WithLedger(existingUrls));
    var endObject := -1;
    var imageCounter := 0;
    var last := lastNumber;
    var log: seq<Request> := [];
    var lines: seq<string> := [];
    var iterations: nat := 0;
    while imageCounter < limit && iterations < maxIterations
      invariant iterations <= maxIterations
      invariant Coherent(q, env, lastNumber, ScanState(endObject, imageCounter, last, log, lines))
      invariant Run(q, env, ScanState(endObject, imageCounter, last, log, lines), maxIterations - iterations)
        == Run(q, env, Initial(lastNumber), maxIterations)
      decreases maxIterations - iterations
    {
      var before := ScanState(endObject, imageCounter, last, log, lines);
      RunUnfold(q, env, before, maxIterations - iterations);
      var next := Iteration(q, env, before);
      endObject, imageCounter, last, log, lines := next.cursor, next.count, next.lastNumber, next.log, next.ledgerLines;
      iterations := iterations + 1;
      StepCoherent(q, env, lastNumber, before);
    }
    final := ScanState(endObject, imageCounter, last, log, lines);
    exhausted := imageCounter < limit;
    if 0 <= limit {
      RunCount(q, env, Initial(lastNumber), maxIterations);
    }
  }

  /** The loop of `download_images_from_html`: the same scan and filter, with no ledger check and no ledger append. */
  method DownloadImagesFromHtml(text: string, keyword: string, exts: set<string>, limit: int, lastNumber: int,
                                env: Environment, maxIterations: nat)
    returns (final: ScanState, exhausted: bool)
    ensures final == Run(Query(text, keyword, exts, limit, WithoutLedger), env, Initial(lastNumber), maxIterations)
    ensures Coherent(Query(text, keyword, exts, limit, WithoutLedger), env, lastNumber, final)
    ensures exhausted <==> final.count < limit
    ensures 0 <= limit ==> 0 <= final.count <= limit
    ensures 0 <= limit && !exhausted ==> final.count == limit
  {
    var q := Query(text, keyword, exts, limit, WithoutLedger);
    var endObject := -1;
    var imageCounter := 0;
    var last := lastNumber;
    var log: seq<Request> := [];
    var iterations: nat := 0;
    while imageCounter < limit && iterations < maxIterations
      invariant iterations <= maxIterations
      invariant Coherent(q, env, lastNumber, ScanState(endObject, imageCounter, last, log, []))
      invariant Run(q, env, ScanState(endObject, imageCounter, last, log, []), maxIterations - iterations)
        == Run(q, env, Initial(lastNumber), maxIterations)
      decreases maxIterations - iterations
    {
      var before := ScanState(endObject, imageCounter, last, log, []);
      RunUnfold(q, env, before, maxIterations - iterations);
      var next := Iteration(q, env, before);
      endObject, imageCounter, last, log := next.cursor, next.count, next.lastNumber, next.log;
      iterations := iterations + 1;
      StepCoherent(q, env, lastNumber, before);
    }
    final := ScanState(endObject, imageCounter, last, log, []);
    exhausted := imageCounter < limit;
    if 0 <= limit {
      RunCount(q, env, Initial(lastNumber), maxIterations);
    }
  }
}
