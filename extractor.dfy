/**
  The candidate extractor: one pass of the cursor scan over the page
  markup, which looks for the next `"https://`, the next `"` after it and a
  `\` before that quote, and the filter a token must pass to be
  downloaded (an allow-listed extension occurs in it, no Google static
  host does).
 */
module Extractor {
  import opened PyText

  /** What the scan looks for: a quote opening an `https://` URL. */
  const Opener := "\"https://"
  const Scheme := "https://"

  /** Hosts of Google's own static assets, never downloaded. */
  const ExcludedHosts: seq<string> := ["ssl.gstatic.com", "www.gstatic.com"]

  /** The allow-list `download_query` uses when its caller gives none. */
  const DefaultExtensions: set<string> := {".jpg", ".png", ".ico", ".gif", ".jpeg"}

  /** The three `find` results of one pass (`new_line`, `end_object`, `buffor`) and the token cut out (`object_raw`). */
  datatype Scanned = Scanned(opener: int, closing: int, escape: int, token: string)

  /** One pass of the scan, starting from the cursor `end_object` left by the previous pass. */
  function Scan(text: string, cursor: int): (sc: Scanned)
    ensures -1 <= sc.opener < |text| && -1 <= sc.closing < |text|
  {
    var newLine := Find(text, Opener, cursor + 1, |text|);
    var endObject := Find(text, "\"", newLine + 1, |text|);
    var buffor := Find(text, "\\", newLine + 1, endObject);
    var token := if buffor != -1 then Slice(text, newLine + 1, buffor) else Slice(text, newLine + 1, endObject);
    Scanned(newLine, endObject, buffor, token)
  }

  /** The token filter: some allowed extension occurs in it and neither excluded host does. */
  predicate IsCandidate(token: string, exts: set<string>) {
    && (exists e | e in exts :: Contains(token, e))
    && !(exists h | h in ExcludedHosts :: Contains(token, h))
  }

  /** No quote and no backslash stands in `text` just after an opener, inside its `https://`. */
  lemma OpenerBody(text: string, i: int)
    requires OccursAt(text, Opener, i)
    ensures forall j :: i + 1 <= j < i + 9 ==> text[j] != '"' && text[j] != '\\'
  {
    forall j | i + 1 <= j < i + 9 ensures text[j] != '"' && text[j] != '\\' {
      assert text[j] == text[i..i + 9][j - i] == Opener[j - i];
    }
  }

  /** `find` of one character, in terms of the characters of the text. */
  lemma FindChar(text: string, c: char, start: int, end: int)
    requires 0 <= start
    ensures var r, hi := Find(text, [c], start, end), Clamp(end, |text|);
      && (r != -1 ==> start <= r < hi && text[r] == c && forall k :: start <= k < r ==> text[k] != c)
      && (r == -1 ==> forall k :: start <= k < hi ==> text[k] != c)
  {
    OccursAtChar(text, c);
  }

  /** The positions a pass finds, once an opener is found, as facts about single characters. */
  lemma ScanPositions(text: string, cursor: int)
    requires Scan(text, cursor).opener != -1
    ensures var sc := Scan(text, cursor);
      var hi := if sc.closing != -1 then sc.closing else |text|;
      && cursor < sc.opener && OccursAt(text, Opener, sc.opener)
      && (sc.closing != -1 ==> sc.opener < sc.closing && text[sc.closing] == '"')
      && (forall k :: sc.opener < k < hi ==> text[k] != '"')
      && (sc.escape != -1 ==> sc.opener < sc.escape < Clamp(sc.closing, |text|) && text[sc.escape] == '\\')
      && (forall k :: sc.opener < k < (if sc.escape != -1 then sc.escape else Clamp(sc.closing, |text|)) ==> text[k] != '\\')
      && sc.token == Slice(text, sc.opener + 1, if sc.escape != -1 then sc.escape else sc.closing)
  {
    var sc := Scan(text, cursor);
    FindChar(text, '"', sc.opener + 1, |text|);
    FindChar(text, '\\', sc.opener + 1, sc.closing);
  }

  /**
    When the pass finds an opener and a closing quote, the cursor moves
    strictly forward to that quote, and the token is the text from just
    after the opening quote up to the first backslash before the closing
    quote, or up to the quote: it starts with `https://` and holds neither
    a quote nor a backslash.
   */
  lemma TokenShape(text: string, cursor: int)
    requires Scan(text, cursor).opener != -1 && Scan(text, cursor).closing != -1
    ensures var sc := Scan(text, cursor);
      && cursor < sc.opener < sc.closing && text[sc.closing] == '"'
      && (sc.escape != -1 ==> sc.opener < sc.escape < sc.closing && text[sc.escape] == '\\')
      && sc.token == text[sc.opener + 1..if sc.escape != -1 then sc.escape else sc.closing]
      && StartsWith(sc.token, Scheme) && '"' !in sc.token && '\\' !in sc.token
  {
    var sc := Scan(text, cursor);
    var i, q, b := sc.opener, sc.closing, sc.escape;
    ScanPositions(text, cursor);
    OpenerBody(text, i);
    assert q >= i + 9;
    assert b != -1 ==> b >= i + 9;
    var e := if b != -1 then b else q;
    assert sc.token == text[i + 1..e];
    assert sc.token[..8] == text[i + 1..i + 9] == text[i..i + 9][1..] == Scheme;
    forall k | 0 <= k < |sc.token| ensures sc.token[k] != '"' && sc.token[k] != '\\' {
      assert sc.token[k] == text[i + 1 + k];
    }
  }

  /**
    An opener with no quote after it still yields a token: the text after the
    opening quote up to the first backslash, or else up to but excluding the
    last character of the text (`end_object` is -1, and -1 as a slice end
    means "one before the end"). The cursor then returns to -1.
   */
  lemma UnclosedToken(text: string, cursor: int)
    requires Scan(text, cursor).opener != -1 && Scan(text, cursor).closing == -1
    ensures var sc := Scan(text, cursor);
      && '"' !in text[sc.opener + 1..]
      && (sc.escape == -1 ==> sc.token == text[sc.opener + 1..|text| - 1])
      && (sc.escape != -1 ==> sc.token == text[sc.opener + 1..sc.escape] && text[sc.escape] == '\\')
      && '"' !in sc.token && '\\' !in sc.token
  {
    var sc := Scan(text, cursor);
    var i := sc.opener;
    ScanPositions(text, cursor);
    OpenerBody(text, i);
    assert Clamp(-1, |text|) == |text| - 1;
    var rest := text[i + 1..];
    forall k | 0 <= k < |rest| ensures rest[k] != '"' {
      assert rest[k] == text[i + 1 + k];
    }
    var e := if sc.escape != -1 then sc.escape else |text| - 1;
    assert sc.token == text[i + 1..e];
    forall k | 0 <= k < |sc.token| ensures sc.token[k] != '"' && sc.token[k] != '\\' {
      assert sc.token[k] == text[i + 1 + k];
    }
  }

  /**
    When no opener is left after the cursor, the scan does not stop: the
    next cursor is the first quote of the whole text (or -1 if it has
    none), so the following pass searches again from the start; an opener
    standing at that first quote is not found again.
   */
  lemma CursorWraps(text: string, cursor: int)
    requires cursor >= -1
    requires forall j :: cursor < j ==> !OccursAt(text, Opener, j)
    ensures var sc := Scan(text, cursor);
      && sc.opener == -1
      && (sc.closing == -1 <==> '"' !in text)
      && (sc.closing != -1 ==> text[sc.closing] == '"' && '"' !in text[..sc.closing])
      && (sc.closing != -1 ==> Scan(text, sc.closing).opener != sc.closing)
  {
    var sc := Scan(text, cursor);
    OccursAtChar(text, '"');
    if sc.closing != -1 {
      assert forall k :: 0 <= k < sc.closing ==> text[..sc.closing][k] == text[k];
    }
  }

  /**
    The pass is determined by positions: the first opener after the
    cursor, the first quote after it and the first backslash before that
    quote (`e` is that backslash, or the quote when there is none).
   */
  lemma ScanAt(text: string, cursor: int, i: int, q: int, e: int)
    requires -1 <= cursor < i && OccursAt(text, Opener, i)
    requires forall j :: cursor < j < i ==> !OccursAt(text, Opener, j)
    requires i < q < |text| && text[q] == '"' && forall k :: i < k < q ==> text[k] != '"'
    requires i < e <= q && (e < q ==> text[e] == '\\') && forall k :: i < k < e ==> text[k] != '\\'
    ensures Scan(text, cursor) == Scanned(i, q, if e < q then e else -1, text[i + 1..e])
  {
    ScanFinds(text, cursor, i, q, e);
    ScanOfFinds(text, cursor, i, q, if e < q then e else -1);
    assert Slice(text, i + 1, e) == text[i + 1..e];
  }

  /** A pass, given where its three `find` calls land. */
  lemma ScanOfFinds(text: string, cursor: int, i: int, q: int, b: int)
    requires Find(text, Opener, cursor + 1, |text|) == i
    requires Find(text, "\"", i + 1, |text|) == q
    requires Find(text, "\\", i + 1, q) == b
    ensures Scan(text, cursor) == Scanned(i, q, b, if b != -1 then Slice(text, i + 1, b) else Slice(text, i + 1, q))
  {
  }

  /** The three `find` calls of a pass land on the opener, its closing quote and its first backslash. */
  lemma ScanFinds(text: string, cursor: int, i: int, q: int, e: int)
    requires -1 <= cursor < i && OccursAt(text, Opener, i)
    requires forall j :: cursor < j < i ==> !OccursAt(text, Opener, j)
    requires i < q < |text| && text[q] == '"' && forall k :: i < k < q ==> text[k] != '"'
    requires i < e <= q && (e < q ==> text[e] == '\\') && forall k :: i < k < e ==> text[k] != '\\'
    ensures Find(text, Opener, cursor + 1, |text|) == i
    ensures Find(text, "\"", i + 1, |text|) == q
    ensures Find(text, "\\", i + 1, q) == if e < q then e else -1
  {
    FindOpenerAt(text, cursor, i);
    assert "\"" == ['"'] && "\\" == ['\\'];
    FindCharAt(text, '"', i + 1, |text|, q);
    if e < q {
      FindCharAt(text, '\\', i + 1, q, e);
    } else {
      FindCharNone(text, '\\', i + 1, q);
    }
  }

  lemma FindOpenerAt(text: string, cursor: int, i: int)
    requires -1 <= cursor < i && OccursAt(text, Opener, i)
    requires forall j :: cursor < j < i ==> !OccursAt(text, Opener, j)
    ensures Find(text, Opener, cursor + 1, |text|) == i
  {
  }

  /** `find` of a character that first stands at `p` between `lo` and `hi`. */
  lemma FindCharAt(text: string, c: char, lo: int, hi: int, p: int)
    requires 0 <= lo <= p < hi <= |text| && text[p] == c
    requires forall k :: lo <= k < p ==> text[k] != c
    ensures Find(text, [c], lo, hi) == p
  {
    FindChar(text, c, lo, hi);
  }

  /** `find` of a character that does not stand between `lo` and `hi`. */
  lemma FindCharNone(text: string, c: char, lo: int, hi: int)
    requires 0 <= lo <= hi <= |text|
    requires forall k :: lo <= k < hi ==> text[k] != c
    ensures Find(text, [c], lo, hi) == -1
  {
    FindChar(text, c, lo, hi);
  }

  /**
    A quoted URL that is the first opener after the cursor is extracted up
    to its first backslash (`head`), and the cursor moves to its closing
    quote.
   */
  lemma ScanQuotedUrl(pre: string, head: string, tail: string, post: string, cursor: int)
    requires -1 <= cursor < |pre|
    requires forall j :: cursor < j < |pre| ==> !OccursAt(pre + "\"" + head + tail + "\"" + post, Opener, j)
    requires StartsWith(head, Scheme) && '"' !in head + tail && '\\' !in head
    requires tail == "" || tail[0] == '\\'
    ensures var sc := Scan(pre + "\"" + head + tail + "\"" + post, cursor);
      sc.opener == |pre| && sc.closing == |pre| + |head| + |tail| + 1 && sc.token == head
  {
    var text := pre + "\"" + head + tail + "\"" + post;
    QuotedScanFacts(pre, head, tail, post);
    ScanAt(text, cursor, |pre|, |pre| + |head| + |tail| + 1, |pre| + 1 + |head|);
  }

  /** The quoted text after `pre` meets what `ScanAt` asks of an opener, its closing quote and its first backslash. */
  lemma QuotedScanFacts(pre: string, head: string, tail: string, post: string)
    requires StartsWith(head, Scheme) && '"' !in head + tail && '\\' !in head
    requires tail == "" || tail[0] == '\\'
    ensures var text := pre + "\"" + head + tail + "\"" + post;
      var i, q, e := |pre|, |pre| + |head| + |tail| + 1, |pre| + 1 + |head|;
      && OccursAt(text, Opener, i) && text[i + 1..e] == head
      && i < q < |text| && text[q] == '"' && (forall k :: i < k < q ==> text[k] != '"')
      && i < e <= q && (e < q ==> text[e] == '\\') && (forall k :: i < k < e ==> text[k] != '\\')
  {
    QuotedLayout(pre, head, tail, post);
    QuotedInterior(pre + "\"" + head + tail + "\"" + post, |pre|, head, tail);
  }

  /** Where the parts of a quoted text stand once it is placed after `pre`. */
  lemma QuotedLayout(pre: string, head: string, tail: string, post: string)
    ensures var text := pre + "\"" + head + tail + "\"" + post;
      var i := |pre|;
      && |text| == i + |head| + |tail| + 2 + |post|
      && text[i] == '"' && text[i + |head| + |tail| + 1] == '"'
      && text[i + 1..i + 1 + |head|] == head && text[i + 1 + |head|..i + 1 + |head| + |tail|] == tail
  {
    var text := pre + "\"" + head + tail + "\"" + post;
    var i := |pre|;
    assert text == pre + "\"" + head + tail + ("\"" + post);
    assert (pre + "\"" + head + tail)[i + 1..i + 1 + |head|] == head;
  }

  /** An opener, its closing quote and its first backslash, read off the parts of a quoted text. */
  lemma QuotedInterior(text: string, i: int, head: string, tail: string)
    requires 0 <= i && i + |head| + |tail| + 1 < |text|
    requires text[i] == '"' && text[i + |head| + |tail| + 1] == '"'
    requires text[i + 1..i + 1 + |head|] == head && text[i + 1 + |head|..i + 1 + |head| + |tail|] == tail
    requires StartsWith(head, Scheme) && '"' !in head + tail && '\\' !in head
    requires tail == "" || tail[0] == '\\'
    ensures var q, e := i + |head| + |tail| + 1, i + 1 + |head|;
      && OccursAt(text, Opener, i) && text[i + 1..e] == head
      && (forall k :: i < k < q ==> text[k] != '"')
      && (e < q ==> text[e] == '\\') && (forall k :: i < k < e ==> text[k] != '\\')
  {
    var q, e := i + |head| + |tail| + 1, i + 1 + |head|;
    forall k | i < k < e ensures text[k] != '"' && text[k] != '\\' {
      assert text[k] == text[i + 1..e][k - i - 1] == head[k - i - 1];
      assert head[k - i - 1] in head + tail;
    }
    forall k | e <= k < q ensures text[k] != '"' {
      assert text[k] == text[e..q][k - e] == tail[k - e];
      assert tail[k - e] in head + tail;
    }
    if e < q {
      assert text[e] == text[e..q][0];
    }
    forall k | 0 <= k < |head| ensures text[i + 1 + k] == head[k] {
      assert text[i + 1 + k] == text[i + 1..e][k];
    }
    OpenerAtQuote(text, i, head);
  }

  /** A quote followed by a text that starts with the scheme is an opener, and the text follows it. */
  lemma OpenerAtQuote(text: string, i: int, head: string)
    requires 0 <= i && i + 1 + |head| <= |text| && text[i] == '"'
    requires forall k :: 0 <= k < |head| ==> text[i + 1 + k] == head[k]
    requires StartsWith(head, Scheme)
    ensures OccursAt(text, Opener, i) && text[i + 1..i + 1 + |head|] == head
  {
    assert Opener == "\"" + Scheme;
    forall k | 0 <= k < 9 ensures text[i..i + 9][k] == Opener[k] {
      if k > 0 {
        assert text[i + k] == head[k - 1] == Scheme[k - 1];
      }
    }
    assert text[i..i + 9] == Opener;
  }

  /** No opener stands where the text has no quote. */
  lemma NotOpenerAt(text: string, j: int)
    requires 0 <= j < |text| && text[j] != '"'
    ensures !OccursAt(text, Opener, j)
  {
    if j + 9 <= |text| {
      assert text[j..j + 9][0] == text[j];
    }
  }

  /** A page listing URLs each in quotes and followed by a space: `"u0" "u1" ... `. */
  function QuotedPage(urls: seq<string>): string
    decreases |urls|
  {
    if |urls| == 0 then "" else "\"" + urls[0] + "\" " + QuotedPage(urls[1..])
  }

  lemma {:induction false} QuotedPageAppend(a: seq<string>, b: seq<string>)
    ensures QuotedPage(a + b) == QuotedPage(a) + QuotedPage(b)
    decreases |a|
  {
    if |a| > 0 {
      assert (a + b)[0] == a[0] && (a + b)[1..] == a[1..] + b;
      QuotedPageAppend(a[1..], b);
    } else {
      assert a + b == b;
    }
  }

  /** The quoted page of a single URL. */
  lemma QuotedPageOne(u: string)
    ensures QuotedPage([u]) == "\"" + u + "\" "
  {
    assert [u][1..] == [];
  }

  /** Where the scan stands after the first `k` URLs of a quoted page: on the closing quote of the `k`-th. */
  function PageCursor(urls: seq<string>, k: nat): int
    requires k <= |urls|
  {
    if k == 0 then -1 else |QuotedPage(urls[..k])| - 2
  }

  /** The quoted page of the first `k` URLs ends with a space, and the next cursor lies just past the `k`-th URL. */
  lemma QuotedPrefix(urls: seq<string>, k: nat)
    requires k < |urls|
    ensures QuotedPage(urls[..k + 1]) == QuotedPage(urls[..k]) + "\"" + urls[k] + "\" "
    ensures k > 0 ==> |QuotedPage(urls[..k])| >= 2 && QuotedPage(urls[..k])[|QuotedPage(urls[..k])| - 1] == ' '
  {
    assert urls[..k + 1] == urls[..k] + [urls[k]];
    QuotedPageAppend(urls[..k], [urls[k]]);
    QuotedPageOne(urls[k]);
    if k > 0 {
      assert urls[..k] == urls[..k - 1] + [urls[k - 1]];
      QuotedPageAppend(urls[..k - 1], [urls[k - 1]]);
      QuotedPageOne(urls[k - 1]);
    }
  }

  /** The quoted page split around its `k`-th URL. */
  lemma QuotedPageAround(urls: seq<string>, k: nat)
    requires k < |urls|
    ensures QuotedPage(urls) == QuotedPage(urls[..k]) + "\"" + urls[k] + "" + "\"" + (" " + QuotedPage(urls[k + 1..]))
  {
    var front, back := urls[..k], urls[k..];
    assert urls == front + back;
    QuotedPageAppend(front, back);
    assert back[0] == urls[k] && back[1..] == urls[k + 1..];
    QuoteRegroup(QuotedPage(front), urls[k], QuotedPage(urls[k + 1..]));
  }

  lemma QuoteRegroup(pre: string, u: string, rest: string)
    ensures pre + ("\"" + u + "\" " + rest) == pre + "\"" + u + "" + "\"" + (" " + rest)
  {
    assert "\" " == "\"" + " ";
  }

  /** After a closing quote and a space (or from the start), the next quoted URL is the next token. */
  lemma ScanNextQuoted(pre: string, u: string, post: string, cursor: int)
    requires StartsWith(u, Scheme) && '"' !in u && '\\' !in u
    requires (cursor == -1 && pre == "") || (|pre| >= 2 && cursor == |pre| - 2 && pre[|pre| - 1] == ' ')
    ensures var sc := Scan(pre + "\"" + u + "" + "\"" + post, cursor);
      sc.token == u && sc.closing == |pre| + |u| + 1
  {
    var text := pre + "\"" + u + "" + "\"" + post;
    assert '"' !in u + "";
    if pre != "" {
      assert text[|pre| - 1] == ' ';
      NotOpenerAt(text, |pre| - 1);
    }
    ScanQuotedUrl(pre, u, "", post, cursor);
  }

  /**
    Scanning a quoted page of URLs that start with the scheme and hold no
    quote and no backslash yields the URLs one by one, in order.
   */
  lemma ScanQuotedPage(urls: seq<string>, k: nat)
    requires k < |urls|
    requires forall i :: 0 <= i < |urls| ==> StartsWith(urls[i], Scheme) && '"' !in urls[i] && '\\' !in urls[i]
    ensures Scan(QuotedPage(urls), PageCursor(urls, k)).token == urls[k]
    ensures Scan(QuotedPage(urls), PageCursor(urls, k)).closing == PageCursor(urls, k + 1)
  {
    var u := urls[k];
    assert StartsWith(u, Scheme) && '"' !in u && '\\' !in u;
    var pre := QuotedPage(urls[..k]);
    var post := " " + QuotedPage(urls[k + 1..]);
    var cursor := PageCursor(urls, k);
    QuotedPageAround(urls, k);
    QuotedPrefix(urls, k);
    assert k == 0 ==> urls[..k] == [];
    assert PageCursor(urls, k + 1) == |pre| + |u| + 1;
    ScanNextQuoted(pre, u, post, cursor);
  }

  const ExampleJpeg := "https://example.com/a.jpg"
  const ExampleSsl := "https://ssl.gstatic.com/b.png"

  /** Both example URLs start with the scheme and hold no quote and no backslash. */
  lemma ExampleShapes()
    ensures StartsWith(ExampleJpeg, Scheme) && '"' !in ExampleJpeg && '\\' !in ExampleJpeg
    ensures StartsWith(ExampleSsl, Scheme) && '"' !in ExampleSsl && '\\' !in ExampleSsl
  {
    PlainUrl(ExampleJpeg);
    PlainUrl(ExampleSsl);
  }

  /** A URL made of the scheme and letters, digits, dots and slashes. */
  lemma PlainUrl(u: string)
    requires |u| >= 8 && u[..8] == Scheme
    requires forall k :: 8 <= k < |u| ==> 'a' <= u[k] <= 'z' || '.' <= u[k] <= '9'
    ensures StartsWith(u, Scheme) && '"' !in u && '\\' !in u
  {
  }

  /** A backslash before the closing quote ends the token there. */
  lemma EscapeExample(text: string)
    requires text == "\"" + ExampleJpeg + "\\\"more text\""
    ensures Scan(text, -1).token == ExampleJpeg
  {
    ExampleShapes();
    EscapeCut(ExampleJpeg, "more text\"", text);
  }

  /** The token of a quoted URL with a backslash before its closing quote stops at the backslash. */
  lemma EscapeCut(a: string, rest: string, text: string)
    requires StartsWith(a, Scheme) && '"' !in a && '\\' !in a
    requires text == "\"" + a + "\\\"" + rest
    ensures Scan(text, -1).token == a
  {
    assert '"' !in a + "\\";
    assert text == "" + "\"" + a + "\\" + "\"" + rest;
    ScanQuotedUrl("", a, "\\", rest, -1);
  }

  /** The first of two quoted URLs separated by a space. */
  lemma FirstOfTwo(a: string, b: string, text: string)
    requires StartsWith(a, Scheme) && '"' !in a && '\\' !in a
    requires text == "\"" + a + "\" \"" + b + "\""
    ensures Scan(text, -1).closing == |a| + 1 && Scan(text, -1).token == a
  {
    var post := " \"" + b + "\"";
    assert a + "" == a;
    assert text == "" + "\"" + a + "" + "\"" + post;
    ScanQuotedUrl("", a, "", post, -1);
  }

  /** The second of two quoted URLs separated by a space, scanned from the first one's closing quote. */
  lemma SecondOfTwo(a: string, b: string, text: string)
    requires StartsWith(b, Scheme) && '"' !in b && '\\' !in b
    requires text == "\"" + a + "\" \"" + b + "\""
    ensures Scan(text, |a| + 1).token == b
  {
    var pre := "\"" + a + "\" ";
    assert b + "" == b;
    assert text == pre + "\"" + b + "" + "\"" + "";
    assert text[|a| + 2] == ' ';
    NotOpenerAt(text, |a| + 2);
    ScanQuotedUrl(pre, b, "", "", |a| + 1);
  }

  /**
    The page `" "u"`: the first pass yields `u`; the next finds no opener
    and wraps the cursor to the page's first quote with an empty token; the
    pass after that yields `u` again.
   */
  lemma WrapPage(u: string, text: string)
    requires StartsWith(u, Scheme) && '"' !in u && '\\' !in u
    requires text == "\" \"" + u + "\""
    ensures Scan(text, -1).token == u && Scan(text, -1).closing == |u| + 3
    ensures Scan(text, |u| + 3).token == "" && Scan(text, |u| + 3).closing == 0
    ensures Scan(text, 0).token == u && Scan(text, 0).closing == |u| + 3
  {
    WrapPageFrom(u, text, -1);
    WrapPageFrom(u, text, 0);
    WrapPageBack(u, text);
  }

  /** From either cursor ahead of the page's first opener, the pass yields `u`. */
  lemma WrapPageFrom(u: string, text: string, cursor: int)
    requires StartsWith(u, Scheme) && '"' !in u && '\\' !in u
    requires text == "\" \"" + u + "\""
    requires cursor == -1 || cursor == 0
    ensures Scan(text, cursor).token == u && Scan(text, cursor).closing == |u| + 3
  {
    var pre := "\" ";
    assert text == pre + "\"" + u + "" + "\"" + "";
    forall j | cursor < j < |pre| ensures !OccursAt(text, Opener, j) {
      if j == 0 {
        assert text[0..9][1] == text[1] == ' ';
      } else {
        NotOpenerAt(text, 1);
      }
    }
    ScanQuotedUrl(pre, u, "", "", cursor);
  }

  /** From the last quote, no opener is left: the cursor goes back to the first quote and the token is empty. */
  lemma WrapPageBack(u: string, text: string)
    requires text == "\" \"" + u + "\""
    ensures Scan(text, |u| + 3).token == "" && Scan(text, |u| + 3).closing == 0
  {
    assert |text| == |u| + 4 && text[0] == '"';
    assert OccursAt(text, "\"", 0);
    assert Slice(text, 0, 0) == "";
  }

  /** Two quoted URLs separated by a space are produced in order by two passes. */
  lemma TwoQuotedUrls(a: string, b: string, text: string)
    requires StartsWith(a, Scheme) && '"' !in a && '\\' !in a
    requires StartsWith(b, Scheme) && '"' !in b && '\\' !in b
    requires text == "\"" + a + "\" \"" + b + "\""
    ensures Scan(text, -1).closing == |a| + 1 && Scan(text, -1).token == a
    ensures Scan(text, |a| + 1).token == b
  {
    FirstOfTwo(a, b, text);
    SecondOfTwo(a, b, text);
  }

  /** The example JPEG URL passes the default filter. */
  lemma ExampleJpegAccepted()
    ensures IsCandidate(ExampleJpeg, DefaultExtensions)
  {
    ContainsAt(ExampleJpeg, ".jpg", 21);
    assert ".jpg" in DefaultExtensions;
    MissingCharNotContained(ExampleJpeg, "ssl.gstatic.com", 'i');
    MissingCharNotContained(ExampleJpeg, "www.gstatic.com", 'i');
  }

  /** A URL on Google's SSL static host fails the filter, whatever its extension. */
  lemma ExcludedHostRejected(token: string, exts: set<string>)
    requires Contains(token, "ssl.gstatic.com") || Contains(token, "www.gstatic.com")
    ensures !IsCandidate(token, exts)
  {
    assert ExcludedHosts[0] == "ssl.gstatic.com" && ExcludedHosts[1] == "www.gstatic.com";
  }

  /**
    A page holding a quoted JPEG URL followed by a quoted URL on Google's
    SSL static host: the first pass cuts out the JPEG URL and the second
    pass the other one.
   */
  lemma ExampleTokens(text: string)
    requires text == "\"" + ExampleJpeg + "\" \"" + ExampleSsl + "\""
    ensures Scan(text, -1).token == ExampleJpeg && Scan(text, Scan(text, -1).closing).token == ExampleSsl
  {
    ExampleShapes();
    TwoQuotedUrls(ExampleJpeg, ExampleSsl, text);
  }

  /** Of the two example tokens, only the JPEG URL passes the default filter. */
  lemma ExampleFilter()
    ensures IsCandidate(ExampleJpeg, DefaultExtensions) && !IsCandidate(ExampleSsl, DefaultExtensions)
  {
    ExampleJpegAccepted();
    ContainsAt(ExampleSsl, "ssl.gstatic.com", 8);
    ExcludedHostRejected(ExampleSsl, DefaultExtensions);
  }
}
