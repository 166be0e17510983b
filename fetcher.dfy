/**
  The decision `download_image` takes for one candidate URL once the
  network's reply and the content sniffer's MIME type are known: skip the
  thumbnail proxy, reject markup, reject a type outside the allow-list, or
  write the file under the next number.
 */
module Fetcher {
  import opened Wrappers
  import opened PyText
  import opened LedgerStore

  /** URLs under this prefix are returned from without a request. */
  const ThumbnailPrefix := "https://encrypted-tbn0.gstatic.com/"

  /** What one GET gives: a transport failure, or the body's text form and the MIME type sniffed from its bytes. */
  datatype Reply = TransportError | Received(body: string, mime: string)

  /** Why `download_image` raised. */
  datatype FetchError =
    | Transport                       // `requests.get` raised: timeout, connection failure, bad URL
    | HtmlContent                     // the body's text form contains "html"
    | NoSubtype                       // the MIME string has no `/`, so `split("/")[1]` raised
    | RejectedExtension(ext: string)  // `'.' + subtype` is not in the allow-list

  datatype ImageOutcome =
    | ThumbnailSkipped                       // returned normally, nothing fetched, nothing written
    | Written(fileName: string, ext: string) // one file written
    | Raised(error: FetchError)

  /** `f'.{mime.split("/")[1]}'`, None where the index raises. */
  function MimeExtension(mime: string): Option<string> {
    var parts := Split(mime, '/');
    if |parts| < 2 then None else Some("." + parts[1])
  }

  /** The extension is a dot and the MIME subtype: the text between the first `/` and the next one. */
  lemma MimeExtensionOf(major: string, subtype: string, rest: string)
    requires '/' !in major && '/' !in subtype
    requires rest == "" || rest[0] == '/'
    ensures MimeExtension(major + "/" + subtype + rest) == Some("." + subtype)
  {
    assert major + "/" + subtype + rest == major + ['/'] + (subtype + rest);
    SplitAtFirst(major, '/', subtype + rest);
    if rest == "" {
      assert subtype + rest == subtype;
      SplitNoSeparator(subtype, '/');
    } else {
      assert subtype + rest == subtype + ['/'] + rest[1..];
      SplitAtFirst(subtype, '/', rest[1..]);
    }
  }

  /** Reading the subtype raises exactly when the MIME string has no `/`. */
  lemma MimeExtensionMissing(mime: string)
    ensures MimeExtension(mime).None? <==> '/' !in mime
  {
    if '/' in mime {
      SplitSeparatorOccurs(mime, '/');
    } else {
      SplitNoSeparator(mime, '/');
    }
  }

  function DownloadImage(url: string, keyword: string, exts: set<string>, lastNumber: int, reply: Reply): (r: ImageOutcome)
    ensures r.ThumbnailSkipped? <==> StartsWith(url, ThumbnailPrefix)
    ensures r.Written? ==> r.ext in exts && r.fileName == FileName(keyword, lastNumber + 1, r.ext)
    ensures r.Written? ==> reply.Received? && !Contains(reply.body, "html") && MimeExtension(reply.mime) == Some(r.ext)
    ensures r == Raised(HtmlContent) <==> !StartsWith(url, ThumbnailPrefix) && reply.Received? && Contains(reply.body, "html")
  {
    if StartsWith(url, ThumbnailPrefix) then ThumbnailSkipped
    else match reply
      case TransportError => Raised(Transport)
      case Received(body, mime) =>
        if Contains(body, "html") then Raised(HtmlContent)
        else match MimeExtension(mime)
          case None => Raised(NoSubtype)
          case Some(ext) =>
            if ext in exts then Written(FileName(keyword, lastNumber + 1, ext), ext)
            else Raised(RejectedExtension(ext))
  }

  /**
    A file is written exactly when the URL is not a thumbnail, the request
    succeeded, the body is not markup and the sniffed type's extension is
    allowed; the extension then starts with a dot.
   */
  lemma WrittenExactly(url: string, keyword: string, exts: set<string>, lastNumber: int, reply: Reply)
    ensures DownloadImage(url, keyword, exts, lastNumber, reply).Written? <==>
      && !StartsWith(url, ThumbnailPrefix) && reply.Received? && !Contains(reply.body, "html")
      && MimeExtension(reply.mime).Some? && MimeExtension(reply.mime).value in exts
    ensures DownloadImage(url, keyword, exts, lastNumber, reply).Written? ==>
      var ext := DownloadImage(url, keyword, exts, lastNumber, reply).ext; |ext| >= 1 && ext[0] == '.'
  {
  }

  /**
    Classification is by content, not by URL: apart from the thumbnail
    prefix, the URL (its apparent extension included) has no bearing on the
    outcome.
   */
  lemma ContentDecides(url1: string, url2: string, keyword: string, exts: set<string>, lastNumber: int, reply: Reply)
    requires !StartsWith(url1, ThumbnailPrefix) && !StartsWith(url2, ThumbnailPrefix)
    ensures DownloadImage(url1, keyword, exts, lastNumber, reply) == DownloadImage(url2, keyword, exts, lastNumber, reply)
  {
  }

  /** A body sniffed as `text/html` is never saved when `.html` is not allowed, whatever its URL says. */
  lemma HtmlTypeRejected(url: string, keyword: string, exts: set<string>, lastNumber: int, body: string)
    requires ".html" !in exts
    ensures !DownloadImage(url, keyword, exts, lastNumber, Received(body, "text/html")).Written?
  {
    var major, subtype := "text", "html";
    assert '/' !in major && '/' !in subtype;
    MimeExtensionOf(major, subtype, "");
    assert major + "/" + subtype + "" == "text/html";
    assert "." + subtype == ".html";
  }
}
