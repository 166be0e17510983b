/**
  The per-keyword persistent state and how a run reads it back: the slug
  that names the keyword's directory, the keyword list, the image file
  names `<keyword>_<n><ext>`, the starting counter recovered from a
  directory listing, and the URL ledger, a text file with one URL per line.
 */
module LedgerStore {
  import opened Wrappers
  import opened PyText
  import opened PyInt

  /** `keyword.replace(" ", "_")`: the directory name used for a keyword. */
  function Slug(keyword: string): (slug: string)
    ensures |slug| == |keyword| && ' ' !in slug
    ensures forall k :: 0 <= k < |keyword| && keyword[k] == ' ' ==> slug[k] == '_'
    ensures forall k :: 0 <= k < |keyword| && keyword[k] != ' ' ==> slug[k] == keyword[k]
    ensures ' ' !in keyword ==> slug == keyword
  {
    ReplaceChar(keyword, ' ', '_')
  }

  /** `[str(item).strip() for item in keywords.split(',')]`. */
  function KeywordList(keywords: string): (list: seq<string>)
    ensures |list| == |Split(keywords, ',')| >= 1
    ensures forall k :: 0 <= k < |list| ==> list[k] == Strip(Split(keywords, ',')[k])
    ensures forall k :: 0 <= k < |list| ==> ',' !in list[k] && IsStripped(list[k])
  {
    var items := Split(keywords, ',');
    seq(|items|, k requires 0 <= k < |items| => Strip(items[k]))
  }

  /**
    A comma-joined list of comma-free items is read back as those items,
    stripped; items without surrounding whitespace come back unchanged.
   */
  lemma KeywordListOfJoin(items: seq<string>)
    requires |items| >= 1
    requires forall k :: 0 <= k < |items| ==> ',' !in items[k]
    ensures KeywordList(Join(items, ',')) == seq(|items|, k requires 0 <= k < |items| => Strip(items[k]))
    ensures (forall k :: 0 <= k < |items| ==> IsStripped(items[k])) ==> KeywordList(Join(items, ',')) == items
  {
    SplitJoin(items, ',');
  }

  /** The name under which the image numbered `number` is saved: `f"{keyword}_{number}{ext}"`. */
  function FileName(keyword: string, number: int, ext: string): string {
    keyword + "_" + IntToString(number) + ext
  }

  /** `name.split("_")[-1].split(".")[0]`: the text after the last `_`, up to the first `.` after it. */
  function SuffixText(name: string): (suffix: string)
    ensures '_' !in suffix && '.' !in suffix
  {
    var parts := Split(name, '_');
    Split(parts[|parts| - 1], '.')[0]
  }

  /** The part of the last `_`-separated piece up to its first `.`. */
  lemma UpToFirstDot(d: string, rest: string)
    requires '.' !in d && (rest == "" || rest[0] == '.')
    ensures Split(d + rest, '.')[0] == d
  {
    if rest == "" {
      assert d + rest == d;
      SplitNoSeparator(d, '.');
    } else {
      assert d + rest == d + ['.'] + rest[1..];
      SplitAtFirst(d, '.', rest[1..]);
    }
  }

  /**
    The suffix of a name with an `_` is the text after its last `_`, up to
    the first `.` after that or the end of the name.
   */
  lemma SuffixTextAfterLast(a: string, d: string, rest: string)
    requires '_' !in d + rest && '.' !in d && (rest == "" || rest[0] == '.')
    ensures SuffixText(a + "_" + d + rest) == d
  {
    assert a + "_" + d + rest == a + ['_'] + (d + rest);
    SplitAtLast(a, '_', d + rest);
    UpToFirstDot(d, rest);
  }

  /** The suffix of a name without `_` is its text up to the first `.`, or the whole name. */
  lemma SuffixTextWithoutUnderscore(d: string, rest: string)
    requires '_' !in d + rest && '.' !in d && (rest == "" || rest[0] == '.')
    ensures SuffixText(d + rest) == d
  {
    SplitNoSeparator(d + rest, '_');
    UpToFirstDot(d, rest);
  }

  /** The suffix of a saved image's name is the number it was saved under. */
  lemma SuffixOfFileName(keyword: string, number: int, ext: string)
    requires |ext| >= 1 && ext[0] == '.' && '_' !in ext
    ensures SuffixText(FileName(keyword, number, ext)) == IntToString(number)
    ensures ParseInt(SuffixText(FileName(keyword, number, ext))) == Some(number)
  {
    var digits := IntToString(number);
    IntToStringSeparators(number);
    assert '_' !in digits + ext by {
      forall c | c in digits + ext ensures c != '_' {
        assert c in digits || c in ext;
      }
    }
    SuffixTextAfterLast(keyword, digits, ext);
    ParseIntToString(number);
  }

  /** The number an image name carries: `int(name.split("_")[-1].split(".")[0])`, None where `int` raises. */
  function EntryNumber(name: string): Option<int> {
    ParseInt(SuffixText(name))
  }

  /** An entry matches when it starts with the raw keyword. */
  predicate Matches(entries: seq<string>, keyword: string, k: int) {
    0 <= k < |entries| && StartsWith(entries[k], keyword)
  }

  /**
    `[int(suffix) for img in entries if img.startswith(keyword)]`, in
    listing order; the first matching entry whose suffix is not an integer
    makes `int` raise, and is reported.
   */
  function ExistingNumbers(entries: seq<string>, keyword: string): Result<seq<int>, string>
    decreases |entries|
  {
    if |entries| == 0 then Ok([])
    else
      var rest := ExistingNumbers(entries[1..], keyword);
      if !StartsWith(entries[0], keyword) then rest
      else match EntryNumber(entries[0])
        case None => Err(entries[0])
        case Some(n) => if rest.Err? then rest else Ok([n] + rest.value)
  }

  /**
    The comprehension fails exactly when a matching entry's suffix is not an
    integer, and otherwise holds the numbers of the matching entries.
   */
  lemma {:induction false} ExistingNumbersSpec(entries: seq<string>, keyword: string)
    ensures var r := ExistingNumbers(entries, keyword);
      && (r.Ok? <==> forall k :: Matches(entries, keyword, k) ==> EntryNumber(entries[k]).Some?)
      && (r.Err? ==> r.error in entries && StartsWith(r.error, keyword) && EntryNumber(r.error).None?)
      && (r.Ok? ==> forall n :: n in r.value <==> exists k :: Matches(entries, keyword, k) && EntryNumber(entries[k]) == Some(n))
    decreases |entries|
  {
    if |entries| > 0 {
      var tail := entries[1..];
      ExistingNumbersSpec(tail, keyword);
      forall k | 1 <= k < |entries|
        ensures Matches(entries, keyword, k) <==> Matches(tail, keyword, k - 1)
        ensures entries[k] == tail[k - 1]
      {
      }
      var r := ExistingNumbers(entries, keyword);
      if r.Ok? {
        forall n | n in r.value
          ensures exists k :: Matches(entries, keyword, k) && EntryNumber(entries[k]) == Some(n)
        {
          if StartsWith(entries[0], keyword) && n == EntryNumber(entries[0]).value {
            assert Matches(entries, keyword, 0);
          } else {
            var k :| Matches(tail, keyword, k) && EntryNumber(tail[k]) == Some(n);
            assert Matches(entries, keyword, k + 1);
          }
        }
      }
      if !(forall k :: Matches(entries, keyword, k) ==> EntryNumber(entries[k]).Some?) {
        var k :| Matches(entries, keyword, k) && EntryNumber(entries[k]).None?;
        if k > 0 {
          assert Matches(tail, keyword, k - 1);
        }
      }
    }
  }

  function Max(ns: seq<int>): (m: int)
    requires |ns| >= 1
    ensures m in ns && forall k :: 0 <= k < |ns| ==> ns[k] <= m
    decreases |ns|
  {
    if |ns| == 1 then ns[0]
    else
      var rest := Max(ns[1..]);
      assert forall k :: 1 <= k < |ns| ==> ns[k] == ns[1..][k - 1];
      if ns[0] >= rest then ns[0] else rest
  }

  /**
    The starting counter of a keyword's run, `max(existing_numbers) if
    existing_numbers else 0`, or the entry whose suffix made `int` raise.
   */
  function LastNumber(entries: seq<string>, keyword: string): Result<int, string> {
    match ExistingNumbers(entries, keyword)
    case Err(entry) => Err(entry)
    case Ok(ns) => Ok(if |ns| == 0 then 0 else Max(ns))
  }

  /**
    The starting counter is the largest number among matching entries, or 0
    when none matches; it fails exactly when some matching entry's suffix is
    not an integer.
   */
  lemma LastNumberIsMax(entries: seq<string>, keyword: string)
    ensures LastNumber(entries, keyword).Err? <==> exists k :: Matches(entries, keyword, k) && EntryNumber(entries[k]).None?
    ensures LastNumber(entries, keyword).Ok? ==>
      && (forall k :: Matches(entries, keyword, k) ==> EntryNumber(entries[k]).value <= LastNumber(entries, keyword).value)
      && ((forall k :: !Matches(entries, keyword, k)) ==> LastNumber(entries, keyword).value == 0)
      && ((exists k :: Matches(entries, keyword, k)) ==>
            exists k :: Matches(entries, keyword, k) && EntryNumber(entries[k]) == Some(LastNumber(entries, keyword).value))
  {
    ExistingNumbersSpec(entries, keyword);
    var r := ExistingNumbers(entries, keyword);
    if r.Ok? && |r.value| > 0 {
      var m := Max(r.value);
      forall k | Matches(entries, keyword, k)
        ensures EntryNumber(entries[k]).value <= m
      {
        var n := EntryNumber(entries[k]).value;
        assert n in r.value;
        var i :| 0 <= i < |r.value| && r.value[i] == n;
      }
    }
  }

  /**
    The image directory is listed after its `url` sub-directory has been
    created, so a keyword that is a prefix of "url" (the empty keyword in
    particular) makes the counter computation raise.
   */
  lemma UrlDirectoryBreaksCounter(entries: seq<string>, keyword: string)
    requires "url" in entries && StartsWith("url", keyword)
    ensures LastNumber(entries, keyword).Err?
  {
    SplitNoSeparator("url", '_');
    SplitNoSeparator("url", '.');
    assert SuffixText("url") == "url";
    assert IsStripped("url");
    assert ParseInt("url").None?;
    var k :| 0 <= k < |entries| && entries[k] == "url";
    assert Matches(entries, keyword, k);
    LastNumberIsMax(entries, keyword);
  }

  /** A listing of saved images' names, as `os.listdir` would add them. */
  function AddEntries(entries: seq<string>, names: seq<string>): (r: seq<string>)
    ensures forall e :: e in r <==> e in entries || e in names
    decreases |names|
  {
    if |names| == 0 then entries
    else AddEntries(if names[0] in entries then entries else entries + [names[0]], names[1..])
  }

  /** Image names as saved: each carries the keyword, a number and an allow-listed extension. */
  predicate SavedNames(names: seq<string>, keyword: string, numbers: seq<int>, exts: seq<string>) {
    && |names| == |numbers| == |exts|
    && forall k :: 0 <= k < |names| ==>
         names[k] == FileName(keyword, numbers[k], exts[k]) && |exts[k]| >= 1 && exts[k][0] == '.' && '_' !in exts[k]
  }

  /** The starting counter bounds the number of every matching entry. */
  lemma CounterBoundsEntry(entries: seq<string>, keyword: string, e: string)
    requires LastNumber(entries, keyword).Ok? && e in entries && StartsWith(e, keyword)
    ensures EntryNumber(e).Some? && EntryNumber(e).value <= LastNumber(entries, keyword).value
  {
    var j :| 0 <= j < |entries| && entries[j] == e;
    LastNumberIsMax(entries, keyword);
    assert Matches(entries, keyword, j);
  }

  /** Each saved name starts with the keyword and carries its number. */
  lemma NamesCarryNumbers(names: seq<string>, keyword: string, numbers: seq<int>, exts: seq<string>)
    requires SavedNames(names, keyword, numbers, exts)
    ensures forall k :: 0 <= k < |names| ==> Matches(names, keyword, k) && EntryNumber(names[k]) == Some(numbers[k])
  {
    forall k | 0 <= k < |names|
      ensures Matches(names, keyword, k) && EntryNumber(names[k]) == Some(numbers[k])
    {
      NameCarriesNumber(keyword, numbers[k], exts[k]);
    }
  }

  /** One saved name starts with the keyword and carries its number. */
  lemma NameCarriesNumber(keyword: string, number: int, ext: string)
    requires |ext| >= 1 && ext[0] == '.' && '_' !in ext
    ensures StartsWith(FileName(keyword, number, ext), keyword)
    ensures EntryNumber(FileName(keyword, number, ext)) == Some(number)
  {
    var name := FileName(keyword, number, ext);
    SuffixOfFileName(keyword, number, ext);
    assert name[..|keyword|] == keyword;
  }

  /** Adding names that all carry a number keeps the counter computation from raising. */
  lemma AddedEntriesParse(entries: seq<string>, keyword: string, names: seq<string>)
    requires LastNumber(entries, keyword).Ok?
    requires forall k :: 0 <= k < |names| ==> EntryNumber(names[k]).Some?
    ensures LastNumber(AddEntries(entries, names), keyword).Ok?
  {
    var all := AddEntries(entries, names);
    LastNumberIsMax(entries, keyword);
    forall k | Matches(all, keyword, k)
      ensures EntryNumber(all[k]).Some?
    {
      if all[k] in entries {
        var j :| 0 <= j < |entries| && entries[j] == all[k];
        assert Matches(entries, keyword, j);
      } else {
        var j :| 0 <= j < |names| && names[j] == all[k];
      }
    }
    LastNumberIsMax(all, keyword);
  }

  /**
    Listing the directory again after new images were saved gives a
    starting counter at least as large as before and at least as large as
    every new image's number, so a later run never reuses one.
   */
  lemma NextCounterCoversSaved(entries: seq<string>, keyword: string, names: seq<string>, numbers: seq<int>, exts: seq<string>)
    requires LastNumber(entries, keyword).Ok?
    requires SavedNames(names, keyword, numbers, exts)
    requires forall k :: 0 <= k < |numbers| ==> numbers[k] > LastNumber(entries, keyword).value
    ensures LastNumber(AddEntries(entries, names), keyword).Ok?
    ensures LastNumber(AddEntries(entries, names), keyword).value >= LastNumber(entries, keyword).value
    ensures forall k :: 0 <= k < |numbers| ==> numbers[k] <= LastNumber(AddEntries(entries, names), keyword).value
  {
    var all := AddEntries(entries, names);
    NamesCarryNumbers(names, keyword, numbers, exts);
    AddedEntriesParse(entries, keyword, names);
    forall k | 0 <= k < |numbers|
      ensures numbers[k] <= LastNumber(all, keyword).value
    {
      CounterBoundsEntry(all, keyword, names[k]);
    }
    if |names| == 0 {
      assert all == entries;
    }
  }

  /** Reading in text mode turns `\r\n` and a lone `\r` into `\n`. */
  function UniversalNewlines(s: string): string
    decreases |s|
  {
    if |s| == 0 then ""
    else if s[0] == '\r' then "\n" + UniversalNewlines(if |s| > 1 && s[1] == '\n' then s[2..] else s[1..])
    else [s[0]] + UniversalNewlines(s[1..])
  }

  lemma {:induction false} UniversalNewlinesPlain(s: string)
    requires '\r' !in s
    ensures UniversalNewlines(s) == s
    decreases |s|
  {
    if |s| > 0 {
      UniversalNewlinesPlain(s[1..]);
      assert [s[0]] + s[1..] == s;
    }
  }

  /** Text-mode reading leaves no carriage return. */
  lemma {:induction false} UniversalNewlinesNoReturn(s: string)
    ensures '\r' !in UniversalNewlines(s)
    decreases |s|
  {
    if |s| > 0 {
      if s[0] == '\r' {
        UniversalNewlinesNoReturn(if |s| > 1 && s[1] == '\n' then s[2..] else s[1..]);
      } else {
        UniversalNewlinesNoReturn(s[1..]);
      }
    }
  }

  /** The lines that iterating over a text-mode file yields, each with its terminating `\n` (the last may lack one). */
  function FileLines(t: string): seq<string>
    decreases |t|
  {
    if |t| == 0 then []
    else
      var rest := FileLines(t[1..]);
      if t[0] == '\n' || |rest| == 0 then [[t[0]]] + rest
      else [[t[0]] + rest[0]] + rest[1..]
  }

  function Concat(lines: seq<string>): string
    decreases |lines|
  {
    if |lines| == 0 then "" else lines[0] + Concat(lines[1..])
  }

  predicate EndsWithNewline(l: string) {
    |l| >= 1 && l[|l| - 1] == '\n'
  }

  /** A line is non-empty and holds a `\n` only as its last character. */
  predicate IsLine(l: string) {
    |l| >= 1 && '\n' !in l[..|l| - 1]
  }

  /** The lines cut the text into pieces: together they are the text, and every piece but the last ends with `\n`. */
  lemma {:induction false} FileLinesPartition(t: string)
    ensures Concat(FileLines(t)) == t
    ensures forall k :: 0 <= k < |FileLines(t)| ==> IsLine(FileLines(t)[k])
    ensures forall k :: 0 <= k < |FileLines(t)| - 1 ==> EndsWithNewline(FileLines(t)[k])
    decreases |t|
  {
    if |t| > 0 {
      var rest := FileLines(t[1..]);
      FileLinesPartition(t[1..]);
      var lines := FileLines(t);
      if t[0] == '\n' || |rest| == 0 {
        assert lines[1..] == rest;
        assert [t[0]] + t[1..] == t;
        forall k | 1 <= k < |lines| ensures IsLine(lines[k]) {
          assert lines[k] == rest[k - 1];
        }
      } else {
        assert lines[1..] == rest[1..];
        assert Concat(rest) == rest[0] + Concat(rest[1..]);
        assert [t[0]] + t[1..] == t;
        assert IsLine(rest[0]);
        assert (lines[0])[..|lines[0]| - 1] == [t[0]] + rest[0][..|rest[0]| - 1];
        forall k | 1 <= k < |lines| ensures IsLine(lines[k]) {
          assert lines[k] == rest[k];
        }
        forall k | 0 <= k < |lines| - 1 ensures EndsWithNewline(lines[k]) {
          if k > 0 {
            assert lines[k] == rest[k];
          } else {
            assert lines[0][|lines[0]| - 1] == rest[0][|rest[0]| - 1];
          }
        }
      }
    }
  }

  /** Every character of a line is a character of the text. */
  lemma {:induction false} ConcatHolds(lines: seq<string>, k: nat, c: char)
    requires k < |lines| && c in lines[k]
    ensures c in Concat(lines)
    decreases k
  {
    assert Concat(lines) == lines[0] + Concat(lines[1..]);
    if k > 0 {
      ConcatHolds(lines[1..], k - 1, c);
    }
  }

  /** Text after a complete last line starts a new line. */
  lemma {:induction false} FileLinesAppend(a: string, b: string)
    requires |a| == 0 || a[|a| - 1] == '\n'
    ensures FileLines(a + b) == FileLines(a) + FileLines(b)
    decreases |a|
  {
    if |a| > 0 {
      var tail := a[1..];
      assert (a + b)[0] == a[0] && (a + b)[1..] == tail + b;
      if |tail| == 0 {
        assert a[0] == '\n' && tail + b == b && [a[0]] == a;
        assert FileLines(tail) == [];
        assert FileLines(a) == [a];
        assert FileLines(a + b) == [a] + FileLines(b);
      } else {
        assert tail[|tail| - 1] == a[|a| - 1];
        FileLinesAppend(tail, b);
        var lines := FileLines(tail);
        if a[0] != '\n' {
          assert |lines| > 0;
          assert (lines + FileLines(b))[0] == lines[0] && (lines + FileLines(b))[1..] == lines[1..] + FileLines(b);
          assert FileLines(a + b) == [[a[0]] + lines[0]] + (lines[1..] + FileLines(b));
          assert FileLines(a) == [[a[0]] + lines[0]] + lines[1..];
        } else {
          assert FileLines(a + b) == [[a[0]]] + (lines + FileLines(b));
        }
      }
    } else {
      assert a + b == b;
    }
  }

  lemma {:induction false} FileLinesOfLine(u: string)
    requires '\n' !in u
    ensures FileLines(u + "\n") == [u + "\n"]
    decreases |u|
  {
    if |u| > 0 {
      assert (u + "\n")[0] == u[0] && (u + "\n")[1..] == u[1..] + "\n";
      FileLinesOfLine(u[1..]);
      assert [u[0]] + (u[1..] + "\n") == u + "\n";
    } else {
      assert u + "\n" == "\n" && "\n"[1..] == "";
    }
  }

  /** `{line.strip() for line in url_file}`, or the empty set when the ledger file does not exist. */
  function LedgerUrls(file: Option<string>): set<string> {
    match file
    case None => {}
    case Some(content) => set l | l in FileLines(UniversalNewlines(content)) :: Strip(l)
  }

  /** What `write_urls_to_file` appends for each URL in turn: the URL and a newline. */
  function AppendedText(urls: seq<string>): string
    decreases |urls|
  {
    if |urls| == 0 then "" else urls[0] + "\n" + AppendedText(urls[1..])
  }

  /** A URL that can be written as one ledger line and read back unchanged. */
  predicate IsLedgerLine(u: string) {
    '\n' !in u && '\r' !in u && IsStripped(u)
  }

  lemma StripLine(u: string)
    requires IsStripped(u)
    ensures Strip(u + "\n") == u
  {
    var l := u + "\n";
    assert IsSpace('\n');
    assert l[..|l| - 1] == u;
    if |u| > 0 {
      assert l[0] == u[0];
      assert LStrip(l, StrBlanks) == l;
      assert RStrip(l, StrBlanks) == RStrip(u, StrBlanks);
      assert RStrip(u, StrBlanks) == u;
    } else {
      assert l[1..] == "";
      assert LStrip(l, StrBlanks) == "";
    }
  }

  /** A stripped line holds no newline, and only characters of the line. */
  lemma StripOfLine(l: string)
    requires IsLine(l)
    ensures '\n' !in Strip(l)
    ensures forall c :: c in Strip(l) ==> c in l
  {
    var a := LStrip(l, StrBlanks);
    var m := |l| - |a|;
    var r := RStrip(a, StrBlanks);
    assert r == Strip(l);
    assert IsBlank(StrBlanks, '\n');
    forall k | 0 <= k < |r| ensures r[k] == l[m + k] {
      assert r[k] == a[k];
    }
    forall k | 0 <= k < |r| ensures r[k] != '\n' && r[k] in l {
      if m + k < |l| - 1 {
        assert l[..|l| - 1][m + k] == l[m + k];
      } else {
        assert k == |r| - 1;
      }
    }
  }

  /**
    Every URL read back from a ledger fits on one line and has no
    surrounding whitespace: a URL that does not is never found there, even
    right after it was appended.
   */
  lemma LedgerUrlsAreLines(file: Option<string>, u: string)
    requires u in LedgerUrls(file)
    ensures IsLedgerLine(u)
  {
    var t := UniversalNewlines(file.value);
    var lines := FileLines(t);
    var l :| l in lines && Strip(l) == u;
    var k :| 0 <= k < |lines| && lines[k] == l;
    FileLinesPartition(t);
    UniversalNewlinesNoReturn(file.value);
    StripOfLine(l);
    forall c | c in u ensures c != '\r' {
      ConcatHolds(lines, k, c);
    }
  }

  lemma {:induction false} AppendedLines(urls: seq<string>)
    requires forall k :: 0 <= k < |urls| ==> IsLedgerLine(urls[k])
    ensures '\r' !in AppendedText(urls)
    ensures FileLines(AppendedText(urls)) == seq(|urls|, k requires 0 <= k < |urls| => urls[k] + "\n")
    ensures |urls| > 0 ==> AppendedText(urls)[|AppendedText(urls)| - 1] == '\n'
    decreases |urls|
  {
    if |urls| > 0 {
      AppendedLines(urls[1..]);
      var line := urls[0] + "\n";
      assert AppendedText(urls) == line + AppendedText(urls[1..]);
      FileLinesAppend(line, AppendedText(urls[1..]));
      FileLinesOfLine(urls[0]);
    }
  }

  /** The lines of the file ending with appended URLs: the old lines, then one per URL. */
  lemma ReloadedLines(content: string, urls: seq<string>)
    requires '\r' !in content && (|content| == 0 || content[|content| - 1] == '\n')
    requires forall k :: 0 <= k < |urls| ==> IsLedgerLine(urls[k])
    ensures UniversalNewlines(content) == content
    ensures FileLines(UniversalNewlines(content + AppendedText(urls)))
      == FileLines(content) + seq(|urls|, k requires 0 <= k < |urls| => urls[k] + "\n")
  {
    AppendedLines(urls);
    UniversalNewlinesPlain(content);
    UniversalNewlinesPlain(content + AppendedText(urls));
    FileLinesAppend(content, AppendedText(urls));
  }

  /** Stripping the appended lines gives back the URLs. */
  lemma StrippedAppended(urls: seq<string>)
    requires forall k :: 0 <= k < |urls| ==> IsLedgerLine(urls[k])
    ensures var added := seq(|urls|, k requires 0 <= k < |urls| => urls[k] + "\n");
      (set l | l in added :: Strip(l)) == set u | u in urls
  {
    var added := seq(|urls|, k requires 0 <= k < |urls| => urls[k] + "\n");
    forall u | u in urls ensures u in set l | l in added :: Strip(l) {
      var k :| 0 <= k < |urls| && urls[k] == u;
      StripLine(u);
      assert added[k] in added;
    }
    forall l | l in added ensures Strip(l) in urls {
      var k :| 0 <= k < |added| && added[k] == l;
      StripLine(urls[k]);
    }
  }

  /** Stripping the lines of two parts: the union of what each part gives. */
  lemma StrippedConcat(a: seq<string>, b: seq<string>)
    ensures (set l | l in a + b :: Strip(l)) == (set l | l in a :: Strip(l)) + (set l | l in b :: Strip(l))
  {
  }

  /**
    Appending URLs to a ledger that ends with a complete line (or is empty)
    and reading it back gives the old URL set plus exactly the appended URLs,
    provided each URL fits on one line and has no surrounding whitespace.
   */
  lemma LedgerReload(content: string, urls: seq<string>)
    requires '\r' !in content && (|content| == 0 || content[|content| - 1] == '\n')
    requires forall k :: 0 <= k < |urls| ==> IsLedgerLine(urls[k])
    ensures LedgerUrls(Some(content + AppendedText(urls))) == LedgerUrls(Some(content)) + set u | u in urls
  {
    var added := seq(|urls|, k requires 0 <= k < |urls| => urls[k] + "\n");
    ReloadedLines(content, urls);
    StrippedAppended(urls);
    StrippedConcat(FileLines(content), added);
  }
}
