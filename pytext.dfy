/**
  The parts of Python's `str` that the downloader relies on, with the
  semantics of CPython: `find` with its `-1` "not found" result and its
  treatment of negative and out-of-range bounds, slicing, `in`,
  `startswith`, `split` on one character, `strip` and `replace`.
 */
module PyText {

  /** The characters for which Python's `str.isspace()` holds; `str.strip()` removes exactly these. */
  predicate IsSpace(c: char) {
    ('\t' <= c <= '\r') || ('\U{1c}' <= c <= '\U{1f}') || c == ' ' || c == '\U{85}' || c == '\U{a0}'
    || c == '\U{1680}' || ('\U{2000}' <= c <= '\U{200a}') || c == '\U{2028}' || c == '\U{2029}'
    || c == '\U{202f}' || c == '\U{205f}' || c == '\U{3000}'
  }

  /** Neither the first nor the last character is whitespace. */
  predicate IsStripped(s: string) {
    |s| == 0 || (!IsSpace(s[0]) && !IsSpace(s[|s| - 1]))
  }

  /**
    The two whitespace sets the program meets: that of `str.isspace()`, which
    `strip()` removes, and the narrower one `int()` ignores around a number.
    CPython's `int()` maps every non-ASCII character for which `isspace()`
    holds to a space and then skips only ASCII `\t`, `\n`, `\v`, `\f`, `\r`
    and space, so the separators U+001C..U+001F are not skipped.
   */
  datatype Blanks = StrBlanks | IntBlanks

  predicate IsBlank(w: Blanks, c: char) {
    IsSpace(c) && (w == IntBlanks ==> !('\U{1c}' <= c <= '\U{1f}'))
  }

  /** `s.lstrip()` for the whitespace set `w`. */
  function LStrip(s: string, w: Blanks): (r: string)
    ensures |r| <= |s| && r == s[|s| - |r|..]
    ensures forall k :: 0 <= k < |s| - |r| ==> IsBlank(w, s[k])
    ensures |r| == 0 || !IsBlank(w, r[0])
  {
    if |s| > 0 && IsBlank(w, s[0]) then LStrip(s[1..], w) else s
  }

  /** `s.rstrip()` for the whitespace set `w`. */
  function RStrip(s: string, w: Blanks): (r: string)
    ensures |r| <= |s| && r == s[..|r|]
    ensures forall k :: |r| <= k < |s| ==> IsBlank(w, s[k])
    ensures |r| == 0 || !IsBlank(w, r[|r| - 1])
  {
    if |s| > 0 && IsBlank(w, s[|s| - 1]) then RStrip(s[..|s| - 1], w) else s
  }

  /** `lstrip` removes a whitespace prefix up to the first non-space. */
  lemma LStripPrefix(pre: string, rest: string, w: Blanks)
    requires forall k :: 0 <= k < |pre| ==> IsBlank(w, pre[k])
    requires |rest| > 0 && !IsBlank(w, rest[0])
    ensures LStrip(pre + rest, w) == rest
  {
    var s := pre + rest;
    var r := LStrip(s, w);
    assert s[|pre|] == rest[0];
    assert |s| - |r| == |pre|;
    assert s[|pre|..] == rest;
  }

  /** `rstrip` removes a whitespace suffix back to the last non-space. */
  lemma RStripSuffix(rest: string, post: string, w: Blanks)
    requires forall k :: 0 <= k < |post| ==> IsBlank(w, post[k])
    requires |rest| > 0 && !IsBlank(w, rest[|rest| - 1])
    ensures RStrip(rest + post, w) == rest
  {
    var s := rest + post;
    var r := RStrip(s, w);
    assert s[|rest| - 1] == rest[|rest| - 1];
    assert |r| == |rest|;
    assert s[..|rest|] == rest;
  }

  /** `s.strip()`: the longest infix of `s` that begins and ends with a non-space. */
  function Strip(s: string): (r: string)
    ensures IsStripped(r)
    ensures IsStripped(s) ==> r == s
  {
    RStrip(LStrip(s, StrBlanks), StrBlanks)
  }

  /** Strip removes a whitespace prefix and a whitespace suffix, and nothing else. */
  lemma StripIsInfix(s: string)
    ensures exists i, j :: (0 <= i <= j <= |s| && Strip(s) == s[i..j]
      && (forall k :: 0 <= k < i ==> IsSpace(s[k])) && (forall k :: j <= k < |s| ==> IsSpace(s[k])))
  {
    var l := LStrip(s, StrBlanks);
    var i := |s| - |l|;
    var j := i + |Strip(s)|;
    assert Strip(s) == s[i..j];
  }

  predicate StartsWith(s: string, prefix: string) {
    |prefix| <= |s| && s[..|prefix|] == prefix
  }

  /** `sub` occurs in `s` starting at index `i`. */
  predicate OccursAt(s: string, sub: string, i: int) {
    0 <= i && i + |sub| <= |s| && s[i..i + |sub|] == sub
  }

  /** Python's `sub in s`. */
  predicate Contains(s: string, sub: string) {
    exists i | 0 <= i <= |s| - |sub| :: OccursAt(s, sub, i)
  }

  lemma ContainsAt(s: string, sub: string, i: int)
    requires OccursAt(s, sub, i)
    ensures Contains(s, sub)
  {
  }

  /** A text lacking some character of `sub` does not contain `sub`. */
  lemma MissingCharNotContained(s: string, sub: string, c: char)
    requires c in sub && c !in s
    ensures !Contains(s, sub)
  {
  }

  /** A one-character text occurs exactly where that character stands. */
  lemma OccursAtChar(s: string, c: char)
    ensures forall j :: OccursAt(s, [c], j) <==> 0 <= j < |s| && s[j] == c
  {
    forall j | 0 <= j < |s| ensures OccursAt(s, [c], j) <==> s[j] == c {
      assert s[j..j + 1] == [s[j]];
    }
  }

  /** How CPython's `str.find` normalises its `start` argument: negative counts from the end, floored at 0, never capped. */
  function StartIndex(start: int, n: nat): nat {
    if start >= 0 then start else if start + n >= 0 then start + n else 0
  }

  /** How CPython normalises the `end` argument of `str.find` and both bounds of a slice: negative counts from the end, clamped to [0, n]. */
  function Clamp(index: int, n: nat): (r: nat)
    ensures r <= n
    ensures 0 <= index <= n ==> r == index
    ensures index > n ==> r == n
    ensures index < 0 && index + n >= 0 ==> r == index + n
    ensures index + n < 0 ==> r == 0
  {
    if index > n then n else if index >= 0 then index else if index + n >= 0 then index + n else 0
  }

  function FindFrom(s: string, sub: string, i: nat, hi: nat): (r: int)
    requires hi <= |s|
    ensures r == -1 || (i <= r && r + |sub| <= hi && OccursAt(s, sub, r))
    ensures r != -1 ==> forall j :: i <= j < r ==> !OccursAt(s, sub, j)
    ensures r == -1 ==> forall j :: i <= j && j + |sub| <= hi ==> !OccursAt(s, sub, j)
    decreases hi - i
  {
    if i + |sub| > hi then -1
    else if s[i..i + |sub|] == sub then i
    else FindFrom(s, sub, i + 1, hi)
  }

  /**
    `s.find(sub, start, end)`: the lowest index at which `sub` lies wholly
    inside the normalised range, or -1.
   */
  function Find(s: string, sub: string, start: int, end: int): (r: int)
    ensures var lo, hi := StartIndex(start, |s|), Clamp(end, |s|);
      && (r == -1 || (lo <= r && r + |sub| <= hi && OccursAt(s, sub, r)))
      && (r != -1 ==> forall j :: lo <= j < r ==> !OccursAt(s, sub, j))
      && (r == -1 ==> forall j :: lo <= j && j + |sub| <= hi ==> !OccursAt(s, sub, j))
  {
    FindFrom(s, sub, StartIndex(start, |s|), Clamp(end, |s|))
  }

  /**
    `s[a:b]` with Python's treatment of negative and out-of-range bounds:
    in-range bounds cut the text, a negative end counts from the end, and
    bounds that cross after normalisation give the empty text.
   */
  function Slice(s: string, a: int, b: int): (r: string)
    ensures |r| <= |s|
    ensures 0 <= a <= b <= |s| ==> r == s[a..b]
    ensures 0 <= a && b < 0 && a <= |s| + b ==> r == s[a..|s| + b]
    ensures Clamp(b, |s|) <= Clamp(a, |s|) ==> r == ""
  {
    var lo, hi := Clamp(a, |s|), Clamp(b, |s|);
    if lo < hi then s[lo..hi] else ""
  }

  /** `s.split(sep)` for a one-character separator. */
  function Split(s: string, sep: char): (parts: seq<string>)
    ensures |parts| >= 1
    ensures forall k :: 0 <= k < |parts| ==> sep !in parts[k]
    ensures forall k, c :: 0 <= k < |parts| && c in parts[k] ==> c in s
    decreases |s|
  {
    if |s| == 0 then [""]
    else
      var rest := Split(s[1..], sep);
      assert forall c :: c in s[1..] ==> c in s;
      if s[0] == sep then [""] + rest else [[s[0]] + rest[0]] + rest[1..]
  }

  /** `sep.join(parts)`. */
  function Join(parts: seq<string>, sep: char): string
    decreases |parts|
  {
    if |parts| == 0 then ""
    else if |parts| == 1 then parts[0]
    else parts[0] + [sep] + Join(parts[1..], sep)
  }

  lemma {:induction false} SplitNoSeparator(s: string, sep: char)
    requires sep !in s
    ensures Split(s, sep) == [s]
    decreases |s|
  {
    if |s| > 0 {
      SplitNoSeparator(s[1..], sep);
      assert [s[0]] + s[1..] == s;
    }
  }

  /** Splitting at the first separator: the text before it is the first part. */
  lemma {:induction false} SplitAtFirst(a: string, sep: char, b: string)
    requires sep !in a
    ensures Split(a + [sep] + b, sep) == [a] + Split(b, sep)
    decreases |a|
  {
    var s := a + [sep] + b;
    if |a| == 0 {
      assert s[1..] == b;
    } else {
      assert s[1..] == a[1..] + [sep] + b;
      SplitAtFirst(a[1..], sep, b);
      assert [a[0]] + a[1..] == a;
    }
  }

  /** Splitting where the separator does not occur after the last one: the text after it is the last part. */
  lemma {:induction false} SplitAtLast(a: string, sep: char, b: string)
    requires sep !in b
    ensures var parts := Split(a + [sep] + b, sep); |parts| >= 2 && parts[|parts| - 1] == b
    decreases |a|
  {
    var s := a + [sep] + b;
    if |a| == 0 {
      assert s[1..] == b;
      SplitNoSeparator(b, sep);
    } else {
      assert s[1..] == a[1..] + [sep] + b;
      SplitAtLast(a[1..], sep, b);
    }
  }

  /** A text holding the separator splits into at least two parts. */
  lemma {:induction false} SplitSeparatorOccurs(s: string, sep: char)
    requires sep in s
    ensures |Split(s, sep)| >= 2
    decreases |s|
  {
    if s[0] != sep {
      assert sep in s[1..];
      SplitSeparatorOccurs(s[1..], sep);
    }
  }

  /** Joining the parts of a split gives back the text. */
  lemma {:induction false} JoinSplit(s: string, sep: char)
    ensures Join(Split(s, sep), sep) == s
    decreases |s|
  {
    if |s| > 0 {
      var rest := Split(s[1..], sep);
      JoinSplit(s[1..], sep);
      if s[0] == sep {
        assert Split(s, sep) == [""] + rest;
      } else if |rest| == 1 {
        assert Split(s, sep) == [[s[0]] + rest[0]];
      } else {
        assert Join(rest, sep) == rest[0] + [sep] + Join(rest[1..], sep);
        assert Split(s, sep)[1..] == rest[1..];
      }
    }
  }

  /** Splitting a join of separator-free parts gives back the parts. */
  lemma {:induction false} SplitJoin(parts: seq<string>, sep: char)
    requires |parts| >= 1
    requires forall k :: 0 <= k < |parts| ==> sep !in parts[k]
    ensures Split(Join(parts, sep), sep) == parts
    decreases |parts|
  {
    if |parts| == 1 {
      SplitNoSeparator(parts[0], sep);
    } else {
      SplitAtFirst(parts[0], sep, Join(parts[1..], sep));
      SplitJoin(parts[1..], sep);
    }
  }

  /** `s.replace(from, to)` for one-character arguments. */
  function ReplaceChar(s: string, from: char, to: char): (r: string)
    ensures |r| == |s|
    ensures forall k :: 0 <= k < |s| ==> r[k] == (if s[k] == from then to else s[k])
  {
    seq(|s|, k requires 0 <= k < |s| => if s[k] == from then to else s[k])
  }

  /** Python's identity `s.replace(a, b) == b.join(s.split(a))`, for one-character arguments. */
  lemma {:induction false} ReplaceJoinsSplit(s: string, from: char, to: char)
    ensures ReplaceChar(s, from, to) == Join(Split(s, from), to)
    decreases |s|
  {
    if |s| > 0 {
      var rest := Split(s[1..], from);
      ReplaceJoinsSplit(s[1..], from, to);
      ReplaceHead(s, from, to);
      if s[0] == from {
        assert Split(s, from) == [""] + rest;
        JoinEmptyHead(rest, to);
      } else {
        assert Split(s, from) == [[s[0]] + rest[0]] + rest[1..];
        JoinExtendsHead(s[0], rest, to);
      }
    }
  }

  lemma ReplaceHead(s: string, from: char, to: char)
    requires |s| > 0
    ensures ReplaceChar(s, from, to) == [if s[0] == from then to else s[0]] + ReplaceChar(s[1..], from, to)
  {
  }

  /** An empty first part contributes just the separator. */
  lemma JoinEmptyHead(parts: seq<string>, sep: char)
    requires |parts| >= 1
    ensures Join([""] + parts, sep) == [sep] + Join(parts, sep)
  {
    assert ([""] + parts)[1..] == parts;
  }

  /** Putting a character in front of the first part puts it in front of the join. */
  lemma JoinExtendsHead(c: char, parts: seq<string>, sep: char)
    requires |parts| >= 1
    ensures Join([[c] + parts[0]] + parts[1..], sep) == [c] + Join(parts, sep)
  {
    var longer := [[c] + parts[0]] + parts[1..];
    if |parts| > 1 {
      assert longer[1..] == parts[1..];
    }
  }
}
