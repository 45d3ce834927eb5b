/**
  The Python `str` operations the configuration scripts rely on, written out:
  whitespace, strip/lstrip/rstrip, split on one character, rsplit(sep, 1),
  count, line splitting, isdigit, int() and lower().

  Characters are Unicode scalar values.  Where Python consults the Unicode
  database (isdigit, int, lower) the model keeps to ASCII; README says so.
*/
module PyStr {
  import opened Wrappers
  import Seqs

  /** `str.isspace()`: the characters Python's `strip()` and the regex class `\s` remove. */
  predicate IsSpace(c: char) {
    || ('\t' <= c <= '\r')            // \t \n \v \f \r
    || ('\U{1C}' <= c <= '\U{1F}')    // file, group, record and unit separators
    || c == ' ' || c == '\U{85}' || c == '\U{A0}' || c == '\U{1680}'
    || ('\U{2000}' <= c <= '\U{200A}')
    || c == '\U{2028}' || c == '\U{2029}' || c == '\U{202F}' || c == '\U{205F}' || c == '\U{3000}'
  }

  /** The boundaries at which `str.splitlines()` breaks a text ("\r\n" counts as one). */
  predicate IsLineBoundary(c: char) {
    || c == '\n' || c == '\r' || c == '\U{0B}' || c == '\U{0C}'
    || c == '\U{1C}' || c == '\U{1D}' || c == '\U{1E}'
    || c == '\U{85}' || c == '\U{2028}' || c == '\U{2029}'
  }

  /** The boundaries of a text file opened with universal newlines. */
  predicate IsNewline(c: char) {
    c == '\n' || c == '\r'
  }

  predicate IsAsciiDigit(c: char) {
    '0' <= c <= '9'
  }

  predicate IsPad(c: char) {
    c == '='
  }

  predicate IsBracket(c: char) {
    c == '[' || c == ']'
  }

  predicate AllSatisfy(s: string, p: char -> bool) {
    forall i :: 0 <= i < |s| ==> p(s[i])
  }

  // ---------------------------------------------------------------------------
  // strip family

  /** `s.lstrip(chars)`: drops the longest prefix whose characters satisfy `p`. */
  function LStrip(s: string, p: char -> bool): (r: string)
    ensures |r| <= |s| && r == s[|s| - |r|..]
    ensures forall i :: 0 <= i < |s| - |r| ==> p(s[i])
    ensures r != [] ==> !p(r[0])
    decreases |s|
  {
    if s != [] && p(s[0]) then LStrip(s[1..], p) else s
  }

  /** `s.rstrip(chars)`: drops the longest suffix whose characters satisfy `p`. */
  function RStrip(s: string, p: char -> bool): (r: string)
    ensures |r| <= |s| && r == s[..|r|]
    ensures forall i :: |r| <= i < |s| ==> p(s[i])
    ensures r != [] ==> !p(r[|r| - 1])
    decreases |s|
  {
    if s != [] && p(s[|s| - 1]) then RStrip(s[..|s| - 1], p) else s
  }

  /** `s.strip(chars)`. */
  function Strip(s: string, p: char -> bool): (r: string)
    ensures |r| <= |s|
    ensures r != [] ==> !p(r[0]) && !p(r[|r| - 1])
  {
    RStrip(LStrip(s, p), p)
  }

  /** `s.strip()`. */
  function Trim(s: string): (r: string)
    ensures |r| <= |s|
    ensures r != [] ==> !IsSpace(r[0]) && !IsSpace(r[|r| - 1])
  {
    Strip(s, IsSpace)
  }

  /** The result of rstrip is unique: what is left is the part before a suffix of
      `p`-characters that does not itself end in a `p`-character. */
  lemma {:induction false} RStripOfSuffix(x: string, y: string, p: char -> bool)
    requires AllSatisfy(y, p)
    requires x != [] ==> !p(x[|x| - 1])
    ensures RStrip(x + y, p) == x
  {
    assert (x + y)[..|x|] == x;
  }

  /** The result of lstrip is unique: what is left after a prefix of `p`-characters
      that does not itself start with a `p`-character. */
  lemma {:induction false} LStripOfPrefix(x: string, y: string, p: char -> bool)
    requires AllSatisfy(x, p)
    requires y != [] ==> !p(y[0])
    ensures LStrip(x + y, p) == y
  {
    assert (x + y)[|x|..] == y;
  }

  /** Surrounding whitespace does not survive strip(). */
  lemma TrimSurrounded(w1: string, s: string, w2: string)
    requires AllSatisfy(w1, IsSpace) && AllSatisfy(w2, IsSpace)
    requires s != [] && !IsSpace(s[0]) && !IsSpace(s[|s| - 1])
    ensures Trim(w1 + s + w2) == s
  {
    assert w1 + s + w2 == w1 + (s + w2);
    LStripOfPrefix(w1, s + w2, IsSpace);
    RStripOfSuffix(s, w2, IsSpace);
  }

  /** A string that neither starts nor ends with whitespace is its own strip(). */
  lemma TrimOfTrimmed(s: string)
    requires s != [] ==> !IsSpace(s[0]) && !IsSpace(s[|s| - 1])
    ensures Trim(s) == s
  {
    assert LStrip(s, IsSpace) == s;
    RStripOfSuffix(s, [], IsSpace);
    assert s + [] == s;
  }

  /** Every character strip() keeps comes from the original string. */
  lemma TrimIsInfix(s: string)
    ensures forall c :: c in Trim(s) ==> c in s
  {
    var l := LStrip(s, IsSpace);
    var t := RStrip(l, IsSpace);
    forall c | c in t ensures c in s {
      var j :| 0 <= j < |t| && t[j] == c;
      assert t[j] == l[j] == s[|s| - |l| + j];
    }
  }

  /** strip() is idempotent. */
  lemma TrimIdempotent(s: string)
    ensures Trim(Trim(s)) == Trim(s)
  {
    TrimOfTrimmed(Trim(s));
  }

  // ---------------------------------------------------------------------------
  // searching

  /** `s.find(c)` as an option. */
  function IndexOf(s: string, c: char): (r: Option<nat>)
    ensures r.None? <==> c !in s
    ensures r.Some? ==> r.value < |s| && s[r.value] == c && c !in s[..r.value]
    decreases |s|
  {
    if s == [] then None
    else if s[0] == c then Some(0)
    else match IndexOf(s[1..], c)
      case None => None
      case Some(k) => assert s[1..][..k] == s[1..k + 1]; Some(k + 1)
  }

  /** `s.rfind(c)` as an option. */
  function LastIndexOf(s: string, c: char): (r: Option<nat>)
    ensures r.None? <==> c !in s
    ensures r.Some? ==> r.value < |s| && s[r.value] == c && c !in s[r.value + 1..]
    decreases |s|
  {
    if s == [] then None
    else if s[|s| - 1] == c then Some(|s| - 1)
    else
      var init := s[..|s| - 1];
      assert s == init + [s[|s| - 1]];
      match LastIndexOf(init, c)
      case None => None
      case Some(k) => assert s[k + 1..] == init[k + 1..] + [s[|s| - 1]]; Some(k)
  }

  /** The first occurrence is where the prefix before it ends. */
  lemma IndexOfAfterPrefix(x: string, y: string, c: char)
    requires c !in x
    ensures IndexOf(x + [c] + y, c) == Some(|x|)
  {
    assert (x + [c] + y)[|x|] == c;
  }

  /** `s.count(c)`. */
  function Count(s: string, c: char): (n: nat)
    ensures n <= |s|
    ensures n == 0 <==> c !in s
    decreases |s|
  {
    if s == [] then 0 else (if s[0] == c then 1 else 0) + Count(s[1..], c)
  }

  lemma {:induction false} CountAppend(x: string, y: string, c: char)
    ensures Count(x + y, c) == Count(x, c) + Count(y, c)
    decreases |x|
  {
    if x != [] {
      assert (x + y)[1..] == x[1..] + y;
      CountAppend(x[1..], y, c);
    } else {
      assert x + y == y;
    }
  }

  // ---------------------------------------------------------------------------
  // splitting and joining

  /** `sep.join(parts)`. */
  function Join(parts: seq<string>, sep: char): string
    decreases |parts|
  {
    if |parts| == 0 then ""
    else if |parts| == 1 then parts[0]
    else parts[0] + [sep] + Join(parts[1..], sep)
  }

  /** `s.split(sep)` for a one-character separator: never empty, no part holds the
      separator, and joining the parts gives back `s`. */
  function Split(s: string, sep: char): (parts: seq<string>)
    ensures |parts| >= 1
    ensures forall i :: 0 <= i < |parts| ==> sep !in parts[i]
    ensures Join(parts, sep) == s
    decreases |s|
  {
    match IndexOf(s, sep)
    case None => [s]
    case Some(k) =>
      var rest := Split(s[k + 1..], sep);
      assert s == s[..k] + [sep] + s[k + 1..];
      [s[..k]] + rest
  }

  /** Splitting is the inverse of joining parts that do not contain the separator. */
  lemma {:induction false} SplitJoin(parts: seq<string>, sep: char)
    requires |parts| >= 1
    requires forall i :: 0 <= i < |parts| ==> sep !in parts[i]
    ensures Split(Join(parts, sep), sep) == parts
    decreases |parts|
  {
    if |parts| > 1 {
      var tail := parts[1..];
      assert forall i :: 0 <= i < |tail| ==> sep !in tail[i] by {
        forall i | 0 <= i < |tail| ensures sep !in tail[i] {
          assert tail[i] == parts[i + 1];
        }
      }
      SplitJoin(tail, sep);
      SplitCons(parts[0], Join(tail, sep), sep);
      assert parts == [parts[0]] + tail;
    } else {
      assert sep !in parts[0];
    }
  }

  /** The first part ends at the first separator. */
  lemma SplitCons(x: string, rest: string, sep: char)
    requires sep !in x
    ensures Split(x + [sep] + rest, sep) == [x] + Split(rest, sep)
  {
    IndexOfAfterPrefix(x, rest, sep);
    var s := x + [sep] + rest;
    assert s[|x| + 1..] == rest;
    assert s[..|x|] == x;
  }

  lemma {:induction false} JoinAppend(xs: seq<string>, ys: seq<string>, sep: char)
    requires |xs| >= 1 && |ys| >= 1
    ensures Join(xs + ys, sep) == Join(xs, sep) + [sep] + Join(ys, sep)
    decreases |xs|
  {
    if |xs| == 1 {
      assert (xs + ys)[1..] == ys;
    } else {
      assert (xs + ys)[1..] == xs[1..] + ys;
      JoinAppend(xs[1..], ys, sep);
    }
  }

  /** There is one more part than there are separators. */
  lemma {:induction false} SplitCount(s: string, sep: char)
    ensures |Split(s, sep)| == Count(s, sep) + 1
    decreases |s|
  {
    match IndexOf(s, sep)
    case None =>
    case Some(k) =>
      var x, rest := s[..k], s[k + 1..];
      assert Split(s, sep) == [x] + Split(rest, sep);
      SplitCount(rest, sep);
      CountAround(s, k, sep);
  }

  lemma CountAround(s: string, k: nat, c: char)
    requires k < |s| && s[k] == c && c !in s[..k]
    ensures Count(s, c) == Count(s[k + 1..], c) + 1
  {
    var x, rest := s[..k], s[k + 1..];
    assert s == x + ([c] + rest);
    CountAppend(x, [c] + rest, c);
    CountAppend([c], rest, c);
  }

  /** Splitting at a separator placed between two strings splits each of them. */
  lemma SplitAppend(a: string, b: string, sep: char)
    ensures Split(a + [sep] + b, sep) == Split(a, sep) + Split(b, sep)
  {
    var xs, ys := Split(a, sep), Split(b, sep);
    JoinAppend(xs, ys, sep);
    SplitJoin(xs + ys, sep);
  }

  /** The list comprehension `[p.strip() for p in parts if p.strip()]`. */
  function NonEmptyStripped(parts: seq<string>): (items: seq<string>)
    ensures |items| <= |parts|
    ensures forall i :: 0 <= i < |items| ==> items[i] != "" && Trim(items[i]) == items[i]
    decreases |parts|
  {
    if parts == [] then [] else StrippedItem(parts[0]) + NonEmptyStripped(parts[1..])
  }

  /** The contribution of one part to `NonEmptyStripped`. */
  function StrippedItem(part: string): (item: seq<string>)
    ensures |item| <= 1
    ensures forall i :: 0 <= i < |item| ==> item[i] != "" && Trim(item[i]) == item[i]
  {
    TrimIdempotent(part);
    if Trim(part) != "" then [Trim(part)] else []
  }

  /** An item holds a character only if some part does. */
  lemma {:induction false} NonEmptyStrippedAvoids(parts: seq<string>, c: char)
    requires forall i :: 0 <= i < |parts| ==> c !in parts[i]
    ensures forall i :: 0 <= i < |NonEmptyStripped(parts)| ==> c !in NonEmptyStripped(parts)[i]
    decreases |parts|
  {
    if parts != [] {
      var tail := parts[1..];
      assert forall i :: 0 <= i < |tail| ==> c !in tail[i] by {
        forall i | 0 <= i < |tail| ensures c !in tail[i] {
          assert tail[i] == parts[i + 1];
        }
      }
      NonEmptyStrippedAvoids(tail, c);
      StrippedItemAvoids(parts[0], c);
      AllAvoid(StrippedItem(parts[0]), NonEmptyStripped(tail), c);
    }
  }

  lemma StrippedItemAvoids(part: string, c: char)
    requires c !in part
    ensures forall i :: 0 <= i < |StrippedItem(part)| ==> c !in StrippedItem(part)[i]
  {
    TrimIsInfix(part);
  }

  lemma AllAvoid(xs: seq<string>, ys: seq<string>, c: char)
    requires forall i :: 0 <= i < |xs| ==> c !in xs[i]
    requires forall i :: 0 <= i < |ys| ==> c !in ys[i]
    ensures forall i :: 0 <= i < |xs + ys| ==> c !in (xs + ys)[i]
  {
  }

  lemma {:induction false} NonEmptyStrippedAppend(xs: seq<string>, ys: seq<string>)
    ensures NonEmptyStripped(xs + ys) == NonEmptyStripped(xs) + NonEmptyStripped(ys)
    decreases |xs|
  {
    if xs == [] {
      assert xs + ys == ys;
    } else {
      assert (xs + ys)[0] == xs[0];
      assert (xs + ys)[1..] == xs[1..] + ys;
      NonEmptyStrippedAppend(xs[1..], ys);
    }
  }

  /** Items that are already stripped and non-empty pass through unchanged. */
  lemma {:induction false} NonEmptyStrippedKeeps(items: seq<string>)
    requires forall i :: 0 <= i < |items| ==> items[i] != "" && Trim(items[i]) == items[i]
    ensures NonEmptyStripped(items) == items
    decreases |items|
  {
    if items != [] {
      NonEmptyStrippedKeeps(items[1..]);
      assert items == [items[0]] + items[1..];
    }
  }

  /** `s.rsplit(sep, 1)` unpacked into two names: fails (a ValueError in Python)
      when `sep` does not occur. */
  function RSplitOnce(s: string, sep: char): (r: Option<(string, string)>)
    ensures r.None? <==> sep !in s
    ensures r.Some? ==> r.value.0 + [sep] + r.value.1 == s && sep !in r.value.1
  {
    match LastIndexOf(s, sep)
    case None => None
    case Some(k) =>
      assert s == s[..k] + [sep] + s[k + 1..];
      Some((s[..k], s[k + 1..]))
  }

  /** rsplit splits at the last separator. */
  lemma RSplitOnceOf(x: string, y: string, sep: char)
    requires sep !in y
    ensures RSplitOnce(x + [sep] + y, sep) == Some((x, y))
  {
    var s := x + [sep] + y;
    assert s[|x|] == sep;
    assert s[..|x|] == x && s[|x| + 1..] == y;
  }

  /** Index of the first character satisfying `p`, or `|s|`. */
  function FirstWhere(s: string, p: char -> bool): (k: nat)
    ensures k <= |s|
    ensures k < |s| ==> p(s[k])
    ensures forall i :: 0 <= i < k ==> !p(s[i])
    decreases |s|
  {
    if s == [] || p(s[0]) then 0 else 1 + FirstWhere(s[1..], p)
  }

  /** Line splitting without keeping the terminators: a line ends at a boundary
      character, "\r\n" ending a single line; text after the last boundary is a
      line of its own; an empty text has no lines. */
  function LinesBy(t: string, isBreak: char -> bool): (lines: seq<string>)
    ensures forall i, j :: 0 <= i < |lines| && 0 <= j < |lines[i]| ==> !isBreak(lines[i][j])
    decreases |t|
  {
    if t == [] then []
    else
      var k := FirstWhere(t, isBreak);
      if k == |t| then [t]
      else
        var next := if t[k] == '\r' && k + 1 < |t| && t[k + 1] == '\n' then k + 2 else k + 1;
        [t[..k]] + LinesBy(t[next..], isBreak)
  }

  /** `text.splitlines()`. */
  function SplitLines(text: string): (lines: seq<string>)
    ensures forall i, j :: 0 <= i < |lines| && 0 <= j < |lines[i]| ==> !IsLineBoundary(lines[i][j])
  {
    LinesBy(text, IsLineBoundary)
  }

  /** The lines `for raw_line in f` yields for a file opened in text mode with
      universal newlines, each without its terminator. */
  function FileLines(content: string): (lines: seq<string>)
    ensures forall i, j :: 0 <= i < |lines| && 0 <= j < |lines[i]| ==> !IsNewline(lines[i][j])
  {
    LinesBy(content, IsNewline)
  }

  function Concat(lines: seq<string>): string
    decreases |lines|
  {
    if lines == [] then "" else lines[0] + Concat(lines[1..])
  }

  /** `s` without the characters satisfying `p`. */
  function Remove(s: string, p: char -> bool): string
    decreases |s|
  {
    if s == [] then "" else (if p(s[0]) then [] else [s[0]]) + Remove(s[1..], p)
  }

  lemma {:induction false} RemoveAppend(x: string, y: string, p: char -> bool)
    ensures Remove(x + y, p) == Remove(x, p) + Remove(y, p)
    decreases |x|
  {
    if x == [] {
      assert x + y == y;
    } else {
      assert (x + y)[1..] == x[1..] + y;
      RemoveAppend(x[1..], y, p);
    }
  }

  lemma {:induction false} RemoveNone(x: string, p: char -> bool)
    requires forall i :: 0 <= i < |x| ==> !p(x[i])
    ensures Remove(x, p) == x
    decreases |x|
  {
    if x != [] {
      RemoveNone(x[1..], p);
      assert x == [x[0]] + x[1..];
    }
  }

  lemma {:induction false} RemoveAll(x: string, p: char -> bool)
    requires forall i :: 0 <= i < |x| ==> p(x[i])
    ensures Remove(x, p) == ""
    decreases |x|
  {
    if x != [] {
      RemoveAll(x[1..], p);
    }
  }

  lemma ConcatCons(x: string, lines: seq<string>)
    ensures Concat([x] + lines) == x + Concat(lines)
  {
    assert ([x] + lines)[1..] == lines;
  }

  /** A line followed by its terminator loses just the terminator. */
  lemma RemoveLine(t: string, k: nat, next: nat, isBreak: char -> bool)
    requires k < next <= |t|
    requires forall i :: 0 <= i < k ==> !isBreak(t[i])
    requires forall i :: k <= i < next ==> isBreak(t[i])
    ensures Remove(t, isBreak) == t[..k] + Remove(t[next..], isBreak)
  {
    RemoveSplit(t, k, isBreak);
    RemoveNonePrefix(t, k, isBreak);
    RemoveSkip(t, k, next, isBreak);
  }

  lemma RemoveSplit(t: string, k: nat, p: char -> bool)
    requires k <= |t|
    ensures Remove(t, p) == Remove(t[..k], p) + Remove(t[k..], p)
  {
    Seqs.SplitAt(t, k);
    RemoveAppend(t[..k], t[k..], p);
  }

  lemma RemoveNonePrefix(t: string, k: nat, p: char -> bool)
    requires k <= |t|
    requires forall i :: 0 <= i < k ==> !p(t[i])
    ensures Remove(t[..k], p) == t[..k]
  {
    var line := t[..k];
    forall i | 0 <= i < |line| ensures !p(line[i]) {
      assert line[i] == t[i];
    }
    RemoveNone(line, p);
  }

  lemma {:induction false} RemoveSkip(t: string, k: nat, next: nat, p: char -> bool)
    requires k <= next <= |t|
    requires forall i :: k <= i < next ==> p(t[i])
    ensures Remove(t[k..], p) == Remove(t[next..], p)
    decreases next - k
  {
    if k < next {
      assert t[k..][0] == t[k] && t[k..][1..] == t[k + 1..];
      RemoveSkip(t, k + 1, next, p);
    }
  }

  /** Line splitting loses exactly the boundary characters: the lines, put back
      together, are the text with every boundary removed. */
  lemma {:induction false} LinesKeepContent(t: string, isBreak: char -> bool)
    requires isBreak('\r') && isBreak('\n')
    ensures Concat(LinesBy(t, isBreak)) == Remove(t, isBreak)
    decreases |t|
  {
    if t != [] {
      var k := FirstWhere(t, isBreak);
      if k == |t| {
        RemoveNone(t, isBreak);
        ConcatCons(t, []);
      } else {
        var next := if t[k] == '\r' && k + 1 < |t| && t[k + 1] == '\n' then k + 2 else k + 1;
        assert LinesBy(t, isBreak) == [t[..k]] + LinesBy(t[next..], isBreak);
        LinesKeepContent(t[next..], isBreak);
        ConcatCons(t[..k], LinesBy(t[next..], isBreak));
        RemoveTerminator(t, k, next, isBreak);
      }
    }
  }

  /** Removing the boundaries of a text whose first line ends at `k` with a
      terminator running to `next`. */
  lemma RemoveTerminator(t: string, k: nat, next: nat, isBreak: char -> bool)
    requires isBreak('\r') && isBreak('\n')
    requires k < |t| && isBreak(t[k])
    requires forall i :: 0 <= i < k ==> !isBreak(t[i])
    requires next == if t[k] == '\r' && k + 1 < |t| && t[k + 1] == '\n' then k + 2 else k + 1
    ensures Remove(t, isBreak) == t[..k] + Remove(t[next..], isBreak)
  {
    forall i | k <= i < next ensures isBreak(t[i]) {
      if i != k {
        assert i == k + 1 && next == k + 2;
        assert t[i] == '\n';
      }
    }
    RemoveLine(t, k, next, isBreak);
  }

  // ---------------------------------------------------------------------------
  // numbers

  /** `s.isdigit()`, restricted to the ASCII digits. */
  predicate IsDigits(s: string) {
    |s| > 0 && forall i :: 0 <= i < |s| ==> IsAsciiDigit(s[i])
  }

  function DigitValue(c: char): (d: nat)
    requires IsAsciiDigit(c)
    ensures d < 10
  {
    c as int - '0' as int
  }

  function DigitChar(d: nat): (c: char)
    requires d < 10
    ensures IsAsciiDigit(c) && DigitValue(c) == d
  {
    ('0' as int + d) as char
  }

  /** The decimal value of a string of ASCII digits, read left to right. */
  function DigitsValue(s: string): nat
    requires forall i :: 0 <= i < |s| ==> IsAsciiDigit(s[i])
    decreases |s|
  {
    if s == [] then 0 else DigitsValue(s[..|s| - 1]) * 10 + DigitValue(s[|s| - 1])
  }

  /** `str(n)` for a non-negative integer: a digit string that reads back as `n`. */
  function NatToDigits(n: nat): (s: string)
    ensures IsDigits(s)
    ensures DigitsValue(s) == n
    decreases n
  {
    if n < 10 then [DigitChar(n)]
    else
      var init := NatToDigits(n / 10);
      var s := init + [DigitChar(n % 10)];
      assert s[..|s| - 1] == init;
      s
  }

  function RemoveChar(s: string, c: char): (r: string)
    ensures c !in r
    ensures |r| <= |s|
    ensures c !in s ==> r == s
    decreases |s|
  {
    if s == [] then "" else (if s[0] == c then "" else [s[0]]) + RemoveChar(s[1..], c)
  }

  lemma {:induction false} RemoveCharKeepsDigits(s: string)
    requires forall i :: 0 <= i < |s| ==> IsAsciiDigit(s[i]) || s[i] == '_'
    ensures forall i :: 0 <= i < |RemoveChar(s, '_')| ==> IsAsciiDigit(RemoveChar(s, '_')[i])
    decreases |s|
  {
    if s != [] {
      RemoveCharKeepsDigits(s[1..]);
    }
  }

  predicate DoubleUnderscoreAt(s: string, i: int)
    requires 0 <= i < |s| - 1
  {
    s[i] == '_' && s[i + 1] == '_'
  }

  /** A base-10 literal as `int()` accepts it after the sign: digits, with single
      underscores allowed between two digits. */
  predicate IsNumeral(s: string) {
    && |s| > 0
    && IsAsciiDigit(s[0]) && IsAsciiDigit(s[|s| - 1])
    && (forall i :: 0 <= i < |s| ==> IsAsciiDigit(s[i]) || s[i] == '_')
    && (forall i :: 0 <= i < |s| - 1 ==> !DoubleUnderscoreAt(s, i))
  }

  function NumeralValue(s: string): nat
    requires IsNumeral(s)
  {
    RemoveCharKeepsDigits(s);
    DigitsValue(RemoveChar(s, '_'))
  }

  /** `int(s)`: Some(value) where Python returns a value, None where it raises
      ValueError.  Surrounding whitespace is ignored and a sign is allowed. */
  function PyInt(s: string): (r: Option<int>)
    ensures var t := Trim(s);
      && (r.Some? <==> IsNumeral(t) || IsSignedNumeral(t))
      && (IsNumeral(t) ==> r == Some(NumeralValue(t)))
      && (IsSignedNumeral(t) ==> r == Some(SignedValue(t)))
  {
    IntOfStripped(Trim(s))
  }

  /** A '+' or '-' sign followed by a numeral. */
  predicate IsSignedNumeral(t: string) {
    |t| > 1 && (t[0] == '+' || t[0] == '-') && IsNumeral(t[1..])
  }

  /** The value of a signed numeral. */
  function SignedValue(t: string): int
    requires IsSignedNumeral(t)
  {
    var v: int := NumeralValue(t[1..]);
    if t[0] == '-' then -v else v
  }

  /** `int()` once surrounding whitespace is gone: an optional sign, then a numeral. */
  function IntOfStripped(t: string): (r: Option<int>)
    ensures r.Some? <==> IsNumeral(t) || IsSignedNumeral(t)
    ensures IsNumeral(t) ==> r == Some(NumeralValue(t))
    ensures IsSignedNumeral(t) ==> r == Some(SignedValue(t))
  {
    var signed := |t| > 0 && (t[0] == '+' || t[0] == '-');
    var body := if signed then t[1..] else t;
    if !IsNumeral(body) then None
    else
      var v: int := NumeralValue(body);
      Some(if signed && t[0] == '-' then -v else v)
  }

  /** int() of a plain digit string is its decimal value. */
  lemma PyIntOfDigits(s: string)
    requires IsDigits(s)
    ensures PyInt(s) == Some(DigitsValue(s))
  {
    TrimOfTrimmed(s);
    IntOfDigits(s);
  }

  lemma IntOfDigits(s: string)
    requires IsDigits(s)
    ensures IntOfStripped(s) == Some(DigitsValue(s))
  {
    NumeralOfDigits(s);
    assert !(s[0] == '+' || s[0] == '-');
  }

  lemma NumeralOfDigits(s: string)
    requires IsDigits(s)
    ensures IsNumeral(s) && NumeralValue(s) == DigitsValue(s)
  {
    assert '_' !in s by {
      forall i | 0 <= i < |s| ensures s[i] != '_' { assert IsAsciiDigit(s[i]); }
    }
    assert RemoveChar(s, '_') == s;
  }

  // ---------------------------------------------------------------------------
  // case

  function LowerChar(c: char): char {
    if 'A' <= c <= 'Z' then (c as int - 'A' as int + 'a' as int) as char else c
  }

  /** `s.lower()` on the ASCII letters. */
  function AsciiLower(s: string): (r: string)
    ensures |r| == |s|
    ensures forall i :: 0 <= i < |s| ==> r[i] == LowerChar(s[i])
  {
    seq(|s|, i requires 0 <= i < |s| => LowerChar(s[i]))
  }
}
