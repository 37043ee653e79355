/** The few Python string and list operations the image tools rely on,
    written out so that the rest of the model can state what they return. */
module Text {

  datatype Option<T> = None | Some(value: T)

  /** The characters Python's str.isspace() accepts, which str.split() uses as separators. */
  predicate IsSpace(ch: char) {
    var c := ch as int;
    (9 <= c <= 13) || (28 <= c <= 32) || c == 0x85 || c == 0xA0 || c == 0x1680
    || (0x2000 <= c <= 0x200A) || c == 0x2028 || c == 0x2029 || c == 0x202F
    || c == 0x205F || c == 0x3000
  }

  predicate NoSpace(t: string) {
    forall k :: 0 <= k < |t| ==> !IsSpace(t[k])
  }

  /** Length of the run of non-space characters that starts the string. */
  function WordLength(s: string): (n: nat)
    ensures n <= |s|
    ensures NoSpace(s[..n])
    ensures n < |s| ==> IsSpace(s[n])
  {
    if s == [] || IsSpace(s[0]) then 0
    else
      var n := 1 + WordLength(s[1..]);
      assert s[..n] == [s[0]] + s[1..][..n - 1];
      n
  }

  /** str.split() without arguments: the maximal runs of non-space characters, in order. */
  function Split(s: string): (words: seq<string>)
    ensures forall k :: 0 <= k < |words| ==> words[k] != [] && NoSpace(words[k])
    decreases |s|
  {
    if s == [] then []
    else if IsSpace(s[0]) then Split(s[1..])
    else
      var n := WordLength(s);
      [s[..n]] + Split(s[n..])
  }

  lemma {:induction false} WordLengthOfWord(t: string, rest: string)
    requires NoSpace(t)
    requires rest == [] || IsSpace(rest[0])
    ensures WordLength(t + rest) == |t|
    decreases |t|
  {
    if t != [] {
      assert (t + rest)[1..] == t[1..] + rest;
      WordLengthOfWord(t[1..], rest);
    }
  }

  /** A word followed by a separator (or by nothing) is the first thing str.split() returns. */
  lemma SplitWord(t: string, rest: string)
    requires t != [] && NoSpace(t)
    requires rest == [] || IsSpace(rest[0])
    ensures Split(t + rest) == [t] + Split(rest)
  {
    WordLengthOfWord(t, rest);
    assert (t + rest)[..|t|] == t;
    assert (t + rest)[|t|..] == rest;
  }

  predicate IsDigit(ch: char) {
    '0' <= ch <= '9'
  }

  /** A token that int() reads as a plain decimal number. */
  predicate IsDecimal(t: string) {
    |t| > 0 && forall k :: 0 <= k < |t| ==> IsDigit(t[k])
  }

  /** The number a string of decimal digits denotes. */
  function DecimalValue(t: string): nat
    requires forall k :: 0 <= k < |t| ==> IsDigit(t[k])
  {
    if t == [] then 0
    else DecimalValue(t[..|t| - 1]) * 10 + DigitValue(t[|t| - 1])
  }

  function DigitValue(ch: char): (d: nat)
    requires IsDigit(ch)
    ensures d < 10
  {
    ch as int - '0' as int
  }

  function DigitChar(d: nat): (ch: char)
    requires d < 10
    ensures IsDigit(ch) && DigitValue(ch) == d
  {
    (d + '0' as int) as char
  }

  /** str(n) for a natural number n. */
  function Decimal(n: nat): (t: string)
    ensures IsDecimal(t) && NoSpace(t)
  {
    if n < 10 then [DigitChar(n)] else Decimal(n / 10) + [DigitChar(n % 10)]
  }

  /** int(str(n)) == n. */
  lemma {:induction false} DecimalRoundTrip(n: nat)
    ensures DecimalValue(Decimal(n)) == n
  {
    var t := Decimal(n);
    if n >= 10 {
      assert t[..|t| - 1] == Decimal(n / 10);
      DecimalRoundTrip(n / 10);
    }
  }

  /** int(line.split()[0]), int(line.split()[1]) when both tokens are decimal numbers. */
  function TwoNumbers(line: string): Option<(nat, nat)> {
    var words := Split(line);
    if |words| >= 2 && IsDecimal(words[0]) && IsDecimal(words[1])
    then Some((DecimalValue(words[0]), DecimalValue(words[1])))
    else None
  }

  /** A line written as "<a> <b>" followed by a line break reads back as the pair (a, b). */
  lemma TwoNumbersRoundTrip(a: nat, b: nat)
    ensures TwoNumbers(Decimal(a) + " " + Decimal(b) + "\n") == Some((a, b))
  {
    SplitPair(Decimal(a), Decimal(b));
    DecimalRoundTrip(a);
    DecimalRoundTrip(b);
  }

  /** Two words separated by a space and followed by a line break split into those two words. */
  lemma SplitPair(ta: string, tb: string)
    requires ta != [] && NoSpace(ta) && tb != [] && NoSpace(tb)
    ensures Split(ta + " " + tb + "\n") == [ta, tb]
  {
    var rest := " " + tb + "\n";
    assert ta + " " + tb + "\n" == ta + rest;
    SplitWord(ta, rest);
    SplitLastWord(tb);
  }

  /** " <word>\n" splits into the word alone. */
  lemma SplitLastWord(tb: string)
    requires tb != [] && NoSpace(tb)
    ensures Split(" " + tb + "\n") == [tb]
  {
    var rest := " " + tb + "\n";
    assert rest[1..] == tb + "\n";
    SplitWord(tb, "\n");
    assert Split("\n") == [];
  }

  /** str.strip('\n'): every leading and trailing line feed removed. */
  function StripNewlines(s: string): (r: string)
    ensures r == [] || (r[0] != '\n' && r[|r| - 1] != '\n')
    decreases |s|
  {
    if |s| > 0 && s[0] == '\n' then StripNewlines(s[1..])
    else if |s| > 0 && s[|s| - 1] == '\n' then StripNewlines(s[..|s| - 1])
    else s
  }

  lemma {:induction false} WordLengthAppendSpace(s: string, ch: char)
    requires IsSpace(ch)
    ensures WordLength(s + [ch]) == WordLength(s)
  {
    if s != [] && !IsSpace(s[0]) {
      assert (s + [ch])[1..] == s[1..] + [ch];
      WordLengthAppendSpace(s[1..], ch);
    }
  }

  /** A trailing separator adds no word. */
  lemma {:induction false} SplitAppendSpace(s: string, ch: char)
    requires IsSpace(ch)
    ensures Split(s + [ch]) == Split(s)
    decreases |s|
  {
    if s == [] {
      assert [] + [ch] == [ch];
      assert Split([ch]) == Split([ch][1..]);
    } else if IsSpace(s[0]) {
      assert (s + [ch])[1..] == s[1..] + [ch];
      SplitAppendSpace(s[1..], ch);
    } else {
      var n := WordLength(s);
      WordLengthAppendSpace(s, ch);
      assert (s + [ch])[..n] == s[..n];
      assert (s + [ch])[n..] == s[n..] + [ch];
      SplitAppendSpace(s[n..], ch);
    }
  }

  /** Stripping line feeds does not change what str.split() returns. */
  lemma {:induction false} SplitStripNewlines(s: string)
    ensures Split(StripNewlines(s)) == Split(s)
    decreases |s|
  {
    if |s| > 0 && s[0] == '\n' {
      SplitStripNewlines(s[1..]);
    } else if |s| > 0 && s[|s| - 1] == '\n' {
      SplitStripNewlines(s[..|s| - 1]);
      assert s == s[..|s| - 1] + ['\n'];
      SplitAppendSpace(s[..|s| - 1], '\n');
    }
  }

  /** ''.join(parts). */
  function Join(parts: seq<string>): string {
    if parts == [] then [] else parts[0] + Join(parts[1..])
  }

  lemma {:induction false} JoinAppend(a: seq<string>, b: seq<string>)
    ensures Join(a + b) == Join(a) + Join(b)
  {
    if a != [] {
      assert (a + b)[1..] == a[1..] + b;
      JoinAppend(a[1..], b);
    } else {
      assert a + b == b;
    }
  }

  lemma JoinThree(a: string, b: string, c: string)
    ensures Join([a, b, c]) == a + b + c
  {
    assert [a, b, c][1..] == [b, c];
    assert [b, c][1..] == [c];
    assert Join([c]) == c + Join([]);
  }

  /** Python's s[lo:hi] for non-negative bounds: out-of-range bounds are clamped. */
  function Slice<T>(s: seq<T>, lo: nat, hi: nat): (r: seq<T>)
    ensures lo <= hi <= |s| ==> r == s[lo..hi]
  {
    var a := if lo < |s| then lo else |s|;
    var b := if hi < |s| then hi else |s|;
    if a <= b then s[a..b] else []
  }

  /** str.rfind(ch): the last index holding ch, or -1. */
  function LastIndex(s: string, ch: char): (r: int)
    ensures -1 <= r < |s|
    ensures r >= 0 ==> s[r] == ch
    ensures forall k :: r < k < |s| ==> s[k] != ch
  {
    if s == [] then -1
    else if s[|s| - 1] == ch then |s| - 1
    else LastIndex(s[..|s| - 1], ch)
  }

  /** path.split(os.pathsep).pop() on Windows, where os.pathsep is ';'. */
  function AfterLastPathSep(path: string): string {
    path[LastIndex(path, ';') + 1..]
  }

  /** os.path.splitext(p)[1] on Windows: the text from the last '.' on, provided that
      '.' lies after the last '\' or '/' and something other than dots precedes it in
      the file name; otherwise the empty string. */
  function Extension(p: string): string {
    var back := LastIndex(p, '\\');
    var fwd := LastIndex(p, '/');
    var sep := if back < fwd then fwd else back;
    var dot := LastIndex(p, '.');
    if sep < dot && exists k :: sep + 1 <= k < dot && p[k] != '.' then p[dot..] else []
  }
}
