/** The string operations the source uses, with the facts the codecs need: find, strip, split and join. */
module Text {
  import opened Common

  // ---- find ----------------------------------------------------------------------------------------

  predicate At(s: string, pattern: string, i: nat) {
    i + |pattern| <= |s| && s[i..i + |pattern|] == pattern
  }

  /** The first occurrence at or after `from`. */
  function Find(s: string, pattern: string, from: nat): (r: Option<nat>)
    ensures r.Some? ==> from <= r.value && At(s, pattern, r.value)
    ensures r.Some? ==> forall i :: from <= i < r.value ==> !At(s, pattern, i)
    ensures r.None? ==> forall i :: from <= i ==> !At(s, pattern, i)
    decreases |s| - from
  {
    if from + |pattern| > |s| then None
    else if At(s, pattern, from) then Some(from)
    else Find(s, pattern, from + 1)
  }

  lemma FindIs(s: string, pattern: string, from: nat, k: nat)
    requires from <= k && At(s, pattern, k)
    requires forall i :: from <= i < k ==> !At(s, pattern, i)
    ensures Find(s, pattern, from) == Some(k)
  {
    assert Find(s, pattern, from).Some?;
  }

  /** A pattern whose first character occurs nowhere else in it cannot straddle the start of another copy. */
  predicate FirstOnly(pattern: string) {
    pattern != "" && forall k :: 1 <= k < |pattern| ==> pattern[k] != pattern[0]
  }

  /** Where nothing in the prefix matches, the pattern behind it is the first match. */
  lemma FindAfterPrefix(pre: string, pattern: string, post: string, from: nat)
    requires FirstOnly(pattern) && from <= |pre| && forall i :: from <= i ==> !At(pre, pattern, i)
    ensures Find(pre + pattern + post, pattern, from) == Some(|pre|)
  {
    var s := pre + pattern + post;
    assert s[|pre|..|pre| + |pattern|] == pattern;
    forall i | from <= i < |pre| ensures !At(s, pattern, i) {
      if i + |pattern| <= |pre| {
        assert pre[i..i + |pattern|] == s[i..i + |pattern|];
        assert !At(pre, pattern, i);
      } else {
        assert s[i..i + |pattern|][|pre| - i] == s[|pre|] == pattern[0];
      }
    }
    FindIs(s, pattern, from, |pre|);
  }

  /** A match inside the prefix is found whatever follows. */
  lemma FindInPrefix(pre: string, post: string, pattern: string, from: nat, k: nat)
    requires from <= k && At(pre, pattern, k)
    ensures Find(pre + post, pattern, from) == Find(pre, pattern, from)
    ensures Find(pre, pattern, from).Some? && Find(pre, pattern, from).value <= k
  {
    var s, r := pre + post, Find(pre, pattern, from).value;
    assert s[r..r + |pattern|] == pre[r..r + |pattern|];
    forall i | from <= i < r ensures !At(s, pattern, i) {
      assert s[i..i + |pattern|] == pre[i..i + |pattern|];
      assert !At(pre, pattern, i);
    }
    FindIs(s, pattern, from, r);
  }

  /** After position k the pattern starts where its first character first appears. */
  lemma FindSkips(s: string, pattern: string, from: nat, k: nat)
    requires pattern != "" && from <= k && At(s, pattern, k)
    requires forall i :: from <= i < k ==> s[i] != pattern[0]
    ensures Find(s, pattern, from) == Some(k)
  {
    forall i | from <= i < k ensures !At(s, pattern, i) {
      if i + |pattern| <= |s| {
        assert s[i..i + |pattern|][0] == s[i];
      }
    }
    FindIs(s, pattern, from, k);
  }

  // ---- strip ---------------------------------------------------------------------------------------

  /** Python's str.isspace for one character. */
  predicate IsSpace(c: char) {
    c in {' ', '\t', '\n', '\r', '\U{0B}', '\U{0C}', '\U{1C}', '\U{1D}', '\U{1E}', '\U{1F}', '\U{85}', '\U{A0}',
          '\U{1680}', '\U{2028}', '\U{2029}', '\U{202F}', '\U{205F}', '\U{3000}'} ||
    '\U{2000}' <= c <= '\U{200A}'
  }

  predicate Blank(s: string) {
    forall i :: 0 <= i < |s| ==> IsSpace(s[i])
  }

  function StripLeft(s: string): string {
    if s != "" && IsSpace(s[0]) then StripLeft(s[1..]) else s
  }

  function StripRight(s: string): string {
    if s != "" && IsSpace(s[|s| - 1]) then StripRight(s[..|s| - 1]) else s
  }

  function Strip(s: string): string {
    StripRight(StripLeft(s))
  }

  lemma {:induction false} StripLeftGap(gap: string, s: string)
    requires Blank(gap)
    ensures StripLeft(gap + s) == StripLeft(s)
  {
    if gap == "" {
      assert gap + s == s;
    } else {
      assert (gap + s)[1..] == gap[1..] + s;
      StripLeftGap(gap[1..], s);
    }
  }

  lemma {:induction false} StripRightGap(s: string, gap: string)
    requires Blank(gap)
    ensures StripRight(s + gap) == StripRight(s)
    decreases |gap|
  {
    if gap == "" {
      assert s + gap == s;
    } else {
      assert (s + gap)[..|s + gap| - 1] == s + gap[..|gap| - 1];
      StripRightGap(s, gap[..|gap| - 1]);
    }
  }

  /** A text without blanks at its ends keeps itself and loses the blanks around it. */
  lemma StripGap(gap: string, s: string, end: string)
    requires Blank(gap) && Blank(end) && s != "" && !IsSpace(s[0]) && !IsSpace(s[|s| - 1])
    ensures Strip(gap + s + end) == s
  {
    assert gap + s + end == gap + (s + end);
    StripLeftGap(gap, s + end);
    StripRightGap(s, end);
  }

  lemma {:induction false} StripLeftKeepsEnd(s: string)
    requires s != "" && !IsSpace(s[|s| - 1])
    ensures StripLeft(s) != "" && StripLeft(s)[|StripLeft(s)| - 1] == s[|s| - 1]
  {
    if IsSpace(s[0]) {
      StripLeftKeepsEnd(s[1..]);
    }
  }

  /** A text that ends in a non-blank keeps its end. */
  lemma StripKeepsEnd(s: string)
    requires s != "" && !IsSpace(s[|s| - 1])
    ensures Strip(s) != "" && Strip(s)[|Strip(s)| - 1] == s[|s| - 1]
  {
    StripLeftKeepsEnd(s);
  }

  lemma {:induction false} StripNonBlank(s: string)
    ensures Strip(s) == "" <==> Blank(s)
  {
    StripLeftSuffix(s);
    StripRightPrefix(StripLeft(s));
  }

  lemma {:induction false} StripLeftSuffix(s: string)
    ensures StripLeft(s) == "" <==> Blank(s)
    ensures StripLeft(s) != "" ==> !IsSpace(StripLeft(s)[0])
  {
    if s != "" && IsSpace(s[0]) {
      StripLeftSuffix(s[1..]);
      assert Blank(s) <==> Blank(s[1..]) by {
        if Blank(s[1..]) {
          forall i | 0 <= i < |s| ensures IsSpace(s[i]) {
            if i > 0 {
              assert s[i] == s[1..][i - 1];
            }
          }
        }
      }
    }
  }

  lemma {:induction false} StripRightPrefix(s: string)
    requires s != "" ==> !IsSpace(s[0])
    ensures StripRight(s) == "" <==> s == ""
  {
    if s != "" && IsSpace(s[|s| - 1]) {
      StripRightPrefix(s[..|s| - 1]);
    }
  }

  /** How many characters precede the first blank. */
  function WordLength(s: string): (n: nat)
    ensures n <= |s| && (n < |s| ==> IsSpace(s[n])) && (s != "" && !IsSpace(s[0]) ==> n > 0)
  {
    if s == "" || IsSpace(s[0]) then 0 else 1 + WordLength(s[1..])
  }

  /** str.split without an argument: the maximal runs of non-blank characters. */
  function Words(s: string): seq<string> {
    if s == "" then []
    else if IsSpace(s[0]) then Words(s[1..])
    else [s[..WordLength(s)]] + Words(s[WordLength(s)..])
  }

  predicate IsWord(w: string) {
    w != "" && forall i :: 0 <= i < |w| ==> !IsSpace(w[i])
  }

  lemma {:induction false} WordLengthOf(w: string, rest: string)
    requires forall i :: 0 <= i < |w| ==> !IsSpace(w[i])
    requires rest == "" || IsSpace(rest[0])
    ensures WordLength(w + rest) == |w|
  {
    if w == "" {
      assert w + rest == rest;
    } else {
      assert (w + rest)[1..] == w[1..] + rest;
      WordLengthOf(w[1..], rest);
    }
  }

  lemma {:induction false} WordsGap(gap: string, s: string)
    requires Blank(gap)
    ensures Words(gap + s) == Words(s)
  {
    if gap == "" {
      assert gap + s == s;
    } else {
      assert (gap + s)[1..] == gap[1..] + s;
      WordsGap(gap[1..], s);
    }
  }

  lemma WordsStep(w: string, rest: string)
    requires IsWord(w) && (rest == "" || IsSpace(rest[0]))
    ensures Words(w + rest) == [w] + Words(rest)
  {
    WordLengthOf(w, rest);
    assert (w + rest)[..|w|] == w && (w + rest)[|w|..] == rest;
  }

  lemma NoWords()
    ensures Words("") == []
  {
  }

  /** Words that are joined by blanks are split back, whatever blanks surround them. */
  lemma {:induction false} WordsOfJoined(gap: string, sep: string, words: seq<string>, end: string)
    requires Blank(gap) && Blank(sep) && sep != "" && Blank(end) && forall i :: 0 <= i < |words| ==> IsWord(words[i])
    ensures Words(gap + JoinOn(sep, words) + end) == words
    decreases |words|
  {
    hide Words;
    assert Words("") == [] by { NoWords(); }
    if words == [] {
      WordsGap(gap + end, "");
      assert gap + JoinOn(sep, words) + end == gap + end + "";
    } else if |words| == 1 {
      assert gap + JoinOn(sep, words) + end == gap + (words[0] + end);
      WordsGap(gap, words[0] + end);
      WordsStep(words[0], end);
      WordsGap(end, "");
      assert end + "" == end;
    } else {
      var rest := sep + JoinOn(sep, words[1..]) + end;
      JoinedFront(gap, sep, words, end);
      WordsGap(gap, words[0] + rest);
      WordsStep(words[0], rest);
      WordsOfJoined(sep, sep, words[1..], end);
    }
  }

  lemma JoinedFront(gap: string, sep: string, words: seq<string>, end: string)
    requires |words| > 1
    ensures gap + JoinOn(sep, words) + end == gap + (words[0] + (sep + JoinOn(sep, words[1..]) + end))
  {
  }

  /** Every piece that is split off is a word. */
  lemma {:induction false} WordsAreWords(s: string)
    ensures forall i :: 0 <= i < |Words(s)| ==> IsWord(Words(s)[i])
    decreases |s|
  {
    if s != "" {
      if IsSpace(s[0]) {
        WordsAreWords(s[1..]);
      } else {
        WordLengthIsWord(s);
        WordsAreWords(s[WordLength(s)..]);
      }
    }
  }

  lemma {:induction false} WordLengthIsWord(s: string)
    ensures forall i :: 0 <= i < WordLength(s) ==> !IsSpace(s[i])
  {
    if s != "" && !IsSpace(s[0]) {
      WordLengthIsWord(s[1..]);
      assert forall i :: 0 < i < WordLength(s) ==> s[i] == s[1..][i - 1];
    }
  }

  // ---- split and join ------------------------------------------------------------------------------

  function SplitOn(sep: char, s: string): (parts: seq<string>)
    ensures parts != []
  {
    if s == "" then [""]
    else if s[0] == sep then [""] + SplitOn(sep, s[1..])
    else
      var rest := SplitOn(sep, s[1..]);
      [[s[0]] + rest[0]] + rest[1..]
  }

  function JoinOn(sep: string, parts: seq<string>): string {
    if parts == [] then ""
    else if |parts| == 1 then parts[0]
    else parts[0] + sep + JoinOn(sep, parts[1..])
  }

  lemma {:induction false} JoinAppend(sep: string, parts: seq<string>, last: string)
    requires parts != []
    ensures JoinOn(sep, parts + [last]) == JoinOn(sep, parts) + sep + last
  {
    if |parts| == 1 {
      assert (parts + [last])[1..] == [last];
    } else {
      assert (parts + [last])[1..] == parts[1..] + [last];
      JoinAppend(sep, parts[1..], last);
    }
  }

  lemma {:induction false} SplitNoSep(sep: char, s: string)
    requires sep !in s
    ensures SplitOn(sep, s) == [s]
  {
    if s != "" {
      SplitNoSep(sep, s[1..]);
      assert [s[0]] + s[1..] == s;
    }
  }

  /** Splitting a concatenation at a separator splits both halves. */
  lemma {:induction false} SplitConcat(sep: char, a: string, b: string)
    ensures SplitOn(sep, a + [sep] + b) == SplitOn(sep, a) + SplitOn(sep, b)
  {
    if a == "" {
      assert a + [sep] + b == [sep] + b;
      assert ([sep] + b)[1..] == b;
    } else {
      assert (a + [sep] + b)[1..] == a[1..] + [sep] + b;
      SplitConcat(sep, a[1..], b);
    }
  }

  /** Joining undoes splitting. */
  lemma {:induction false} JoinSplit(sep: char, s: string)
    ensures JoinOn([sep], SplitOn(sep, s)) == s
  {
    if s != "" {
      JoinSplit(sep, s[1..]);
      var rest := SplitOn(sep, s[1..]);
      var parts := SplitOn(sep, s);
      if s[0] == sep {
        assert parts[1..] == rest;
      } else {
        assert parts[1..] == rest[1..];
        if |rest| == 1 {
          assert [s[0]] + rest[0] == s;
        } else {
          assert rest[0] + [sep] + JoinOn([sep], rest[1..]) == s[1..];
          assert ([s[0]] + rest[0]) + [sep] + JoinOn([sep], rest[1..]) ==
            [s[0]] + (rest[0] + [sep] + JoinOn([sep], rest[1..]));
        }
      }
    }
  }

  function Flatten(sep: char, parts: seq<string>): seq<string> {
    if parts == [] then [] else SplitOn(sep, parts[0]) + Flatten(sep, parts[1..])
  }

  lemma {:induction false} SplitJoin(sep: char, parts: seq<string>)
    requires parts != []
    ensures SplitOn(sep, JoinOn([sep], parts)) == Flatten(sep, parts)
  {
    if |parts| == 1 {
      assert Flatten(sep, parts[1..]) == [];
    } else {
      SplitConcat(sep, parts[0], JoinOn([sep], parts[1..]));
      SplitJoin(sep, parts[1..]);
    }
  }

  /** Two joined texts are equal exactly when their parts split alike. */
  lemma {:induction false} JoinEqualIff(sep: char, a: seq<string>, b: seq<string>)
    requires a != [] && b != []
    ensures JoinOn([sep], a) == JoinOn([sep], b) <==> Flatten(sep, a) == Flatten(sep, b)
  {
    SplitJoin(sep, a);
    SplitJoin(sep, b);
    JoinSplit(sep, JoinOn([sep], a));
    JoinSplit(sep, JoinOn([sep], b));
  }

  lemma {:induction false} FlattenPlain(sep: char, parts: seq<string>)
    requires forall i :: 0 <= i < |parts| ==> sep !in parts[i]
    ensures Flatten(sep, parts) == parts
  {
    if parts != [] {
      SplitNoSep(sep, parts[0]);
      FlattenPlain(sep, parts[1..]);
    }
  }

  // ---- decimal numerals ----------------------------------------------------------------------------

  function Digit(d: nat): char
    requires d < 10
  {
    ('0' as int + d) as char
  }

  lemma DigitIsInjective(a: nat, b: nat)
    requires a < 10 && b < 10 && Digit(a) == Digit(b)
    ensures a == b
  {
  }

  function NatDecimal(n: nat): string {
    if n < 10 then [Digit(n)] else NatDecimal(n / 10) + [Digit(n % 10)]
  }

  /** str of an int. */
  function Decimal(n: int): string {
    if n < 0 then "-" + NatDecimal(-n) else NatDecimal(n)
  }

  predicate IsDigit(c: char) {
    '0' <= c <= '9'
  }

  predicate AllDigits(s: string) {
    forall i :: 0 <= i < |s| ==> IsDigit(s[i])
  }

  lemma {:induction false} NatDecimalDigits(n: nat)
    ensures AllDigits(NatDecimal(n))
    ensures if n < 10 then |NatDecimal(n)| == 1 else |NatDecimal(n)| > 1
  {
    if n >= 10 {
      NatDecimalDigits(n / 10);
    }
  }

  /** The number a string of digits stands for. */
  function Value(s: string): int {
    if s == "" then 0 else 10 * Value(s[..|s| - 1]) + (s[|s| - 1] as int - '0' as int)
  }

  lemma {:induction false} ValueOfDecimal(n: nat)
    ensures Value(NatDecimal(n)) == n
  {
    if n >= 10 {
      ValueOfDecimal(n / 10);
      assert NatDecimal(n)[..|NatDecimal(n)| - 1] == NatDecimal(n / 10);
    } else {
      assert NatDecimal(n)[..0] == "";
    }
  }

  /** The `:04d` format. */
  function Padded(s: string): string
    decreases 4 - |s|
  {
    if |s| >= 4 then s else Padded("0" + s)
  }

  lemma {:induction false} PaddedLength(s: string)
    ensures |Padded(s)| == if |s| < 4 then 4 else |s|
    decreases 4 - |s|
  {
    if |s| < 4 {
      PaddedLength("0" + s);
    }
  }

  lemma ShortDecimal(n: nat)
    requires n < 10000
    ensures |NatDecimal(n)| <= 4
  {
    var a, b, c := n / 10, n / 10 / 10, n / 10 / 10 / 10;
    assert a < 1000 && b < 100 && c < 10;
    assert |NatDecimal(c)| == 1 && |NatDecimal(b)| <= 2 && |NatDecimal(a)| <= 3;
  }

  lemma {:induction false} ValueIgnoresZero(s: string)
    ensures Value("0" + s) == Value(s)
  {
    if s == "" {
      assert ("0" + s)[..0] == "";
    } else {
      ValueIgnoresZero(s[..|s| - 1]);
      assert ("0" + s)[..|s|] == "0" + s[..|s| - 1];
    }
  }

  lemma {:induction false} ValueOfPadded(s: string)
    ensures Value(Padded(s)) == Value(s)
    decreases 4 - |s|
  {
    if |s| < 4 {
      ValueIgnoresZero(s);
      ValueOfPadded("0" + s);
    }
  }

  lemma DecimalSign(n: int)
    ensures Decimal(n) != "" && (n < 0 <==> Decimal(n)[0] == '-')
  {
    NatDecimalDigits(if n < 0 then -n else n);
  }

  /** Decimal numerals are injective. */
  lemma DecimalInjective(a: int, b: int)
    ensures Decimal(a) == Decimal(b) <==> a == b
  {
    var x, y := if a < 0 then -a else a, if b < 0 then -b else b;
    DecimalSign(a);
    DecimalSign(b);
    ValueOfDecimal(x);
    ValueOfDecimal(y);
    if Decimal(a) == Decimal(b) {
      assert a < 0 <==> b < 0;
      assert a < 0 ==> Decimal(a)[1..] == NatDecimal(x) && Decimal(b)[1..] == NatDecimal(y);
    }
  }

  lemma DecimalHasNo(n: int, c: char)
    requires !IsDigit(c) && c != '-'
    ensures c !in Decimal(n)
  {
    NatDecimalDigits(if n < 0 then -n else n);
  }
}
