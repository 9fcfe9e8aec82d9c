/**
 * The parts of Go's `strings` and `fmt` packages the pipeline relies on,
 * over strings of Unicode code points: Fields, Split, Join, TrimSpace,
 * TrimPrefix, TrimSuffix, Index, LastIndex, Contains, Replace (once) and
 * the `%d` verb.
 */
module Text {

  /** Go's unicode.IsSpace: the characters with the Unicode White_Space property. */
  predicate IsSpace(c: char) {
    || c == '\t' || c == '\n' || c == '\U{B}' || c == '\U{C}' || c == '\r' || c == ' '
    || c == '\U{85}' || c == '\U{A0}' || c == '\U{1680}'
    || ('\U{2000}' <= c <= '\U{200A}')
    || c == '\U{2028}' || c == '\U{2029}' || c == '\U{202F}' || c == '\U{205F}' || c == '\U{3000}'
  }

  /** A field as strings.Fields produces it: a non-empty run of non-space characters. */
  ghost predicate IsWord(w: string) {
    w != [] && forall i :: 0 <= i < |w| ==> !IsSpace(w[i])
  }

  // ---------------------------------------------------------------------------
  // strings.Fields and strings.Join

  /** The length of the run of non-space characters that starts s. */
  function WordLength(s: string): (n: nat)
    ensures n <= |s|
    ensures forall i :: 0 <= i < n ==> !IsSpace(s[i])
    ensures n < |s| ==> IsSpace(s[n])
  {
    if s == [] || IsSpace(s[0]) then 0 else 1 + WordLength(s[1..])
  }

  /** strings.Fields: the maximal runs of non-space characters, in order. */
  function Fields(s: string): (words: seq<string>)
    ensures forall i :: 0 <= i < |words| ==> IsWord(words[i])
    decreases |s|
  {
    if s == [] then []
    else if IsSpace(s[0]) then Fields(s[1..])
    else
      var n := WordLength(s);
      [s[..n]] + Fields(s[n..])
  }

  /** strings.Join: the parts with sep between neighbours. */
  function Join(parts: seq<string>, sep: string): string
  {
    if parts == [] then ""
    else if |parts| == 1 then parts[0]
    else parts[0] + sep + Join(parts[1..], sep)
  }

  /** A word followed by nothing or by a space is the first field. */
  lemma {:induction false} FieldsAfterWord(w: string, t: string)
    requires IsWord(w)
    requires t == [] || IsSpace(t[0])
    ensures Fields(w + t) == [w] + Fields(t)
  {
    WordLengthOfWord(w, t);
    var s := w + t;
    assert s[..|w|] == w && s[|w|..] == t;
  }

  /** Leading white space is skipped: with FieldsAfterWord this fixes the fields of any text. */
  lemma FieldsSkipsSpace(c: char, t: string)
    requires IsSpace(c)
    ensures Fields([c] + t) == Fields(t)
  {
    assert ([c] + t)[1..] == t;
  }

  lemma {:induction false} WordLengthOfWord(w: string, t: string)
    requires forall i :: 0 <= i < |w| ==> !IsSpace(w[i])
    requires t == [] || IsSpace(t[0])
    ensures WordLength(w + t) == |w|
    decreases |w|
  {
    if w == [] {
      assert w + t == t;
    } else {
      assert (w + t)[1..] == w[1..] + t;
      WordLengthOfWord(w[1..], t);
    }
  }

  /** Joining words with single spaces and splitting the result into fields gives the words back. */
  lemma {:induction false} FieldsOfJoin(words: seq<string>)
    requires forall i :: 0 <= i < |words| ==> IsWord(words[i])
    ensures Fields(Join(words, " ")) == words
  {
    if words == [] {
    } else if |words| == 1 {
      FieldsAfterWord(words[0], "");
      assert words[0] + "" == words[0];
    } else {
      var rest := Join(words[1..], " ");
      FieldsOfJoin(words[1..]);
      FieldsAfterWord(words[0], " " + rest);
      assert words[0] + " " + rest == words[0] + (" " + rest);
      assert (" " + rest)[1..] == rest;
      assert words == [words[0]] + words[1..];
    }
  }

  // ---------------------------------------------------------------------------
  // strings.Split on one separator character

  /** strings.Split(s, sep): the pieces between separators; never empty ("" splits into [""]). */
  function Split(s: string, sep: char): (parts: seq<string>)
    ensures |parts| >= 1
    ensures forall i :: 0 <= i < |parts| ==> sep !in parts[i]
    decreases |s|
  {
    if s == [] then [""]
    else
      var rest := Split(s[1..], sep);
      if s[0] == sep then [""] + rest else [[s[0]] + rest[0]] + rest[1..]
  }

  /** Join seen from its first part. */
  lemma JoinCons(p: string, rest: seq<string>, sep: string)
    ensures Join([p] + rest, sep) == if rest == [] then p else p + sep + Join(rest, sep)
  {
    assert ([p] + rest)[1..] == rest;
  }

  /** Rejoining the pieces of a split with the separator gives back the string. */
  lemma {:induction false} JoinSplit(s: string, sep: char)
    ensures Join(Split(s, sep), [sep]) == s
    decreases |s|
  {
    if s != [] {
      var rest := Split(s[1..], sep);
      JoinSplit(s[1..], sep);
      if s[0] == sep {
        JoinCons("", rest, [sep]);
        assert s == [sep] + s[1..];
      } else {
        JoinCons([s[0]] + rest[0], rest[1..], [sep]);
        JoinCons(rest[0], rest[1..], [sep]);
        assert rest == [rest[0]] + rest[1..];
        assert s == [s[0]] + s[1..];
      }
    }
  }

  /** A string without the separator is a single piece. */
  lemma {:induction false} SplitWithoutSep(s: string, sep: char)
    requires sep !in s
    ensures Split(s, sep) == [s]
    decreases |s|
  {
    if s != [] {
      SplitWithoutSep(s[1..], sep);
      assert s == [s[0]] + s[1..];
    }
  }

  /** Splitting at a separator splits the pieces. */
  lemma {:induction false} SplitAtSep(a: string, b: string, sep: char)
    ensures Split(a + [sep] + b, sep) == Split(a, sep) + Split(b, sep)
    decreases |a|
  {
    var s := a + [sep] + b;
    if a == [] {
      assert s == [sep] + b;
      assert s[1..] == b;
    } else {
      assert s[1..] == a[1..] + [sep] + b;
      SplitAtSep(a[1..], b, sep);
    }
  }

  /** Where the i-th part starts in Join(lines, [sep]). */
  function LineStart(lines: seq<string>, i: nat): nat
    requires i <= |lines|
    decreases i
  {
    if i == 0 then 0 else |lines[0]| + 1 + LineStart(lines[1..], i - 1)
  }

  /** The i-th part sits at LineStart(lines, i) and, unless it is the last, is followed by the separator. */
  lemma {:induction false} JoinLineAt(lines: seq<string>, sep: char, i: nat)
    requires i < |lines|
    ensures LineStart(lines, i) + |lines[i]| <= |Join(lines, [sep])|
    ensures Join(lines, [sep])[LineStart(lines, i)..LineStart(lines, i) + |lines[i]|] == lines[i]
    ensures i + 1 < |lines| ==> LineStart(lines, i) + |lines[i]| < |Join(lines, [sep])|
    ensures i + 1 < |lines| ==> Join(lines, [sep])[LineStart(lines, i) + |lines[i]|] == sep
    decreases i
  {
    var j := Join(lines, [sep]);
    if |lines| == 1 {
    } else {
      var rest := Join(lines[1..], [sep]);
      assert j == lines[0] + [sep] + rest;
      if i > 0 {
        JoinLineAt(lines[1..], sep, i - 1);
        var k := LineStart(lines[1..], i - 1);
        assert j[|lines[0]| + 1 + k..|lines[0]| + 1 + k + |lines[i]|] == rest[k..k + |lines[i]|];
      }
    }
  }

  // ---------------------------------------------------------------------------
  // strings.TrimSpace, TrimPrefix, TrimSuffix

  /** How many white-space characters start s. */
  function LeadingSpaces(s: string): (n: nat)
    ensures n <= |s|
    ensures forall i :: 0 <= i < n ==> IsSpace(s[i])
    ensures n < |s| ==> !IsSpace(s[n])
  {
    if s != [] && IsSpace(s[0]) then 1 + LeadingSpaces(s[1..]) else 0
  }

  /** How many white-space characters end s. */
  function TrailingSpaces(s: string): (n: nat)
    ensures n <= |s|
    ensures forall i :: |s| - n <= i < |s| ==> IsSpace(s[i])
    ensures n < |s| ==> !IsSpace(s[|s| - n - 1])
  {
    if s != [] && IsSpace(s[|s| - 1]) then 1 + TrailingSpaces(s[..|s| - 1]) else 0
  }

  /** strings.TrimSpace: s without its leading and trailing white space. */
  function TrimSpace(s: string): (r: string)
    ensures r == [] || (!IsSpace(r[0]) && !IsSpace(r[|r| - 1]))
  {
    var t := s[LeadingSpaces(s)..];
    t[..|t| - TrailingSpaces(t)]
  }

  /** strings.TrimPrefix. */
  function TrimPrefix(s: string, prefix: string): (r: string)
    ensures prefix <= s ==> prefix + r == s
  {
    if prefix <= s then s[|prefix|..] else s
  }

  /** Whether s ends with suffix (strings.HasSuffix). */
  predicate HasSuffix(s: string, suffix: string)
  {
    |suffix| <= |s| && s[|s| - |suffix|..] == suffix
  }

  /** strings.TrimSuffix. */
  function TrimSuffix(s: string, suffix: string): (r: string)
    ensures HasSuffix(s, suffix) ==> r + suffix == s
  {
    if HasSuffix(s, suffix) then s[..|s| - |suffix|] else s
  }

  // ---------------------------------------------------------------------------
  // strings.Index, strings.LastIndex, strings.Contains, strings.Replace(.., 1)

  /** strings.Index with a one-character pattern: the first position of c, or -1. */
  function IndexOfChar(s: string, c: char): (r: int)
    ensures -1 <= r < |s|
    ensures r == -1 <==> c !in s
    ensures r >= 0 ==> s[r] == c
    ensures forall k :: 0 <= k < |s| && (r < 0 || k < r) ==> s[k] != c
  {
    if s == [] then -1
    else if s[0] == c then 0
    else
      var k := IndexOfChar(s[1..], c);
      assert s == [s[0]] + s[1..];
      if k < 0 then -1 else k + 1
  }

  /** strings.LastIndex with a one-character pattern: the last position of c, or -1. */
  function LastIndexOfChar(s: string, c: char): (r: int)
    ensures -1 <= r < |s|
    ensures r == -1 <==> c !in s
    ensures r >= 0 ==> s[r] == c
    ensures forall k :: r < k < |s| ==> s[k] != c
  {
    if s == [] then -1
    else if s[|s| - 1] == c then |s| - 1
    else
      assert s == s[..|s| - 1] + [s[|s| - 1]];
      LastIndexOfChar(s[..|s| - 1], c)
  }

  /** pat occurs in s starting at position i. */
  predicate OccursAt(s: string, pat: string, i: int)
  {
    0 <= i && i + |pat| <= |s| && s[i..i + |pat|] == pat
  }

  /** strings.Index: the first position where pat occurs in s, or -1. */
  function Index(s: string, pat: string): (r: int)
    ensures -1 <= r <= |s|
    ensures r >= 0 ==> OccursAt(s, pat, r)
    ensures forall i :: 0 <= i < (if r < 0 then |s| + 1 else r) ==> !OccursAt(s, pat, i)
    decreases |s|
  {
    if |pat| > |s| then -1
    else if s[..|pat|] == pat then 0
    else
      var k := Index(s[1..], pat);
      assert forall i :: 1 <= i <= |s| && OccursAt(s, pat, i) ==> OccursAt(s[1..], pat, i - 1) by {
        forall i | 1 <= i <= |s| && OccursAt(s, pat, i) ensures OccursAt(s[1..], pat, i - 1) {
          assert s[1..][i - 1..i - 1 + |pat|] == s[i..i + |pat|];
        }
      }
      if k < 0 then -1
      else
        assert s[1..][k..k + |pat|] == s[k + 1..k + 1 + |pat|];
        k + 1
  }

  /** strings.Contains. */
  predicate Contains(s: string, pat: string)
  {
    Index(s, pat) >= 0
  }

  /** strings.Replace(s, pat, repl, 1): the first occurrence of pat replaced by repl. */
  function ReplaceFirst(s: string, pat: string, repl: string): string
  {
    var i := Index(s, pat);
    if i < 0 then s else s[..i] + repl + s[i + |pat|..]
  }

  // ---------------------------------------------------------------------------
  // The %d verb of fmt

  predicate IsDigit(c: char) {
    '0' <= c <= '9'
  }

  function DigitChar(d: nat): (c: char)
    requires d < 10
    ensures IsDigit(c) && c as int - '0' as int == d
  {
    ('0' as int + d) as char
  }

  /** %d of a non-negative integer: its decimal digits, most significant first. */
  function NatToString(n: nat): (s: string)
    ensures s != []
    ensures forall i :: 0 <= i < |s| ==> IsDigit(s[i])
    decreases n
  {
    if n < 10 then [DigitChar(n)] else NatToString(n / 10) + [DigitChar(n % 10)]
  }

  /** %d of an integer: a minus sign before the digits of a negative one. */
  function IntToString(i: int): string
  {
    if i < 0 then "-" + NatToString(-i) else NatToString(i)
  }

  /** The number a string of decimal digits denotes. */
  function DigitsValue(s: string): nat
    requires forall i :: 0 <= i < |s| ==> IsDigit(s[i])
  {
    if s == [] then 0
    else
      assert IsDigit(s[|s| - 1]);
      10 * DigitsValue(s[..|s| - 1]) + (s[|s| - 1] as int - '0' as int)
  }

  /** The integer a %d rendering denotes. */
  function IntValue(s: string): int
    requires s != [] ==> forall i :: (if s[0] == '-' then 1 else 0) <= i < |s| ==> IsDigit(s[i])
  {
    if s != [] && s[0] == '-' then -(DigitsValue(s[1..]) as int) else DigitsValue(s)
  }

  /** Reading the digits of a natural number back gives the number. */
  lemma {:induction false} NatToStringValue(n: nat)
    ensures DigitsValue(NatToString(n)) == n
    decreases n
  {
    if n >= 10 {
      NatToStringValue(n / 10);
      var s := NatToString(n);
      assert s[..|s| - 1] == NatToString(n / 10);
    }
  }

  /** %d is one-to-one: reading a rendering back gives the integer. */
  lemma IntToStringValue(i: int)
    ensures IntValue(IntToString(i)) == i
  {
    if i < 0 {
      NatToStringValue(-i);
      assert ("-" + NatToString(-i))[1..] == NatToString(-i);
    } else {
      NatToStringValue(i);
    }
  }

  // ---------------------------------------------------------------------------
  // A message built by appending one block per element, as the source's `+=` loops do

  /** The blocks block(first, xs[0]), block(first + 1, xs[1]), ... one after the other. */
  function Blocks<T>(xs: seq<T>, first: int, block: (int, T) -> string): string
    decreases |xs|
  {
    if xs == [] then "" else block(first, xs[0]) + Blocks(xs[1..], first + 1, block)
  }

  /** The blocks of a concatenation are the blocks of its halves, the second numbered on from the first. */
  lemma {:induction false} BlocksConcat<T>(xs: seq<T>, ys: seq<T>, first: int, block: (int, T) -> string)
    ensures Blocks(xs + ys, first, block) == Blocks(xs, first, block) + Blocks(ys, first + |xs|, block)
    decreases |xs|
  {
    if xs == [] {
      assert xs + ys == ys;
    } else {
      assert (xs + ys)[1..] == xs[1..] + ys;
      BlocksConcat(xs[1..], ys, first + 1, block);
    }
  }

  /** Appending one element appends its block, numbered after the others. */
  lemma BlocksSnoc<T>(xs: seq<T>, x: T, first: int, block: (int, T) -> string)
    ensures Blocks(xs + [x], first, block) == Blocks(xs, first, block) + block(first + |xs|, x)
  {
    BlocksConcat(xs, [x], first, block);
    assert Blocks([x], first + |xs|, block) == block(first + |xs|, x) + Blocks([x][1..], first + |xs| + 1, block);
  }

  /** One step of a `+=` loop: appending the i-th block to a message holding the blocks before it. */
  lemma BlocksGrow<T>(head: string, xs: seq<T>, i: nat, first: int, block: (int, T) -> string)
    requires i < |xs|
    ensures head + Blocks(xs[..i + 1], first, block) == (head + Blocks(xs[..i], first, block)) + block(first + i, xs[i])
  {
    assert xs[..i + 1] == xs[..i] + [xs[i]];
    BlocksSnoc(xs[..i], xs[i], first, block);
  }

  /** The i-th block, numbered first + i, lies between the blocks before it and those after it. */
  lemma BlocksAt<T>(xs: seq<T>, i: nat, first: int, block: (int, T) -> string)
    requires i < |xs|
    ensures Blocks(xs, first, block)
         == Blocks(xs[..i], first, block) + block(first + i, xs[i]) + Blocks(xs[i + 1..], first + i + 1, block)
  {
    assert xs == xs[..i] + ([xs[i]] + xs[i + 1..]);
    BlocksConcat(xs[..i], [xs[i]] + xs[i + 1..], first, block);
    assert ([xs[i]] + xs[i + 1..])[1..] == xs[i + 1..];
  }
}
