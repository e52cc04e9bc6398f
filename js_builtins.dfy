/** The JavaScript built-ins the processors and the engine rely on: `undefined`,
    `Array.prototype.join`, `slice` with one argument, `String.prototype.split`
    with the empty string, a literal string or the expression /\s+/, the `\s`
    character class and `Number.prototype.toString` on safe integers. Strings
    are sequences of Unicode scalar values, one `char` each. */
module JsBuiltins {

  /** `None` stands for JavaScript's `undefined`. */
  datatype Option<T> = None | Some(value: T)

  /** One datum a processor can tokenise: a string or an (integral) number. */
  datatype Value = Text(s: string) | Number(n: int)

  /** A source: one datum or an array of data. */
  datatype Input = Single(v: Value) | Array(items: seq<Value>)

  // ---------------------------------------------------------------------------
  // Array.prototype.join

  /** `ts.join(sep)`: the elements with `sep` between each neighbouring pair. */
  function Join(ts: seq<string>, sep: string): string
  {
    if |ts| == 0 then ""
    else if |ts| == 1 then ts[0]
    else ts[0] + sep + Join(ts[1..], sep)
  }

  lemma {:induction false} JoinAppend(xs: seq<string>, ys: seq<string>, sep: string)
    requires |xs| > 0 && |ys| > 0
    ensures Join(xs + ys, sep) == Join(xs, sep) + sep + Join(ys, sep)
  {
    if |xs| == 1 {
      assert (xs + ys)[1..] == ys;
    } else {
      assert (xs + ys)[1..] == xs[1..] + ys;
      JoinAppend(xs[1..], ys, sep);
    }
  }

  /** The number of characters in all the strings together. */
  function TotalLength(ts: seq<string>): nat
  {
    if |ts| == 0 then 0 else |ts[0]| + TotalLength(ts[1..])
  }

  /** A join holds every character of the elements plus one separator between
      each neighbouring pair, and begins with the first element. */
  lemma {:induction false} JoinLength(ts: seq<string>, sep: string)
    ensures |ts| == 0 ==> Join(ts, sep) == ""
    ensures |ts| > 0 ==> |Join(ts, sep)| == TotalLength(ts) + (|ts| - 1) * |sep|
    ensures |ts| > 0 ==> ts[0] <= Join(ts, sep)
  {
    if |ts| > 1 {
      JoinLength(ts[1..], sep);
      assert |Join(ts, sep)| == |ts[0]| + |sep| + |Join(ts[1..], sep)|;
      assert (|ts| - 2) * |sep| + |sep| == (|ts| - 1) * |sep|;
    } else if |ts| == 1 {
      assert ts[1..] == [];
    }
  }

  /** Prepending `c` to the first element prepends `c` to the joined string. */
  lemma JoinPrependFirst(c: string, r: seq<string>, sep: string)
    requires |r| > 0
    ensures Join([c + r[0]] + r[1..], sep) == c + Join(r, sep)
  {
    var r' := [c + r[0]] + r[1..];
    assert r'[1..] == r[1..];
  }

  /** With the empty separator the joined length is the sum of the token lengths;
      when every token is one character, it is the number of tokens and
      character i of the result is token i. */
  lemma {:induction false} JoinSingleChars(ts: seq<string>)
    requires forall i | 0 <= i < |ts| :: |ts[i]| == 1
    ensures |Join(ts, "")| == |ts|
    ensures forall i | 0 <= i < |ts| :: Join(ts, "")[i] == ts[i][0]
  {
    if |ts| > 1 {
      JoinSingleChars(ts[1..]);
    }
  }

  // ---------------------------------------------------------------------------
  // slice(start) on arrays and strings

  /** The index `s.slice(start)` begins at: a negative start counts from the end,
      and the result is clamped to `0..|s|`. */
  function SliceStart(len: nat, start: int): (b: nat)
    ensures b <= len
  {
    if start < 0 then (if len + start < 0 then 0 else len + start)
    else if start > len then len
    else start
  }

  /** `s.slice(start)`: a suffix of `s`, of `|s| - start` elements for a start
      in range, of `-start` elements for a negative start down to `-|s|`, the
      whole of `s` below that and nothing beyond the end. */
  function SliceFrom<T>(s: seq<T>, start: int): (r: seq<T>)
    ensures |r| <= |s| && s == s[..|s| - |r|] + r
    ensures 0 <= start <= |s| ==> |r| == |s| - start
    ensures -|s| <= start < 0 ==> |r| == -start
    ensures start < -|s| ==> r == s
    ensures start > |s| ==> r == []
  {
    s[SliceStart(|s|, start)..]
  }

  // ---------------------------------------------------------------------------
  // String.prototype.split

  /** `s.split("")`: one string per character; the empty string gives `[]`. */
  function SplitChars(s: string): (r: seq<string>)
    ensures |r| == |s|
  {
    if |s| == 0 then [] else [[s[0]]] + SplitChars(s[1..])
  }

  /** Piece i of `s.split("")` is the one-character string of character i. */
  lemma {:induction false} SplitCharsSingletons(s: string)
    ensures forall i | 0 <= i < |s| :: SplitChars(s)[i] == [s[i]]
  {
    if |s| > 0 {
      SplitCharsSingletons(s[1..]);
      assert SplitChars(s)[1..] == SplitChars(s[1..]);
    }
  }

  /** Joining the one-character strings of `s` with "" gives `s` back. */
  lemma {:induction false} JoinSplitChars(s: string)
    ensures Join(SplitChars(s), "") == s
  {
    SplitCharsSingletons(s);
    if |s| > 1 {
      JoinSplitChars(s[1..]);
      assert SplitChars(s)[1..] == SplitChars(s[1..]);
    }
  }

  /** Splitting the join of one-character strings gives those strings back. */
  lemma SplitJoinChars(ts: seq<string>)
    requires forall i | 0 <= i < |ts| :: |ts[i]| == 1
    ensures SplitChars(Join(ts, "")) == ts
  {
    JoinSingleChars(ts);
    SplitCharsSingletons(Join(ts, ""));
    var r := SplitChars(Join(ts, ""));
    assert forall i | 0 <= i < |ts| :: r[i] == ts[i] by {
      forall i | 0 <= i < |ts| ensures r[i] == ts[i] {
        assert |ts[i]| == 1 && r[i] == [ts[i][0]];
      }
    }
  }

  /** `s.split(sep)` for a non-empty literal separator: the pieces between the
      leftmost non-overlapping occurrences of `sep`. */
  function SplitOn(s: string, sep: string): (r: seq<string>)
    requires |sep| > 0
    ensures |r| > 0
    decreases |s|
  {
    if |s| < |sep| then [s]
    else if s[..|sep|] == sep then [""] + SplitOn(s[|sep|..], sep)
    else
      var rest := SplitOn(s[1..], sep);
      [[s[0]] + rest[0]] + rest[1..]
  }

  /** Joining the pieces of a literal split with the separator restores the string. */
  lemma {:induction false} JoinSplitOn(s: string, sep: string)
    requires |sep| > 0
    ensures Join(SplitOn(s, sep), sep) == s
    decreases |s|
  {
    if |s| < |sep| {
    } else if s[..|sep|] == sep {
      var tail := s[|sep|..];
      var rest := SplitOn(tail, sep);
      assert SplitOn(s, sep) == [""] + rest;
      JoinSplitOn(tail, sep);
      JoinAppend([""], rest, sep);
      assert s == sep + tail;
    } else {
      var rest := SplitOn(s[1..], sep);
      assert SplitOn(s, sep) == [[s[0]] + rest[0]] + rest[1..];
      JoinSplitOn(s[1..], sep);
      JoinPrependFirst([s[0]], rest, sep);
      assert s == [s[0]] + s[1..];
    }
  }

  /** The `\s` class of ECMAScript regular expressions: WhiteSpace and
      LineTerminator code points. */
  predicate IsWhitespace(c: char)
  {
    || c == '\U{0009}' || c == '\U{000A}' || c == '\U{000B}' || c == '\U{000C}'
    || c == '\U{000D}' || c == '\U{0020}' || c == '\U{00A0}' || c == '\U{1680}'
    || ('\U{2000}' <= c <= '\U{200A}')
    || c == '\U{2028}' || c == '\U{2029}' || c == '\U{202F}' || c == '\U{205F}'
    || c == '\U{3000}' || c == '\U{FEFF}'
  }

  predicate HasNoWhitespace(s: string)
  {
    forall i | 0 <= i < |s| :: !IsWhitespace(s[i])
  }

  /** `s.split(/\s+/)`: the pieces between maximal runs of whitespace. A leading
      run gives a leading "" and a trailing run a trailing "", and the empty
      string gives `[""]`. */
  function SplitWhitespace(s: string): (r: seq<string>)
    ensures |r| > 0
  {
    if |s| == 0 then [""]
    else if IsWhitespace(s[0]) then
      if |s| > 1 && IsWhitespace(s[1]) then SplitWhitespace(s[1..])
      else [""] + SplitWhitespace(s[1..])
    else
      var rest := SplitWhitespace(s[1..]);
      [[s[0]] + rest[0]] + rest[1..]
  }

  /** No piece of a whitespace split contains whitespace. */
  lemma {:induction false} SplitWhitespaceNoWhitespace(s: string)
    ensures forall i | 0 <= i < |SplitWhitespace(s)| :: HasNoWhitespace(SplitWhitespace(s)[i])
  {
    if |s| > 0 {
      SplitWhitespaceNoWhitespace(s[1..]);
      var rest := SplitWhitespace(s[1..]);
      var r := SplitWhitespace(s);
      if IsWhitespace(s[0]) {
        if !(|s| > 1 && IsWhitespace(s[1])) {
          assert r == [""] + rest;
          forall i | 0 <= i < |r|
            ensures HasNoWhitespace(r[i])
          {
            if i > 0 {
              assert r[i] == rest[i - 1];
            }
          }
        }
      } else {
        assert r == [[s[0]] + rest[0]] + rest[1..];
        forall i | 0 <= i < |r|
          ensures HasNoWhitespace(r[i])
        {
          if i == 0 {
            assert HasNoWhitespace(rest[0]);
            assert forall j | 0 < j < |r[0]| :: r[0][j] == rest[0][j - 1];
          } else {
            assert r[i] == rest[i];
          }
        }
      }
    }
  }

  /** A whitespace-free word in front of a string is glued to its first piece. */
  lemma {:induction false} SplitWhitespaceWordPrefix(w: string, s: string)
    requires HasNoWhitespace(w)
    ensures SplitWhitespace(w + s) ==
            [w + SplitWhitespace(s)[0]] + SplitWhitespace(s)[1..]
  {
    if |w| > 0 {
      var rs := SplitWhitespace(s);
      var rest := SplitWhitespace(w[1..] + s);
      SplitWhitespaceWordPrefix(w[1..], s);
      assert (w + s)[1..] == w[1..] + s;
      assert !IsWhitespace((w + s)[0]);
      assert SplitWhitespace(w + s) == [[w[0]] + rest[0]] + rest[1..];
      assert rest[0] == w[1..] + rs[0] && rest[1..] == rs[1..];
      assert [w[0]] + (w[1..] + rs[0]) == w + rs[0];
    } else {
      var rs := SplitWhitespace(s);
      assert w + s == s && w + rs[0] == rs[0];
      assert rs == [rs[0]] + rs[1..];
    }
  }

  /** A token without whitespace is split into itself alone. */
  lemma SplitWhitespaceWord(w: string)
    requires HasNoWhitespace(w)
    ensures SplitWhitespace(w) == [w]
  {
    SplitWhitespaceWordPrefix(w, "");
    assert w + "" == w;
  }

  /** Splitting the space-join of non-empty, whitespace-free tokens gives them back. */
  lemma {:induction false} SplitWhitespaceJoin(ts: seq<string>)
    requires |ts| > 0
    requires forall i | 0 <= i < |ts| :: |ts[i]| > 0 && HasNoWhitespace(ts[i])
    ensures SplitWhitespace(Join(ts, " ")) == ts
  {
    if |ts| == 1 {
      SplitWhitespaceWord(ts[0]);
    } else {
      var j := Join(ts[1..], " ");
      SplitWhitespaceJoin(ts[1..]);
      assert |ts[1]| > 0;
      assert |j| > 0 && j[0] == ts[1][0] by { JoinFirstChar(ts[1..], " "); }
      var tail := " " + j;
      assert tail[1..] == j;
      assert SplitWhitespace(tail) == [""] + ts[1..];
      SplitWhitespaceWordPrefix(ts[0], tail);
      assert ts[0] + " " + j == ts[0] + tail;
      assert ([""] + ts[1..])[1..] == ts[1..];
      assert ts[0] + "" == ts[0];
      assert ts == [ts[0]] + ts[1..];
    }
  }

  /** The joined string starts with the first character of the first token. */
  lemma JoinFirstChar(ts: seq<string>, sep: string)
    requires |ts| > 0 && |ts[0]| > 0
    ensures |Join(ts, sep)| > 0 && Join(ts, sep)[0] == ts[0][0]
  {
  }

  // ---------------------------------------------------------------------------
  // Number.prototype.toString on integers

  /** 2^53: every integer of at most this magnitude is a JavaScript number,
      and `toString` prints it digit for digit. Larger ones are rounded to the
      nearest double and printed with the shortest digits that read back. */
  const SafeLimit: int := 9_007_199_254_740_992

  function DigitChar(d: int): char
    requires 0 <= d < 10
  {
    "0123456789"[d]
  }

  predicate IsDigit(c: char)
  {
    '0' <= c <= '9'
  }

  function DigitValue(c: char): int
    requires IsDigit(c)
  {
    c as int - '0' as int
  }

  /** The decimal digits of `n`, most significant first, without leading zeros. */
  function Digits(n: nat): (r: string)
    ensures |r| > 0 && forall i | 0 <= i < |r| :: IsDigit(r[i])
  {
    if n < 10 then [DigitChar(n)] else Digits(n / 10) + [DigitChar(n % 10)]
  }

  /** `n.toString()` for a safe integer `n`: a minus sign exactly for a
      negative `n`, then the decimal digits of its magnitude. */
  function NumberToString(n: int): (r: string)
    requires -SafeLimit <= n <= SafeLimit
    ensures |r| > 0
    ensures r[0] == '-' <==> n < 0
  {
    if n < 0 then "-" + Digits(-n) else Digits(n)
  }

  /** Reads a string of decimal digits back (an independent inverse). */
  function ParseDigits(s: string): int
    requires forall i | 0 <= i < |s| :: IsDigit(s[i])
  {
    if |s| == 0 then 0 else ParseDigits(s[..|s| - 1]) * 10 + DigitValue(s[|s| - 1])
  }

  function ParseDecimal(s: string): int
    requires |s| > 0
    requires forall i | 0 < i < |s| :: IsDigit(s[i])
    requires s[0] == '-' || IsDigit(s[0])
  {
    if s[0] == '-' then -ParseDigits(s[1..]) else ParseDigits(s)
  }

  lemma {:induction false} ParseDigitsOfDigits(n: nat)
    ensures ParseDigits(Digits(n)) == n
  {
    if n >= 10 {
      ParseDigitsOfDigits(n / 10);
      var d := Digits(n);
      assert d[..|d| - 1] == Digits(n / 10);
    }
  }

  /** A minus sign before a digit string reads back as its negation. */
  lemma NegativeDecimal(d: string)
    requires |d| > 0 && forall i | 0 <= i < |d| :: IsDigit(d[i])
    ensures var s := "-" + d;
      && (forall i | 0 < i < |s| :: IsDigit(s[i]))
      && ParseDecimal(s) == -ParseDigits(d)
  {
    var s := "-" + d;
    assert s[1..] == d;
    forall i | 0 < i < |s|
      ensures IsDigit(s[i])
    {
      assert s[i] == d[i - 1];
    }
  }

  /** The decimal string of an integer is an optional minus sign followed by
      digits only. */
  lemma NumberToStringShape(n: int)
    requires -SafeLimit <= n <= SafeLimit
    ensures var s := NumberToString(n);
      && (forall i | 0 < i < |s| :: IsDigit(s[i]))
      && (s[0] == '-' || IsDigit(s[0]))
  {
    if n < 0 {
      NegativeDecimal(Digits(-n));
    }
  }

  /** The decimal string of an integer reads back as that integer. */
  lemma NumberToStringRoundTrip(n: int)
    requires -SafeLimit <= n <= SafeLimit
    ensures var s := NumberToString(n);
      && (forall i | 0 < i < |s| :: IsDigit(s[i]))
      && (s[0] == '-' || IsDigit(s[0]))
      && ParseDecimal(s) == n
  {
    NumberToStringShape(n);
    var s := NumberToString(n);
    if n < 0 {
      var d := Digits(-n);
      NegativeDecimal(d);
      ParseDigitsOfDigits(-n);
      assert s == "-" + d;
    } else {
      ParseDigitsOfDigits(n);
      assert s == Digits(n);
    }
  }
}
