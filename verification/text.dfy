/** String helpers shared by the backend (Python) and the client (TypeScript)
    parts of the model: character classes, join/split on a separator,
    character-set stripping, and Python's `str.split()` into words. */
module Text {

  /** Python's `str.isspace()` set, used by `split()` and `strip()` with no argument. */
  predicate IsPyWhitespace(c: char) {
    var n := c as int;
    (9 <= n <= 13) || (28 <= n <= 32) || n == 0x85 || n == 0xA0 || n == 0x1680
    || (0x2000 <= n <= 0x200A) || n == 0x2028 || n == 0x2029 || n == 0x202F
    || n == 0x205F || n == 0x3000
  }

  /** ECMAScript WhiteSpace and LineTerminator code points: the set `trim()` removes and `\s` matches. */
  predicate IsJsWhitespace(c: char) {
    var n := c as int;
    (9 <= n <= 13) || n == 32 || n == 0xA0 || n == 0x1680 || (0x2000 <= n <= 0x200A)
    || n == 0x2028 || n == 0x2029 || n == 0x202F || n == 0x205F || n == 0x3000 || n == 0xFEFF
  }

  predicate IsDigit(c: char) {
    '0' <= c <= '9'
  }

  predicate IsAsciiUpper(c: char) {
    'A' <= c <= 'Z'
  }

  function AsciiLower(c: char): (r: char)
    ensures IsAsciiUpper(c) ==> r as int == c as int + 32
    ensures !IsAsciiUpper(c) ==> r == c
  {
    if IsAsciiUpper(c) then (c as int + 32) as char else c
  }

  function AsciiUpper(c: char): (r: char)
    ensures 'a' <= c <= 'z' ==> r as int == c as int - 32
    ensures !('a' <= c <= 'z') ==> r == c
  {
    if 'a' <= c <= 'z' then (c as int - 32) as char else c
  }

  function LowerAscii(s: string): (r: string)
    ensures |r| == |s|
    ensures forall i | 0 <= i < |s| :: r[i] == AsciiLower(s[i])
  {
    if |s| == 0 then "" else [AsciiLower(s[0])] + LowerAscii(s[1..])
  }

  /** Value of a run of decimal digits, as `parseInt(_, 10)` reads it. */
  function DigitsValue(s: string): (n: nat)
    requires forall i | 0 <= i < |s| :: IsDigit(s[i])
    ensures |s| == 0 ==> n == 0
  {
    if |s| == 0 then 0
    else
      assert IsDigit(s[|s| - 1]);
      10 * DigitsValue(s[..|s| - 1]) + (s[|s| - 1] as int - '0' as int)
  }

  /** `str(n)` / `String(n)`: decimal digits of a non-negative integer, without leading zeros. */
  function EncodeNat(n: nat): (e: string)
    ensures 0 < |e|
    ensures forall i | 0 <= i < |e| :: IsDigit(e[i])
    ensures |e| > 1 ==> e[0] != '0'
  {
    var d := ('0' as int + n % 10) as char;
    if n < 10 then [d] else EncodeNat(n / 10) + [d]
  }

  /** The digits of `n` read back as `n`. */
  lemma {:induction false} DigitsOfEncode(n: nat)
    ensures DigitsValue(EncodeNat(n)) == n
  {
    var e := EncodeNat(n);
    if n >= 10 {
      DigitsOfEncode(n / 10);
      assert e[..|e| - 1] == EncodeNat(n / 10);
    }
  }

  /** `sep.join(xs)` / `xs.join(sep)`. */
  function Join(sep: string, xs: seq<string>): string
  {
    if |xs| == 0 then "" else if |xs| == 1 then xs[0] else xs[0] + sep + Join(sep, xs[1..])
  }

  /** Concatenation of a sequence of strings. */
  function Concat(xs: seq<string>): string
  {
    if |xs| == 0 then "" else xs[0] + Concat(xs[1..])
  }

  lemma {:induction false} ConcatAppend(xs: seq<string>, x: string)
    ensures Concat(xs + [x]) == Concat(xs) + x
  {
    if |xs| == 0 {
      assert xs + [x] == [x];
    } else {
      assert (xs + [x])[1..] == xs[1..] + [x];
      ConcatAppend(xs[1..], x);
    }
  }

  lemma {:induction false} JoinAppend(sep: string, xs: seq<string>, x: string)
    requires |xs| > 0
    ensures Join(sep, xs + [x]) == Join(sep, xs) + sep + x
  {
    if |xs| == 1 {
      assert xs + [x] == [xs[0], x];
    } else {
      assert (xs + [x])[1..] == xs[1..] + [x];
      JoinAppend(sep, xs[1..], x);
    }
  }

  /** Joining two non-empty lists is joining each and putting a separator between. */
  lemma {:induction false} JoinConcat(sep: string, xs: seq<string>, ys: seq<string>)
    requires |xs| > 0 && |ys| > 0
    ensures Join(sep, xs + ys) == Join(sep, xs) + sep + Join(sep, ys)
  {
    if |xs| == 1 {
      assert (xs + ys)[0] == xs[0] && (xs + ys)[1..] == ys;
    } else {
      assert (xs + ys)[0] == xs[0] && (xs + ys)[1..] == xs[1..] + ys;
      JoinConcat(sep, xs[1..], ys);
    }
  }

  /** The join of non-empty parts is empty exactly when there are no parts. */
  lemma {:induction false} JoinEmptyIff(sep: string, xs: seq<string>)
    requires forall i | 0 <= i < |xs| :: |xs[i]| > 0
    ensures Join(sep, xs) == "" <==> |xs| == 0
  {
    if |xs| > 1 {
      assert |Join(sep, xs)| >= |xs[0]|;
    }
  }

  /** Every character of the join is a separator character or a character of some part. */
  lemma {:induction false} JoinChars(sep: string, xs: seq<string>, c: char)
    requires forall i | 0 <= i < |xs| :: c !in xs[i]
    requires c !in sep
    ensures c !in Join(sep, xs)
  {
    if |xs| > 1 {
      JoinChars(sep, xs[1..], c);
    }
  }

  function IndexOf(s: string, c: char): (i: nat)
    requires c in s
    ensures i < |s| && s[i] == c && c !in s[..i]
  {
    if s[0] == c then 0 else 1 + IndexOf(s[1..], c)
  }

  /** `s.split(c)` for a one-character separator: always at least one part. */
  function Split(s: string, c: char): (parts: seq<string>)
    ensures |parts| >= 1
    ensures forall i | 0 <= i < |parts| :: c !in parts[i]
    ensures Join([c], parts) == s
    decreases |s|
  {
    if c in s then
      var i := IndexOf(s, c);
      var rest := Split(s[i + 1..], c);
      assert s == s[..i] + [c] + s[i + 1..];
      [s[..i]] + rest
    else
      [s]
  }

  /** Splitting the join of separator-free parts gives the parts back. */
  lemma {:induction false} SplitJoin(xs: seq<string>, c: char)
    requires |xs| >= 1
    requires forall i | 0 <= i < |xs| :: c !in xs[i]
    ensures Split(Join([c], xs), c) == xs
  {
    if |xs| > 1 {
      var s := Join([c], xs);
      assert s == xs[0] + [c] + Join([c], xs[1..]);
      assert s[..|xs[0]|] == xs[0];
      assert c in s && s[|xs[0]|] == c;
      assert IndexOf(s, c) == |xs[0]|;
      assert s[|xs[0]| + 1..] == Join([c], xs[1..]);
      SplitJoin(xs[1..], c);
    } else {
      assert Join([c], xs) == xs[0];
    }
  }

  /** Splitting at one occurrence of the separator splits the two sides apart. */
  lemma {:induction false} SplitAppend(a: string, b: string, c: char)
    ensures Split(a + [c] + b, c) == Split(a, c) + Split(b, c)
  {
    var xs, ys := Split(a, c), Split(b, c);
    JoinConcat([c], xs, ys);
    SplitJoin(xs + ys, c);
  }

  /** Length of the leading run of characters satisfying `p`. */
  function LeadRun(s: string, p: char -> bool): (n: nat)
    ensures n <= |s|
    ensures forall i | 0 <= i < n :: p(s[i])
    ensures n < |s| ==> !p(s[n])
  {
    if |s| == 0 || !p(s[0]) then 0 else 1 + LeadRun(s[1..], p)
  }

  /** Length of the trailing run of characters satisfying `p`. */
  function TrailRun(s: string, p: char -> bool): (n: nat)
    ensures n <= |s|
    ensures forall i | |s| - n <= i < |s| :: p(s[i])
    ensures n < |s| ==> !p(s[|s| - 1 - n])
  {
    if |s| == 0 || !p(s[|s| - 1]) then 0 else 1 + TrailRun(s[..|s| - 1], p)
  }

  /** Python's `s.strip(chars)` / JavaScript's `trim()`: removes the longest
      leading and trailing runs of characters in the set `p`; the result is the
      unique infix whose ends are outside the set. */
  function Strip(s: string, p: char -> bool): (r: string)
    ensures LeadRun(s, p) + |r| <= |s|
    ensures r == s[LeadRun(s, p)..LeadRun(s, p) + |r|]
    ensures forall i | 0 <= i < LeadRun(s, p) :: p(s[i])
    ensures forall i | LeadRun(s, p) + |r| <= i < |s| :: p(s[i])
    ensures |r| > 0 ==> !p(r[0]) && !p(r[|r| - 1])
  {
    var a := LeadRun(s, p);
    var t := s[a..];
    t[..|t| - TrailRun(t, p)]
  }

  /** A string already free of stripped characters at both ends is left unchanged. */
  lemma {:induction false} StripFixed(s: string, p: char -> bool)
    requires |s| > 0 ==> !p(s[0]) && !p(s[|s| - 1])
    ensures Strip(s, p) == s
  {
    var a := LeadRun(s, p);
    assert a == 0;
    var t := s[a..];
    assert t == s;
    assert TrailRun(t, p) == 0;
  }

  /** Stripping a core whose ends are kept, wrapped in runs of stripped
      characters, yields exactly the core. */
  lemma {:induction false} StripExact(a: string, m: string, b: string, p: char -> bool)
    requires forall i | 0 <= i < |a| :: p(a[i])
    requires forall i | 0 <= i < |b| :: p(b[i])
    requires |m| > 0 ==> !p(m[0]) && !p(m[|m| - 1])
    ensures Strip(a + m + b, p) == m
  {
    var s := a + m + b;
    var r := Strip(s, p);
    var l := LeadRun(s, p);
    if |m| == 0 {
      assert forall i | 0 <= i < |s| :: p(s[i]);
      assert l == |s|;
    } else {
      assert s[|a|] == m[0];
      assert l == |a|;
      assert s[|a| + |m| - 1] == m[|m| - 1];
      assert |r| == |m|;
      assert s[|a|..|a| + |m|] == m;
    }
  }

  /** Python's `strip()` with no argument. */
  function PyStrip(s: string): string
  {
    Strip(s, IsPyWhitespace)
  }

  /** JavaScript's `String.prototype.trim()`. */
  function JsTrim(s: string): (r: string)
    ensures JsTrimmed(r)
  {
    Strip(s, IsJsWhitespace)
  }

  /** No JavaScript whitespace at either end. */
  predicate JsTrimmed(s: string) {
    |s| > 0 ==> !IsJsWhitespace(s[0]) && !IsJsWhitespace(s[|s| - 1])
  }

  /** Trimming surrounding whitespace off an already trimmed core gives the core. */
  lemma {:induction false} JsTrimAround(a: string, m: string, b: string)
    requires forall i | 0 <= i < |a| :: IsJsWhitespace(a[i])
    requires forall i | 0 <= i < |b| :: IsJsWhitespace(b[i])
    requires JsTrimmed(m)
    ensures JsTrim(a + m + b) == m
  {
    StripExact(a, m, b, IsJsWhitespace);
  }

  predicate IsWord(w: string) {
    |w| > 0 && forall i | 0 <= i < |w| :: !IsPyWhitespace(w[i])
  }

  function WordLen(s: string): (n: nat)
    ensures n <= |s|
    ensures forall i | 0 <= i < n :: !IsPyWhitespace(s[i])
    ensures n < |s| ==> IsPyWhitespace(s[n])
  {
    if |s| == 0 || IsPyWhitespace(s[0]) then 0 else 1 + WordLen(s[1..])
  }

  /** Python's `s.split()`: maximal runs of non-whitespace characters, in order. */
  function Words(s: string): (ws: seq<string>)
    ensures forall i | 0 <= i < |ws| :: IsWord(ws[i])
    decreases |s|
  {
    if |s| == 0 then []
    else if IsPyWhitespace(s[0]) then Words(s[1..])
    else
      var k := WordLen(s);
      [s[..k]] + Words(s[k..])
  }

  /** Whitespace-only text has no words. */
  lemma {:induction false} WordsOfBlank(s: string)
    requires forall i | 0 <= i < |s| :: IsPyWhitespace(s[i])
    ensures Words(s) == []
    decreases |s|
  {
    if |s| > 0 {
      WordsOfBlank(s[1..]);
    }
  }

  /** Leading whitespace does not change the words. */
  lemma {:induction false} WordsSkipsSpace(s: string)
    ensures Words(" " + s) == Words(s)
  {
    assert (" " + s)[1..] == s;
  }

  /** Joining words with single spaces and splitting again gives the words back. */
  lemma {:induction false} WordsOfJoin(ws: seq<string>)
    requires forall i | 0 <= i < |ws| :: IsWord(ws[i])
    ensures Words(Join(" ", ws)) == ws
  {
    if |ws| == 0 {
    } else {
      var w := ws[0];
      var rest := if |ws| == 1 then "" else " " + Join(" ", ws[1..]);
      var s := w + rest;
      assert s == Join(" ", ws);
      assert WordLen(s) == |w| by {
        WordPrefixLen(w, rest);
      }
      assert s[..|w|] == w;
      assert s[|w|..] == rest;
      if |ws| == 1 {
        assert Words(rest) == [];
      } else {
        WordsSkipsSpace(Join(" ", ws[1..]));
        WordsOfJoin(ws[1..]);
      }
    }
  }

  lemma {:induction false} WordPrefixLen(w: string, rest: string)
    requires forall i | 0 <= i < |w| :: !IsPyWhitespace(w[i])
    requires |rest| > 0 ==> IsPyWhitespace(rest[0])
    ensures WordLen(w + rest) == |w|
    decreases |w|
  {
    if |w| > 0 {
      assert (w + rest)[1..] == w[1..] + rest;
      WordPrefixLen(w[1..], rest);
    }
  }

  /** The non-empty strings of `xs`, in order (Python's `[x for x in xs if x]`). */
  function NonEmpty(xs: seq<string>): (r: seq<string>)
    ensures |r| <= |xs|
    ensures forall i | 0 <= i < |r| :: |r[i]| > 0
    ensures forall i | 0 <= i < |xs| && |xs[i]| > 0 :: xs[i] in r
  {
    if |xs| == 0 then []
    else
      var rest := NonEmpty(xs[1..]);
      assert forall i | 1 <= i < |xs| :: xs[i] == xs[1..][i - 1];
      (if |xs[0]| > 0 then [xs[0]] else []) + rest
  }

  /** The filter distributes over concatenation, so the kept strings keep
      their order. */
  lemma {:induction false} NonEmptyAppend(xs: seq<string>, ys: seq<string>)
    ensures NonEmpty(xs + ys) == NonEmpty(xs) + NonEmpty(ys)
    decreases |xs|
  {
    if |xs| == 0 {
      assert xs + ys == ys;
    } else {
      var zs := xs + ys;
      var h := if |xs[0]| > 0 then [xs[0]] else [];
      assert NonEmpty(zs) == h + NonEmpty(xs[1..] + ys) by {
        assert zs[0] == xs[0] && zs[1..] == xs[1..] + ys;
      }
      NonEmptyAppend(xs[1..], ys);
      assert h + (NonEmpty(xs[1..]) + NonEmpty(ys)) == (h + NonEmpty(xs[1..])) + NonEmpty(ys);
    }
  }

  lemma {:induction false} NonEmptyAllEmpty(xs: seq<string>)
    requires forall i | 0 <= i < |xs| :: xs[i] == ""
    ensures NonEmpty(xs) == []
  {
    if |xs| > 0 {
      NonEmptyAllEmpty(xs[1..]);
    }
  }
}
