/** String operations of Rust's `str` that the core relies on, over `seq<char>`. */
module Text {
  import opened Wrappers

  /** Rust's `char::is_whitespace`: the Unicode White_Space property. */
  predicate IsWhitespace(c: char) {
    c == '\t' || c == '\n' || c == '\U{B}' || c == '\U{C}' || c == '\r' || c == ' ' ||
    c == '\U{85}' || c == '\U{A0}' || c == '\U{1680}' || ('\U{2000}' <= c <= '\U{200A}') ||
    c == '\U{2028}' || c == '\U{2029}' || c == '\U{202F}' || c == '\U{205F}' || c == '\U{3000}'
  }

  /** `str::trim_start`: drops the leading whitespace. */
  function TrimStart(s: string): (r: string)
    ensures |r| <= |s| && r == s[|s| - |r|..]
    ensures r == [] || !IsWhitespace(r[0])
    ensures forall i :: 0 <= i < |s| - |r| ==> IsWhitespace(s[i])
  {
    if |s| > 0 && IsWhitespace(s[0]) then TrimStart(s[1..]) else s
  }

  /** `str::trim_end`: drops the trailing whitespace. */
  function TrimEnd(s: string): (r: string)
    ensures |r| <= |s| && r == s[..|r|]
    ensures r == [] || !IsWhitespace(r[|r| - 1])
    ensures forall i :: |r| <= i < |s| ==> IsWhitespace(s[i])
  {
    if |s| > 0 && IsWhitespace(s[|s| - 1]) then TrimEnd(s[..|s| - 1]) else s
  }

  /** `str::trim`. */
  function Trim(s: string): string {
    TrimEnd(TrimStart(s))
  }

  /** A trimmed text neither starts nor ends with whitespace. */
  lemma TrimmedEnds(s: string)
    ensures var r := Trim(s); |r| == 0 || (!IsWhitespace(r[0]) && !IsWhitespace(r[|r| - 1]))
  {
    var t := TrimStart(s);
    var r := TrimEnd(t);
    if |r| > 0 {
      assert r[0] == t[0];
    }
  }

  /** `chars().take_while(|c| c.is_whitespace())`: the leading whitespace itself. */
  function LeadingWhitespace(s: string): (r: string)
    ensures r + TrimStart(s) == s
    ensures forall i :: 0 <= i < |r| ==> IsWhitespace(r[i])
  {
    var k := |s| - |TrimStart(s)|;
    assert s[..k] + s[k..] == s;
    s[..k]
  }

  /** `t` occurs in `s` at index `i`. */
  predicate OccursAt(s: string, t: string, i: nat) {
    i + |t| <= |s| && s[i..i + |t|] == t
  }

  /** The least index `>= k` at which `t` occurs in `s` (Rust's `find`, from `k`). */
  function FindFrom(s: string, t: string, k: nat): (r: Option<nat>)
    decreases |s| - k
    ensures r.Some? ==> k <= r.value && OccursAt(s, t, r.value)
    ensures r.Some? ==> forall j :: k <= j < r.value ==> !OccursAt(s, t, j)
    ensures r.None? ==> forall j :: k <= j ==> !OccursAt(s, t, j)
  {
    if k + |t| > |s| then None
    else if s[k..k + |t|] == t then Some(k)
    else FindFrom(s, t, k + 1)
  }

  /** `str::find`: the first occurrence of `t` in `s`. */
  function Find(s: string, t: string): Option<nat> {
    FindFrom(s, t, 0)
  }

  /** `str::contains`. */
  predicate Contains(s: string, t: string) {
    Find(s, t).Some?
  }

  lemma ContainsIff(s: string, t: string)
    ensures Contains(s, t) <==> exists i: nat :: OccursAt(s, t, i)
  {
  }

  lemma {:induction false} ContainsShorter(s: string, t: string)
    requires Contains(s, t)
    ensures |t| <= |s|
  {
  }

  /** `str::replacen(old, new, 1)`: replaces the first occurrence only. */
  function ReplaceFirst(s: string, pat: string, rep: string): (r: string)
    ensures Find(s, pat).None? ==> r == s
    ensures Find(s, pat).Some? ==>
      var i := Find(s, pat).value;
      r == s[..i] + rep + s[i + |pat|..]
  {
    match Find(s, pat)
    case None => s
    case Some(i) => s[..i] + rep + s[i + |pat|..]
  }

  /** `str::replace` of a one-character pattern. */
  function ReplaceChar(s: string, c: char, r: string): (out: string)
    ensures c !in s ==> out == s
  {
    if |s| == 0 then []
    else (if s[0] == c then r else [s[0]]) + ReplaceChar(s[1..], c, r)
  }

  /** `str::repeat` of a one-character string. */
  function Repeat(c: char, n: nat): (r: string)
    ensures |r| == n && forall i :: 0 <= i < n ==> r[i] == c
  {
    seq(n, _ => c)
  }

  /** `str::split(c)`: always at least one part; `""` splits into `[""]`. */
  function Split(s: string, c: char): (r: seq<string>)
    ensures |r| >= 1
  {
    if |s| == 0 then [""]
    else
      var rest := Split(s[1..], c);
      if s[0] == c then [""] + rest else [[s[0]] + rest[0]] + rest[1..]
  }

  /** No part of a split holds the separator. */
  lemma {:induction false} SplitPartsFree(s: string, c: char)
    ensures forall i :: 0 <= i < |Split(s, c)| ==> c !in Split(s, c)[i]
    decreases |s|
  {
    if |s| > 0 {
      SplitPartsFree(s[1..], c);
    }
  }

  /** Appending to a text built from a fixed head extends what follows the head. */
  lemma AppendAssoc(a: string, b: string, c: string)
    ensures (a + b) + c == a + (b + c)
  {
  }

  /** `[String]::join(sep)`. */
  function Join(parts: seq<string>, sep: string): string {
    if |parts| == 0 then ""
    else if |parts| == 1 then parts[0]
    else parts[0] + sep + Join(parts[1..], sep)
  }

  lemma {:induction false} JoinCons(p: string, rest: seq<string>, sep: string)
    requires |rest| >= 1
    ensures Join([p] + rest, sep) == p + sep + Join(rest, sep)
  {
    assert ([p] + rest)[1..] == rest;
  }

  /** Splitting and joining again with the same separator gives the text back. */
  lemma {:induction false} JoinSplit(s: string, c: char)
    ensures Join(Split(s, c), [c]) == s
    decreases |s|
  {
    if |s| > 0 {
      var rest := Split(s[1..], c);
      JoinSplit(s[1..], c);
      if s[0] == c {
        JoinCons("", rest, [c]);
        assert s == [c] + s[1..];
      } else {
        var parts := [[s[0]] + rest[0]] + rest[1..];
        if |rest| == 1 {
          assert Join(parts, [c]) == [s[0]] + rest[0];
          assert s == [s[0]] + s[1..];
        } else {
          JoinCons([s[0]] + rest[0], rest[1..], [c]);
          JoinCons(rest[0], rest[1..], [c]);
          assert [rest[0]] + rest[1..] == rest;
          assert s == [s[0]] + s[1..];
        }
      }
    }
  }

  /** A text without the separator splits into itself. */
  lemma {:induction false} SplitNoSep(s: string, c: char)
    requires c !in s
    ensures Split(s, c) == [s]
    decreases |s|
  {
    if |s| > 0 {
      assert c !in s[1..] by {
        forall k | 0 <= k < |s[1..]| ensures s[1..][k] != c { assert s[1..][k] == s[k + 1]; }
      }
      SplitNoSep(s[1..], c);
      assert [s[0]] + s[1..] == s;
    }
  }

  /** Splitting distributes over a separator in the middle. */
  lemma {:induction false} SplitAppend(a: string, b: string, c: char)
    ensures Split(a + [c] + b, c) == Split(a, c) + Split(b, c)
    decreases |a|
  {
    var x := a + [c] + b;
    if |a| == 0 {
      assert x == [c] + b;
      assert x[1..] == b;
    } else {
      assert x[0] == a[0];
      assert x[1..] == a[1..] + [c] + b;
      SplitAppend(a[1..], b, c);
      var ra := Split(a[1..], c);
      var rb := Split(b, c);
      assert Split(x[1..], c) == ra + rb;
      if a[0] == c {
        assert Split(x, c) == [""] + (ra + rb);
        assert Split(a, c) == [""] + ra;
        SeqAssoc([""], ra, rb);
      } else {
        assert (ra + rb)[0] == ra[0];
        assert (ra + rb)[1..] == ra[1..] + rb;
        assert Split(x, c) == [[a[0]] + ra[0]] + (ra[1..] + rb);
        assert Split(a, c) == [[a[0]] + ra[0]] + ra[1..];
        SeqAssoc([[a[0]] + ra[0]], ra[1..], rb);
      }
    }
  }

  lemma SeqAssoc<T>(p: seq<T>, q: seq<T>, r: seq<T>)
    ensures p + (q + r) == (p + q) + r
  {
  }

  /** Joining parts that do not hold the separator and splitting again gives the parts back. */
  lemma {:induction false} SplitJoin(parts: seq<string>, c: char)
    requires |parts| >= 1
    requires forall i :: 0 <= i < |parts| ==> c !in parts[i]
    ensures Split(Join(parts, [c]), c) == parts
  {
    SplitNoSep(parts[0], c);
    if |parts| > 1 {
      var rest := parts[1..];
      SplitJoin(rest, c);
      JoinCons(parts[0], rest, [c]);
      assert [parts[0]] + rest == parts;
      SplitAppend(parts[0], Join(rest, [c]), c);
    }
  }

  /** Leading whitespace in front of a trimmed text is trimmed away again. */
  lemma {:induction false} TrimStartAfterWhitespace(ws: string, s: string)
    requires forall i :: 0 <= i < |ws| ==> IsWhitespace(ws[i])
    ensures TrimStart(ws + TrimStart(s)) == TrimStart(s)
  {
    if |ws| > 0 {
      assert (ws + TrimStart(s))[1..] == ws[1..] + TrimStart(s);
      TrimStartAfterWhitespace(ws[1..], s);
    } else {
      assert ws + TrimStart(s) == TrimStart(s);
    }
  }

  /**
   * Lower-casing restricted to ASCII: `A`-`Z` become `a`-`z` and every other character is kept.
   * Rust's `to_lowercase` also maps non-ASCII letters, some of them to several characters.
   */
  function Lower(s: string): (r: string)
    ensures |r| == |s|
    ensures forall i :: 0 <= i < |s| ==> r[i] == LowerChar(s[i])
  {
    seq(|s|, i requires 0 <= i < |s| => LowerChar(s[i]))
  }

  function LowerChar(c: char): char {
    if 'A' <= c <= 'Z' then (c as int + 32) as char else c
  }

  /** Lower-casing leaves no ASCII upper-case letter and is idempotent. */
  lemma LowerIdempotent(s: string)
    ensures Lower(Lower(s)) == Lower(s)
    ensures forall i :: 0 <= i < |s| ==> !('A' <= Lower(s)[i] <= 'Z')
  {
  }

  /** The number of bytes of a char in UTF-8. */
  function Utf8Width(c: char): (w: nat)
    ensures 1 <= w <= 4
  {
    if c as int < 0x80 then 1
    else if c as int < 0x800 then 2
    else if c as int < 0x10000 then 3
    else 4
  }

  /** `str::len`: the number of UTF-8 bytes of a string. */
  function ByteLen(s: string): (n: nat)
    ensures |s| <= n <= 4 * |s|
  {
    if |s| == 0 then 0 else ByteLen(s[..|s| - 1]) + Utf8Width(s[|s| - 1])
  }

  lemma {:induction false} ByteLenAppend(a: string, b: string)
    ensures ByteLen(a + b) == ByteLen(a) + ByteLen(b)
    decreases |b|
  {
    if |b| == 0 {
      assert a + b == a;
    } else {
      assert (a + b)[..|a + b| - 1] == a + b[..|b| - 1];
      ByteLenAppend(a, b[..|b| - 1]);
    }
  }

  /** Byte offsets grow strictly with the char index. */
  lemma {:induction false} ByteLenPrefixMono(s: string, i: nat, j: nat)
    requires i < j <= |s|
    ensures ByteLen(s[..i]) < ByteLen(s[..j])
  {
    assert s[..j] == s[..i] + s[i..j];
    ByteLenAppend(s[..i], s[i..j]);
  }

  /** Decimal digits of a number (`Display` for integers). */
  function NatToString(n: nat): (r: string)
    ensures |r| >= 1
    ensures forall i :: 0 <= i < |r| ==> '0' <= r[i] <= '9'
    ensures r[0] == '0' ==> n == 0
    decreases n
  {
    if n < 10 then [DigitChar(n)] else NatToString(n / 10) + [DigitChar(n % 10)]
  }

  function DigitChar(d: nat): (c: char)
    requires d < 10
    ensures '0' <= c <= '9' && c as int - '0' as int == d
  {
    ('0' as int + d) as char
  }

  /** The number a string of decimal digits denotes. */
  function DigitsValue(s: string): nat
    requires forall i :: 0 <= i < |s| ==> '0' <= s[i] <= '9'
  {
    if |s| == 0 then 0 else 10 * DigitsValue(s[..|s| - 1]) + (s[|s| - 1] as int - '0' as int)
  }

  /** Reading the digits back gives the number: the rendering is injective. */
  lemma {:induction false} NatToStringRoundTrip(n: nat)
    ensures DigitsValue(NatToString(n)) == n
    decreases n
  {
    if n >= 10 {
      NatToStringRoundTrip(n / 10);
      var r := NatToString(n);
      assert r[..|r| - 1] == NatToString(n / 10);
    }
  }

  lemma NatToStringInjective(m: nat, n: nat)
    requires NatToString(m) == NatToString(n)
    ensures m == n
  {
    NatToStringRoundTrip(m);
    NatToStringRoundTrip(n);
  }

  /** Rust's `str`/`String` ordering: lexicographic by code point (the same as by UTF-8 bytes). */
  predicate LexLe(a: string, b: string) {
    |a| == 0 || (|b| > 0 && (a[0] < b[0] || (a[0] == b[0] && LexLe(a[1..], b[1..]))))
  }

  lemma {:induction false} LexLeTotal(a: string, b: string)
    ensures LexLe(a, b) || LexLe(b, a)
    decreases |a|
  {
    if |a| > 0 && |b| > 0 && a[0] == b[0] {
      LexLeTotal(a[1..], b[1..]);
    }
  }

  lemma {:induction false} LexLeAntisym(a: string, b: string)
    requires LexLe(a, b) && LexLe(b, a)
    ensures a == b
    decreases |a|
  {
    if |a| > 0 {
      LexLeAntisym(a[1..], b[1..]);
      assert a == [a[0]] + a[1..] && b == [b[0]] + b[1..];
    }
  }

  lemma {:induction false} LexLeTrans(a: string, b: string, c: string)
    requires LexLe(a, b) && LexLe(b, c)
    ensures LexLe(a, c)
    decreases |a|
  {
    if |a| > 0 && a[0] == b[0] && b[0] == c[0] {
      LexLeTrans(a[1..], b[1..], c[1..]);
    }
  }

  /** `{:<w}`: left-aligned in a field of `w` chars. */
  function PadRight(s: string, w: nat): (r: string)
    ensures |r| == (if |s| < w then w else |s|) && r[..|s|] == s
  {
    if |s| < w then s + Repeat(' ', w - |s|) else s
  }

  /** `{:>w}`: right-aligned in a field of `w` chars. */
  function PadLeft(s: string, w: nat): (r: string)
    ensures |r| == (if |s| < w then w else |s|) && r[|r| - |s|..] == s
  {
    if |s| < w then Repeat(' ', w - |s|) + s else s
  }

  /** The concatenation of a sequence of strings. */
  function Concat(parts: seq<string>): string {
    if |parts| == 0 then "" else Concat(parts[..|parts| - 1]) + parts[|parts| - 1]
  }

  lemma {:induction false} ConcatAppend(a: seq<string>, b: seq<string>)
    ensures Concat(a + b) == Concat(a) + Concat(b)
    decreases |b|
  {
    if |b| == 0 {
      assert a + b == a;
    } else {
      var init, x := b[..|b| - 1], b[|b| - 1];
      assert (a + b)[..|a + b| - 1] == a + init;
      assert (a + b)[|a + b| - 1] == x;
      assert Concat(a + b) == Concat(a + init) + x;
      ConcatAppend(a, init);
      AppendAssoc(Concat(a), Concat(init), x);
    }
  }

  lemma ConcatOne(a: string)
    ensures Concat([a]) == a
  {
    assert [a][..0] == [];
  }

  lemma ConcatSnoc(a: seq<string>, x: string)
    ensures Concat(a + [x]) == Concat(a) + x
  {
    assert (a + [x])[..|a|] == a;
  }

  /** The length of the first line of `s[i..]`-onwards, through its `\n` if it has one. */
  function LineEnd(s: string, i: nat): (k: nat)
    requires i < |s|
    decreases |s| - i
    ensures i < k <= |s|
    ensures forall j :: i <= j < k - 1 ==> s[j] != '\n'
    ensures k < |s| ==> s[k - 1] == '\n'
  {
    if s[i] == '\n' || i == |s| - 1 then i + 1 else LineEnd(s, i + 1)
  }

  /**
   * The lines of a text as a line-oriented reader sees them: each keeps its `\n`, and a last
   * line without one is a line too; an empty text has none.
   */
  function LinesWithEndings(s: string): seq<string>
    decreases |s|
  {
    if |s| == 0 then [] else [s[..LineEnd(s, 0)]] + LinesWithEndings(s[LineEnd(s, 0)..])
  }

  /** A line: non-empty, with no `\n` before its last char, which is `\n` unless it is the last. */
  predicate IsLine(x: string, last: bool) {
    |x| > 0 && (forall j :: 0 <= j < |x| - 1 ==> x[j] != '\n') && (!last ==> x[|x| - 1] == '\n')
  }

  /** The lines put back together give the text, and each of them is a line. */
  lemma LinesWithEndingsSound(s: string)
    ensures Concat(LinesWithEndings(s)) == s
    ensures forall i :: 0 <= i < |LinesWithEndings(s)| ==>
      IsLine(LinesWithEndings(s)[i], i == |LinesWithEndings(s)| - 1)
  {
    LinesWithEndingsConcat(s);
    LinesWithEndingsAreLines(s);
  }

  lemma {:induction false} LinesWithEndingsConcat(s: string)
    decreases |s|
    ensures Concat(LinesWithEndings(s)) == s
  {
    if |s| > 0 {
      var k := LineEnd(s, 0);
      LinesWithEndingsConcat(s[k..]);
      ConcatAppend([s[..k]], LinesWithEndings(s[k..]));
      ConcatOne(s[..k]);
      assert s[..k] + s[k..] == s;
    }
  }

  lemma {:induction false} LinesWithEndingsAreLines(s: string)
    decreases |s|
    ensures forall i :: 0 <= i < |LinesWithEndings(s)| ==>
      IsLine(LinesWithEndings(s)[i], i == |LinesWithEndings(s)| - 1)
  {
    if |s| > 0 {
      var k := LineEnd(s, 0);
      var rest := LinesWithEndings(s[k..]);
      LinesWithEndingsAreLines(s[k..]);
      assert |rest| == 0 <==> k == |s|;
      assert IsLine(s[..k], |rest| == 0);
      var r := [s[..k]] + rest;
      forall i | 0 <= i < |r| ensures IsLine(r[i], i == |r| - 1) {
        if i > 0 {
          assert r[i] == rest[i - 1];
        }
      }
    }
  }

  /** Whitespace after a text is trimmed away with the text's own trailing whitespace. */
  lemma {:induction false} TrimEndAppendWhitespace(x: string, ws: string)
    requires forall i :: 0 <= i < |ws| ==> IsWhitespace(ws[i])
    ensures TrimEnd(x + ws) == TrimEnd(x)
    decreases |ws|
  {
    if |ws| == 0 {
      assert x + ws == x;
    } else {
      assert (x + ws)[..|x + ws| - 1] == x + ws[..|ws| - 1];
      TrimEndAppendWhitespace(x, ws[..|ws| - 1]);
    }
  }
}
