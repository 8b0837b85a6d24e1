/** String primitives the scraper takes from Python's `str` type:
    `split()` on whitespace, `split(sep)` on one character, `sep.join`,
    `replace` of one character and `str()` of a natural number. */
module Text {

  /** Python's `str.isspace` (the separator set of `str.split()`). */
  predicate IsSpace(c: char) {
    || c == ' ' || '\t' <= c <= '\r' || '\U{1C}' <= c <= '\U{1F}'
    || c == '\U{85}' || c == '\U{A0}' || c == '\U{1680}' || '\U{2000}' <= c <= '\U{200A}'
    || c == '\U{2028}' || c == '\U{2029}' || c == '\U{202F}' || c == '\U{205F}' || c == '\U{3000}'
  }

  predicate NoSpace(s: string) {
    forall k :: 0 <= k < |s| ==> !IsSpace(s[k])
  }

  /** Length of the longest prefix of `s` without whitespace. */
  function SpanNonSpace(s: string): (n: nat)
    ensures n <= |s|
    ensures NoSpace(s[..n])
    ensures n < |s| ==> IsSpace(s[n])
  {
    if s == [] || IsSpace(s[0]) then 0 else 1 + SpanNonSpace(s[1..])
  }

  /** Python's `s.split()`: the maximal runs of non-whitespace, in order. */
  function Words(s: string): (r: seq<string>)
    ensures forall i :: 0 <= i < |r| ==> r[i] != [] && NoSpace(r[i])
    decreases |s|
  {
    if s == [] then []
    else if IsSpace(s[0]) then Words(s[1..])
    else
      var n := SpanNonSpace(s);
      [s[..n]] + Words(s[n..])
  }

  /** Index of the first `c` in `s`, or `|s|` when there is none. */
  function Find(s: string, c: char): (n: nat)
    ensures n <= |s|
    ensures c !in s[..n]
    ensures n < |s| ==> s[n] == c
  {
    if s == [] then 0
    else if s[0] == c then 0
    else
      var n := 1 + Find(s[1..], c);
      assert s[..n] == [s[0]] + s[1..][..n - 1];
      n
  }

  /** Python's `s.split(c)`: never empty, pieces free of `c`. */
  function SplitOn(s: string, c: char): (r: seq<string>)
    ensures |r| >= 1
    ensures forall i :: 0 <= i < |r| ==> c !in r[i]
    decreases |s|
  {
    var n := Find(s, c);
    if n == |s| then
      assert s[..n] == s;
      [s]
    else [s[..n]] + SplitOn(s[n + 1..], c)
  }

  /** Python's `c.join(parts)`. */
  function JoinOn(parts: seq<string>, c: char): string {
    if parts == [] then []
    else if |parts| == 1 then parts[0]
    else parts[0] + [c] + JoinOn(parts[1..], c)
  }

  /** Python's `s.replace(a, b)` for single characters. */
  function ReplaceChar(s: string, a: char, b: char): (r: string)
    ensures |r| == |s|
    ensures forall k :: 0 <= k < |s| ==> r[k] == (if s[k] == a then b else s[k])
    ensures a != b ==> a !in r
    ensures a !in s ==> r == s
  {
    seq(|s|, k requires 0 <= k < |s| => if s[k] == a then b else s[k])
  }

  predicate IsDigit(c: char) {
    '0' <= c <= '9'
  }

  predicate AllDigits(s: string) {
    forall k :: 0 <= k < |s| ==> IsDigit(s[k])
  }

  function DigitChar(d: nat): (c: char)
    requires d < 10
    ensures IsDigit(c)
  {
    ['0', '1', '2', '3', '4', '5', '6', '7', '8', '9'][d]
  }

  function DigitValue(c: char): (d: nat)
    requires IsDigit(c)
    ensures d < 10 && DigitChar(d) == c
  {
    (c as int - '0' as int) as nat
  }

  /** Value of a decimal numeral, most significant digit first. */
  function ParseDecimal(s: string): nat
    requires AllDigits(s)
  {
    if s == [] then 0 else 10 * ParseDecimal(s[..|s| - 1]) + DigitValue(s[|s| - 1])
  }

  /** Python's `str(n)` for a natural number. */
  function NatToDecimal(n: nat): (r: string)
    ensures |r| >= 1 && AllDigits(r)
    ensures |r| > 1 ==> r[0] != '0'
  {
    if n < 10 then [DigitChar(n)] else NatToDecimal(n / 10) + [DigitChar(n % 10)]
  }

  // ---------------------------------------------------------------------------
  // Lemmas

  /** `str(n)` is a numeral that reads back as `n`. */
  lemma {:induction false} DecimalRoundTrip(n: nat)
    ensures ParseDecimal(NatToDecimal(n)) == n
  {
    if n >= 10 {
      var s := NatToDecimal(n);
      assert s[..|s| - 1] == NatToDecimal(n / 10);
      DecimalRoundTrip(n / 10);
    }
  }

  /** A digit string has no whitespace. */
  lemma DigitsHaveNoSpace(s: string)
    requires AllDigits(s)
    ensures NoSpace(s)
  {
  }

  /** Leading whitespace does not change the words. */
  lemma {:induction false} WordsSkipSpace(w: string, s: string)
    requires forall k :: 0 <= k < |w| ==> IsSpace(w[k])
    ensures Words(w + s) == Words(s)
    decreases |w|
  {
    if w != [] {
      assert (w + s)[0] == w[0];
      assert (w + s)[1..] == w[1..] + s;
      WordsSkipSpace(w[1..], s);
    } else {
      assert w + s == s;
    }
  }

  /** A token followed by whitespace (or nothing) is split off whole. */
  lemma {:induction false} SpanOfToken(t: string, rest: string)
    requires NoSpace(t)
    requires rest == [] || IsSpace(rest[0])
    ensures SpanNonSpace(t + rest) == |t|
    decreases |t|
  {
    if t != [] {
      assert (t + rest)[1..] == t[1..] + rest;
      SpanOfToken(t[1..], rest);
    }
  }

  /** An all-whitespace string has no words. */
  lemma {:induction false} WordsOfBlank(pre: string)
    requires forall k :: 0 <= k < |pre| ==> IsSpace(pre[k])
    ensures Words(pre) == []
  {
    WordsSkipSpace(pre, []);
    assert pre + [] == pre;
  }

  /** The first word is the first whitespace-free run: after leading
      whitespace `pre`, a run `w` ended by whitespace or the end of the
      text is split off whole and the rest is split on its own. With
      `WordsOfBlank` this determines `Words` on every string. */
  lemma {:induction false} WordsCons(pre: string, w: string, rest: string)
    requires forall k :: 0 <= k < |pre| ==> IsSpace(pre[k])
    requires w != [] && NoSpace(w)
    requires rest == [] || IsSpace(rest[0])
    ensures Words(pre + w + rest) == [w] + Words(rest)
  {
    var t := w + rest;
    assert pre + w + rest == pre + t;
    WordsSkipSpace(pre, t);
    SpanOfToken(w, rest);
    assert t[0] == w[0];
    assert t[..|w|] == w;
    assert t[|w|..] == rest;
  }

  /** A non-empty whitespace-free string is its own single word. */
  lemma WordsOfToken(t: string)
    requires t != [] && NoSpace(t)
    ensures Words(t) == [t]
  {
    SpanOfToken(t, []);
    assert t + [] == t;
    assert t[|t|..] == [];
    assert t[..|t|] == t;
  }

  /** `str(n).split() == [str(n)]`. */
  lemma DecimalIsOneWord(n: nat)
    ensures Words(NatToDecimal(n)) == [NatToDecimal(n)]
  {
    DigitsHaveNoSpace(NatToDecimal(n));
    WordsOfToken(NatToDecimal(n));
  }

  /** `" ".join(ts).split() == ts` for non-empty whitespace-free tokens. */
  lemma {:induction false} WordsOfJoin(ts: seq<string>)
    requires forall i :: 0 <= i < |ts| ==> ts[i] != [] && NoSpace(ts[i])
    ensures Words(JoinOn(ts, ' ')) == ts
  {
    if |ts| == 1 {
      WordsOfToken(ts[0]);
    } else if |ts| > 1 {
      var t, rest := ts[0], [' '] + JoinOn(ts[1..], ' ');
      var s := t + rest;
      assert JoinOn(ts, ' ') == s;
      SpanOfToken(t, rest);
      assert s[..|t|] == t;
      assert s[|t|..] == rest;
      WordsSkipSpace([' '], JoinOn(ts[1..], ' '));
      WordsOfJoin(ts[1..]);
      assert ts == [t] + ts[1..];
    }
  }

  /** Splitting on `c` across an occurrence of `c` splits each side separately. */
  lemma {:induction false} SplitAcross(a: string, b: string, c: char)
    requires c !in a
    ensures SplitOn(a + [c] + b, c) == [a] + SplitOn(b, c)
  {
    var s := a + [c] + b;
    assert s[..|a|] == a;
    assert s[|a|] == c;
    assert Find(s, c) == |a|;
    assert s[|a| + 1..] == b;
  }

  /** `s.split(c)` is `[s]` exactly when `c` does not occur in `s`. */
  lemma SplitOfFree(s: string, c: char)
    requires c !in s
    ensures SplitOn(s, c) == [s]
  {
  }

  /** `c.join(s.split(c)) == s`. */
  lemma {:induction false} JoinOfSplit(s: string, c: char)
    ensures JoinOn(SplitOn(s, c), c) == s
    decreases |s|
  {
    var n := Find(s, c);
    if n < |s| {
      var tail := s[n + 1..];
      JoinOfSplit(tail, c);
      var r := SplitOn(s, c);
      assert r == [s[..n]] + SplitOn(tail, c);
      assert r[1..] == SplitOn(tail, c);
      assert s == s[..n] + [c] + tail;
    } else {
      assert s[..n] == s;
    }
  }

  /** `c.join(parts).split(c) == parts` when no part contains `c` and
      there is at least one part; `c.join([]).split(c) == ['']`. */
  lemma {:induction false} SplitOfJoin(parts: seq<string>, c: char)
    requires forall i :: 0 <= i < |parts| ==> c !in parts[i]
    ensures SplitOn(JoinOn(parts, c), c) == if parts == [] then [""] else parts
  {
    if parts == [] {
      SplitOfFree("", c);
    } else if |parts| == 1 {
      SplitOfFree(parts[0], c);
    } else {
      SplitAcross(parts[0], JoinOn(parts[1..], c), c);
      SplitOfJoin(parts[1..], c);
      assert parts == [parts[0]] + parts[1..];
    }
  }

  /** `s.split(c)` has at least two pieces exactly when `c` occurs in `s`. */
  lemma SplitCount(s: string, c: char)
    ensures |SplitOn(s, c)| >= 2 <==> c in s
  {
    if c !in s {
      SplitOfFree(s, c);
    }
  }

  /** The first `c` of `a` is the first `c` of any extension of `a`. */
  lemma FindInPrefix(a: string, rest: string, c: char)
    requires c in a
    ensures Find(a, c) < |a|
    ensures Find(a + rest, c) == Find(a, c)
  {
    var n := Find(a, c);
    assert (a + rest)[n] == c;
  }

  lemma AppendAssoc<T>(x: seq<T>, y: seq<T>, z: seq<T>)
    ensures x + (y + z) == (x + y) + z
  {
  }

  lemma LastOfAppend<T>(x: seq<T>, y: seq<T>)
    requires |y| >= 1
    ensures (x + y)[|x + y| - 1] == y[|y| - 1]
  {
  }

  lemma SuffixOfSuffix<T>(s: seq<T>, k: nat, m: nat)
    requires k + m <= |s|
    ensures s[k..][m..] == s[k + m..]
  {
  }

  /** One step of `SplitOn` at the first separator. */
  lemma SplitStep(s: string, c: char)
    requires Find(s, c) < |s|
    ensures SplitOn(s, c) == [s[..Find(s, c)]] + SplitOn(s[Find(s, c) + 1..], c)
  {
  }

  /** Splitting a concatenation across one separator concatenates the splits. */
  lemma {:induction false} SplitConcat(a: string, b: string, c: char)
    ensures SplitOn(a + [c] + b, c) == SplitOn(a, c) + SplitOn(b, c)
    decreases |a|
  {
    if c !in a {
      SplitAcross(a, b, c);
      SplitOfFree(a, c);
    } else {
      var rest := [c] + b;
      var s := a + rest;
      assert a + [c] + b == s;
      FindInPrefix(a, rest, c);
      var n := Find(a, c);
      var a2 := a[n + 1..];
      assert s[..n] == a[..n];
      assert s[n + 1..] == a2 + [c] + b;
      SplitStep(s, c);
      SplitStep(a, c);
      SplitConcat(a2, b, c);
      var head, t, u := [a[..n]], SplitOn(a2, c), SplitOn(b, c);
      assert SplitOn(s, c) == head + (t + u);
      assert SplitOn(a, c) == head + t;
      AppendAssoc(head, t, u);
    }
  }

  /** `last` is the part of `s` after its last `c` (or all of `s`). */
  predicate EndsAfterSep(s: string, last: string, c: char)
  {
    && |last| <= |s| && s[|s| - |last|..] == last
    && (last == s || s[|s| - |last| - 1] == c)
  }

  /** Prefixing `pre + [c]` keeps a tail's last segment the last segment. */
  lemma EndsAfterSepExtend(pre: string, tail: string, last: string, c: char)
    requires EndsAfterSep(tail, last, c)
    ensures EndsAfterSep(pre + [c] + tail, last, c)
  {
    var s := pre + [c] + tail;
    var k := |tail| - |last|;
    assert s[|pre| + 1..] == tail;
    SuffixOfSuffix(s, |pre| + 1, k);
    if last == tail {
      assert s[|s| - |last| - 1] == s[|pre|];
    } else {
      assert s[|s| - |last| - 1] == tail[k - 1];
    }
  }

  /** The last piece of `s.split(c)` is the part of `s` after its last `c`:
      a suffix of `s`, either all of `s` or preceded by `c`. */
  lemma {:induction false} LastPiece(s: string, c: char)
    ensures EndsAfterSep(s, SplitOn(s, c)[|SplitOn(s, c)| - 1], c)
    decreases |s|
  {
    var n := Find(s, c);
    if n < |s| {
      var pre, tail := s[..n], s[n + 1..];
      assert s == pre + [c] + tail;
      LastPiece(tail, c);
      var rest := SplitOn(tail, c);
      var last := rest[|rest| - 1];
      EndsAfterSepExtend(pre, tail, last, c);
      SplitStep(s, c);
      LastOfAppend([pre], rest);
    } else {
      assert s[..n] == s;
    }
  }

  /** `id` and `last` are the last two pieces of `s` split on `c`: `last`
      ends `s`, one `c` precedes it, `id` precedes that `c`, and `id` starts
      `s` or follows another `c`. */
  predicate PieceBeforeLast(s: string, id: string, last: string, c: char)
  {
    && |id| + |last| + 1 <= |s|
    && var start := |s| - |last| - 1 - |id|;
    && s[start..start + |id|] == id
    && s[start + |id|] == c
    && s[|s| - |last|..] == last
    && (start == 0 || s[start - 1] == c)
  }

  /** Prefixing `pre + [c]` keeps the last two pieces in place. */
  lemma PieceBeforeLastExtend(pre: string, tail: string, id: string, last: string, c: char)
    requires PieceBeforeLast(tail, id, last, c)
    ensures PieceBeforeLast(pre + [c] + tail, id, last, c)
  {
    var s := pre + [c] + tail;
    var start := |tail| - |last| - 1 - |id|;
    var off := |pre| + 1;
    assert s[off..] == tail;
    SuffixOfSuffix(s, off, start);
    SuffixOfSuffix(s, off, |tail| - |last|);
    assert s[off + start..][..|id|] == s[off + start..off + start + |id|];
    assert s[off + start + |id|] == tail[start + |id|];
    if start == 0 {
      assert s[off + start - 1] == c;
    } else {
      assert s[off + start - 1] == tail[start - 1];
    }
  }

  /** With a single `c`, the pieces are the parts on either side of it. */
  lemma PieceBeforeLastBase(pre: string, tail: string, c: char)
    requires c !in pre && c !in tail
    ensures PieceBeforeLast(pre + [c] + tail, pre, tail, c)
  {
    var s := pre + [c] + tail;
    assert s[..|pre|] == pre;
    assert s[|s| - |tail|..] == tail;
  }

  lemma LastTwoOfAppend<T>(x: seq<T>, y: seq<T>)
    requires |y| >= 2
    ensures (x + y)[|x + y| - 2] == y[|y| - 2] && (x + y)[|x + y| - 1] == y[|y| - 1]
  {
  }

  /** The second-to-last piece of `s.split(c)` is the run of `s` just before
      its last `c`. */
  lemma {:induction false} SecondLastPiece(s: string, c: char)
    requires |SplitOn(s, c)| >= 2
    ensures PieceBeforeLast(s, SplitOn(s, c)[|SplitOn(s, c)| - 2], SplitOn(s, c)[|SplitOn(s, c)| - 1], c)
    decreases |s|
  {
    var n := Find(s, c);
    var pre, tail := s[..n], s[n + 1..];
    assert s == pre + [c] + tail;
    SplitStep(s, c);
    var rest := SplitOn(tail, c);
    if |rest| >= 2 {
      SecondLastPiece(tail, c);
      PieceBeforeLastExtend(pre, tail, rest[|rest| - 2], rest[|rest| - 1], c);
      LastTwoOfAppend([pre], rest);
    } else {
      SplitCount(tail, c);
      PieceBeforeLastBase(pre, tail, c);
      SplitOfFree(tail, c);
    }
  }
}
