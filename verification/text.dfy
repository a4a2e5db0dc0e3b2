/** String primitives the system relies on, over the ASCII subset: case mapping,
    whitespace runs, trimming, digit filtering, decimal conversion and substring search. */
module Text {
  import opened Wrappers

  /** ASCII whitespace: the part of JavaScript's `\s` class this model covers. */
  predicate IsSpace(c: char) {
    c == ' ' || c == '\t' || c == '\n' || c == '\r' || c == '\U{000B}' || c == '\U{000C}'
  }

  predicate IsUpper(c: char) {
    'A' <= c <= 'Z'
  }

  predicate IsDigit(c: char) {
    '0' <= c <= '9'
  }

  predicate NoSpace(s: string) {
    forall i :: 0 <= i < |s| ==> !IsSpace(s[i])
  }

  predicate AllSpace(s: string) {
    forall i :: 0 <= i < |s| ==> IsSpace(s[i])
  }

  predicate AllDigits(s: string) {
    forall i :: 0 <= i < |s| ==> IsDigit(s[i])
  }

  function LowerChar(c: char): char {
    if IsUpper(c) then (c as int + 32) as char else c
  }

  /** `toLowerCase()` restricted to ASCII letters: the same length, no capital left, and
      every character either kept or a capital replaced by its small letter. */
  function ToLower(s: string): (r: string)
    ensures |r| == |s|
    ensures forall i :: 0 <= i < |r| ==> !IsUpper(r[i])
    ensures forall i :: 0 <= i < |r| ==> r[i] == s[i] || (IsUpper(s[i]) && r[i] as int == s[i] as int + 32)
  {
    seq(|s|, i requires 0 <= i < |s| => LowerChar(s[i]))
  }

  /** Lower-casing twice is lower-casing once. */
  lemma ToLowerIdempotent(s: string)
    ensures ToLower(ToLower(s)) == ToLower(s)
  {
  }

  // ---------------------------------------------------------------------------
  // Whitespace runs and slugs
  // ---------------------------------------------------------------------------

  /** Drops the whitespace run at the front of `s`. */
  function DropSpaces(s: string): (r: string)
    ensures |r| <= |s| && r == s[|s| - |r|..]
    ensures r == [] || !IsSpace(r[0])
    ensures AllSpace(s[..|s| - |r|])
    ensures s != [] && IsSpace(s[0]) ==> |r| < |s|
  {
    if s != [] && IsSpace(s[0]) then DropSpaces(s[1..]) else s
  }

  /** `s.replace(/\s+/g, '-')`: every maximal whitespace run becomes one dash, so the
      result is never longer, and empty only for empty text. */
  function CollapseSpaces(s: string): (r: string)
    ensures |r| <= |s| && (r == [] <==> s == [])
    decreases |s|
  {
    if s == [] then []
    else if IsSpace(s[0]) then "-" + CollapseSpaces(DropSpaces(s))
    else [s[0]] + CollapseSpaces(s[1..])
  }

  /** The hurricane key: `name.toLowerCase().replace(/\s+/g, '-')`. It is no longer than the
      name and empty only for an empty name (`SlugIsKey`: it holds no whitespace and no capital). */
  function Slug(name: string): (r: string)
    ensures |r| <= |name| && (r == [] <==> name == [])
  {
    CollapseSpaces(ToLower(name))
  }

  /** A slug holds no whitespace and no capital letter. */
  lemma SlugIsKey(name: string)
    ensures NoSpace(Slug(name)) && forall i :: 0 <= i < |Slug(name)| ==> !IsUpper(Slug(name)[i])
  {
    var lower := ToLower(name);
    CollapseSpacesChars(lower);
    assert forall i :: 0 <= i < |lower| ==> !IsUpper(lower[i]);
  }

  /** Every character of a collapsed string is a dash or a non-space character of the input. */
  lemma {:induction false} CollapseSpacesChars(s: string)
    ensures NoSpace(CollapseSpaces(s))
    ensures forall i :: 0 <= i < |CollapseSpaces(s)| ==> CollapseSpaces(s)[i] == '-' || CollapseSpaces(s)[i] in s
    decreases |s|
  {
    if s == [] {
    } else if IsSpace(s[0]) {
      var t := DropSpaces(s);
      CollapseSpacesChars(t);
      assert CollapseSpaces(s) == ['-'] + CollapseSpaces(t);
      ConsChars('-', CollapseSpaces(t), t, s);
    } else {
      var t := s[1..];
      CollapseSpacesChars(t);
      assert CollapseSpaces(s) == [s[0]] + CollapseSpaces(t);
      ConsChars(s[0], CollapseSpaces(t), t, s);
    }
  }

  /** A non-space character from `s` (or a dash) in front of a collapsed suffix `t` of `s`. */
  lemma ConsChars(c: char, r: string, t: string, s: string)
    requires !IsSpace(c) && (c == '-' || c in s)
    requires |t| <= |s| && t == s[|s| - |t|..]
    requires NoSpace(r) && forall i :: 0 <= i < |r| ==> r[i] == '-' || r[i] in t
    ensures NoSpace([c] + r)
    ensures forall i :: 0 <= i < |[c] + r| ==> ([c] + r)[i] == '-' || ([c] + r)[i] in s
  {
    forall i | 0 < i < |[c] + r|
      ensures !IsSpace(([c] + r)[i]) && (([c] + r)[i] == '-' || ([c] + r)[i] in s)
    {
      assert ([c] + r)[i] == r[i - 1];
      if r[i - 1] != '-' {
        var k :| 0 <= k < |t| && t[k] == r[i - 1];
        assert t[k] == s[|s| - |t| + k];
      }
    }
  }

  /** A string without whitespace is left as it is. */
  lemma {:induction false} CollapseNoSpace(w: string)
    requires NoSpace(w)
    ensures CollapseSpaces(w) == w
    decreases |w|
  {
    if w != [] {
      CollapseNoSpace(w[1..]);
      assert w == [w[0]] + w[1..];
    }
  }

  /** A word, then a whitespace run, then text starting with a non-space
      character: the run turns into exactly one dash between them. */
  lemma CollapseWordRun(w: string, run: string, rest: string)
    requires NoSpace(w)
    requires |run| > 0 && AllSpace(run)
    requires rest == [] || !IsSpace(rest[0])
    ensures CollapseSpaces(w + run + rest) == w + "-" + CollapseSpaces(rest)
  {
    var x, t := run + rest, CollapseSpaces(rest);
    AppendAssoc(w, run, rest);
    CollapseWordPrefix(w, x);
    CollapseRunFront(run, rest);
    AppendAssoc(w, "-", t);
  }

  /** A whitespace-free prefix passes through unchanged. */
  lemma {:induction false} CollapseWordPrefix(w: string, x: string)
    requires NoSpace(w)
    ensures CollapseSpaces(w + x) == w + CollapseSpaces(x)
    decreases |w|
  {
    if w != [] {
      var u, t := w[1..], CollapseSpaces(x);
      CollapseWordStep(w, x);
      NoSpaceTail(w);
      CollapseWordPrefix(u, x);
      ConsTail(w, t);
    } else {
      assert w + x == x;
    }
  }

  lemma AppendAssoc(a: string, b: string, c: string)
    ensures a + b + c == a + (b + c)
  {
  }

  lemma NoSpaceTail(w: string)
    requires w != [] && NoSpace(w)
    ensures NoSpace(w[1..])
  {
    forall i | 0 <= i < |w[1..]|
      ensures !IsSpace(w[1..][i])
    {
      assert w[1..][i] == w[i + 1];
    }
  }

  lemma ConsTail(w: string, t: string)
    requires w != []
    ensures [w[0]] + (w[1..] + t) == w + t
  {
    assert [w[0]] + w[1..] == w;
  }

  /** A leading whitespace run becomes one dash. */
  lemma CollapseRunFront(run: string, rest: string)
    requires |run| > 0 && AllSpace(run)
    requires rest == [] || !IsSpace(rest[0])
    ensures CollapseSpaces(run + rest) == "-" + CollapseSpaces(rest)
  {
    assert IsSpace((run + rest)[0]);
    DropRun(run, rest);
  }

  /** A leading non-space character is kept. */
  lemma CollapseWordStep(w: string, x: string)
    requires w != [] && !IsSpace(w[0])
    ensures CollapseSpaces(w + x) == [w[0]] + CollapseSpaces(w[1..] + x)
  {
    assert (w + x)[0] == w[0];
    assert (w + x)[1..] == w[1..] + x;
  }

  lemma {:induction false} DropRun(run: string, rest: string)
    requires AllSpace(run)
    requires rest == [] || !IsSpace(rest[0])
    ensures DropSpaces(run + rest) == rest
    decreases |run|
  {
    if run != [] {
      assert (run + rest)[1..] == run[1..] + rest;
      DropRun(run[1..], rest);
    } else {
      assert run + rest == rest;
    }
  }

  /** A slug is its own slug: keys are stable under re-slugging. */
  lemma SlugIdempotent(name: string)
    ensures Slug(Slug(name)) == Slug(name)
  {
    var lower := ToLower(name);
    var s := CollapseSpaces(lower);
    CollapseSpacesChars(lower);
    assert forall i :: 0 <= i < |lower| ==> !IsUpper(lower[i]);
    assert ToLower(s) == s by {
      forall i | 0 <= i < |s|
        ensures LowerChar(s[i]) == s[i]
      {
        if s[i] != '-' {
          assert s[i] in lower;
        }
      }
    }
    CollapseNoSpace(s);
  }

  // ---------------------------------------------------------------------------
  // Trimming
  // ---------------------------------------------------------------------------

  /** Drops the whitespace run at the end of `s`. */
  function TrimEnd(s: string): (r: string)
    ensures |r| <= |s| && r == s[..|r|]
    ensures r == [] || !IsSpace(r[|r| - 1])
    ensures AllSpace(s[|r|..])
  {
    if s != [] && IsSpace(s[|s| - 1]) then TrimEnd(s[..|s| - 1]) else s
  }

  /** `String.prototype.trim` over ASCII whitespace: the result is the slice of `s`
      left once the leading and trailing whitespace runs are removed. */
  function Trim(s: string): (r: string)
    ensures |r| <= |s|
    ensures r == [] || (!IsSpace(r[0]) && !IsSpace(r[|r| - 1]))
    ensures exists a :: TrimmedAt(s, r, a)
  {
    var t := DropSpaces(s);
    var r := TrimEnd(t);
    TrimSlice(s, t, r);
    r
  }

  /** `r` is the slice of `s` at offset `a` with only whitespace around it. */
  predicate TrimmedAt(s: string, r: string, a: int) {
    0 <= a && a + |r| <= |s| && r == s[a..a + |r|] && AllSpace(s[..a]) && AllSpace(s[a + |r|..])
  }

  lemma TrimSlice(s: string, t: string, r: string)
    requires |t| <= |s| && t == s[|s| - |t|..] && AllSpace(s[..|s| - |t|])
    requires |r| <= |t| && r == t[..|r|] && AllSpace(t[|r|..])
    ensures TrimmedAt(s, r, |s| - |t|)
  {
    var a := |s| - |t|;
    assert s[a + |r|..] == t[|r|..];
  }

  // ---------------------------------------------------------------------------
  // Digits and decimal numbers
  // ---------------------------------------------------------------------------

  /** `s.replace(/[^\d]/g, '')`: the digit characters of `s`, in order. */
  function Digits(s: string): (r: string)
    ensures AllDigits(r) && |r| <= |s|
  {
    if s == [] then [] else (if IsDigit(s[0]) then [s[0]] else []) + Digits(s[1..])
  }

  lemma {:induction false} DigitsAppend(a: string, b: string)
    ensures Digits(a + b) == Digits(a) + Digits(b)
    decreases |a|
  {
    if a == [] {
      assert a + b == b;
    } else {
      var head := if IsDigit(a[0]) then [a[0]] else [];
      assert (a + b)[0] == a[0] && (a + b)[1..] == a[1..] + b;
      assert Digits(a + b) == head + Digits(a[1..] + b);
      DigitsAppend(a[1..], b);
      assert Digits(a) == head + Digits(a[1..]);
      assert head + (Digits(a[1..]) + Digits(b)) == (head + Digits(a[1..])) + Digits(b);
    }
  }

  /** Filtering the digits of a digit string changes nothing. */
  lemma {:induction false} DigitsOfDigits(d: string)
    requires AllDigits(d)
    ensures Digits(d) == d
    decreases |d|
  {
    if d != [] {
      DigitsOfDigits(d[1..]);
      assert d == [d[0]] + d[1..];
    }
  }

  function DigitValue(c: char): nat
    requires IsDigit(c)
  {
    c as int - '0' as int
  }

  function DigitChar(d: nat): char
    requires d < 10
  {
    ('0' as int + d) as char
  }

  /** The value of a decimal digit string; the empty string reads as 0. */
  function DecimalValue(s: string): nat
    requires AllDigits(s)
  {
    if s == [] then 0 else 10 * DecimalValue(s[..|s| - 1]) + DigitValue(s[|s| - 1])
  }

  /** `n.toString()` for a natural number. */
  function NatToString(n: nat): (r: string)
    ensures |r| > 0 && AllDigits(r)
    ensures |r| > 1 ==> r[0] != '0'
  {
    if n < 10 then [DigitChar(n)] else NatToString(n / 10) + [DigitChar(n % 10)]
  }

  /** Reading back a rendered number gives the number. */
  lemma {:induction false} DecimalRoundTrip(n: nat)
    ensures DecimalValue(NatToString(n)) == n
  {
    if n >= 10 {
      var r := NatToString(n);
      assert r[..|r| - 1] == NatToString(n / 10);
      DecimalRoundTrip(n / 10);
    }
  }

  function Pow10(k: nat): (r: nat)
    ensures r >= 1
  {
    if k == 0 then 1 else 10 * Pow10(k - 1)
  }

  /** A number below `10^w` renders in at most `w` digits. */
  lemma {:induction false} NatToStringLength(n: nat, w: nat)
    requires 1 <= w && n < Pow10(w)
    ensures |NatToString(n)| <= w
  {
    if n >= 10 {
      assert Pow10(1) == 10;
      assert n / 10 < Pow10(w - 1);
      NatToStringLength(n / 10, w - 1);
    }
  }

  function Zeros(k: nat): (r: string)
    ensures |r| == k && AllDigits(r)
  {
    seq(k, i => '0')
  }

  /** `s.padStart(w, '0')`: zeros are prepended up to width `w`. */
  function PadZeros(s: string, w: nat): (r: string)
    ensures |r| == if |s| >= w then |s| else w
    ensures r == Zeros(|r| - |s|) + s
  {
    if |s| >= w then (assert s == Zeros(0) + s; s) else Zeros(w - |s|) + s
  }

  /** `n.toString().padStart(w, '0')`: a digit string of width at least `w` that reads back
      as `n`, of width exactly `w` when `n` has at most `w` digits. */
  function ZeroPad(n: nat, w: nat): (r: string)
    ensures AllDigits(r) && DecimalValue(r) == n
    ensures |r| >= w
    ensures 1 <= w && n < Pow10(w) ==> |r| == w
  {
    ZeroPadSpec(n, w);
    PadZeros(NatToString(n), w)
  }

  lemma ZeroPadSpec(n: nat, w: nat)
    ensures var r := PadZeros(NatToString(n), w);
            && AllDigits(r) && DecimalValue(r) == n
            && (1 <= w && n < Pow10(w) ==> |r| == w)
  {
    var digits := NatToString(n);
    DecimalRoundTrip(n);
    LeadingZeros(if |digits| >= w then 0 else w - |digits|, digits);
    if 1 <= w && n < Pow10(w) {
      NatToStringLength(n, w);
    }
  }

  /** Leading zeros do not change a decimal value. */
  lemma {:induction false} LeadingZeros(k: nat, s: string)
    requires AllDigits(s)
    ensures AllDigits(Zeros(k) + s) && DecimalValue(Zeros(k) + s) == DecimalValue(s)
    decreases |s|
  {
    var z := Zeros(k) + s;
    if s == [] {
      assert z == Zeros(k);
      ZerosValue(k);
    } else {
      assert z[..|z| - 1] == Zeros(k) + s[..|s| - 1];
      LeadingZeros(k, s[..|s| - 1]);
    }
  }

  lemma {:induction false} ZerosValue(k: nat)
    ensures DecimalValue(Zeros(k)) == 0
  {
    if k > 0 {
      assert Zeros(k)[..k - 1] == Zeros(k - 1);
      ZerosValue(k - 1);
    }
  }

  // ---------------------------------------------------------------------------
  // Substrings
  // ---------------------------------------------------------------------------

  predicate OccursAt(s: string, p: string, i: int) {
    0 <= i && i + |p| <= |s| && s[i..i + |p|] == p
  }

  /** `s.includes(p)`. */
  predicate Contains(s: string, p: string) {
    exists i | 0 <= i <= |s| :: OccursAt(s, p, i)
  }

  /** The first occurrence of `p` in `s` at or after `from`. */
  function IndexOf(s: string, p: string, from: nat): (r: Option<nat>)
    ensures r.Some? ==> from <= r.value && OccursAt(s, p, r.value)
                        && forall j :: from <= j < r.value ==> !OccursAt(s, p, j)
    ensures r.None? ==> forall j :: from <= j ==> !OccursAt(s, p, j)
    decreases |s| - from
  {
    if from + |p| > |s| then None
    else if OccursAt(s, p, from) then Some(from)
    else IndexOf(s, p, from + 1)
  }

  /** A pattern holding a character the text lacks cannot occur in it. */
  lemma NotContainsByChar(s: string, p: string, k: nat)
    requires k < |p| && p[k] !in s
    ensures !Contains(s, p)
  {
    forall i | 0 <= i && i + |p| <= |s|
      ensures !OccursAt(s, p, i)
    {
      assert s[i..i + |p|][k] == s[i + k];
    }
  }
}
