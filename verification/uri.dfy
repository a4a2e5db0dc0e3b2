/** `encodeURIComponent` over Unicode scalar values, and the decoder that inverts it: the
    unreserved characters pass through and every other character is written as the
    percent-encoded bytes of its UTF-8 form, with upper-case hexadecimal digits. */
module Uri {
  import opened Wrappers

  type Byte = b: int | 0 <= b < 256

  /** The characters `encodeURIComponent` leaves alone: ASCII letters and digits and `-_.!~*'()`. */
  predicate Unreserved(c: char) {
    || 'A' <= c <= 'Z' || 'a' <= c <= 'z' || '0' <= c <= '9'
    || c == '-' || c == '_' || c == '.' || c == '!' || c == '~' || c == '*' || c == '\'' || c == '(' || c == ')'
  }

  predicate HexUpper(c: char) {
    '0' <= c <= '9' || 'A' <= c <= 'F'
  }

  /** A character an encoded component may hold: it never contains `&`, `=`, `?`, `#`, `/`,
      a space, or anything else that would end or split a query value. */
  predicate Encoded(c: char) {
    Unreserved(c) || c == '%'
  }

  function HexDigit(d: int): (c: char)
    requires 0 <= d < 16
    ensures HexUpper(c)
  {
    if d < 10 then ('0' as int + d) as char else ('A' as int + d - 10) as char
  }

  function HexValue(c: char): Option<int> {
    if '0' <= c <= '9' then Some(c as int - '0' as int)
    else if 'A' <= c <= 'F' then Some(c as int - 'A' as int + 10)
    else if 'a' <= c <= 'f' then Some(c as int - 'a' as int + 10)
    else None
  }

  /** The UTF-8 bytes of a scalar value. */
  function Utf8(c: char): (r: seq<Byte>)
    ensures 1 <= |r| <= 4
  {
    var n := c as int;
    if n < 0x80 then [n]
    else if n < 0x800 then [0xC0 + n / 64, 0x80 + n % 64]
    else if n < 0x10000 then [0xE0 + n / 4096, 0x80 + (n / 64) % 64, 0x80 + n % 64]
    else [0xF0 + n / 262144, 0x80 + (n / 4096) % 64, 0x80 + (n / 64) % 64, 0x80 + n % 64]
  }

  function Percent(bytes: seq<Byte>): (r: string)
    ensures |r| == 3 * |bytes|
  {
    if bytes == [] then []
    else ['%', HexDigit(bytes[0] / 16), HexDigit(bytes[0] % 16)] + Percent(bytes[1..])
  }

  /** How one character is written. */
  function EncodeChar(c: char): (r: string)
    ensures |r| > 0
  {
    if Unreserved(c) then [c] else Percent(Utf8(c))
  }

  /** `encodeURIComponent(s)`. */
  function Encode(s: string): (r: string)
    ensures forall i :: 0 <= i < |r| ==> Encoded(r[i]) || HexUpper(r[i])
  {
    if s == [] then []
    else
      EncodedChars(s[0]);
      EncodeChar(s[0]) + Encode(s[1..])
  }

  lemma EncodedChars(c: char)
    ensures forall i :: 0 <= i < |EncodeChar(c)| ==> Encoded(EncodeChar(c)[i]) || HexUpper(EncodeChar(c)[i])
  {
    if !Unreserved(c) {
      var r := EncodeChar(c);
      forall i | 0 <= i < |r|
        ensures Encoded(r[i]) || HexUpper(r[i])
      {
        var k := i / 3;
        PercentAt(Utf8(c), k);
        assert i == 3 * k || i == 3 * k + 1 || i == 3 * k + 2;
      }
    }
  }

  // ---------------------------------------------------------------------------
  // Decoding
  // ---------------------------------------------------------------------------

  /** The byte written as `%XY` at offset `3 * k`. */
  function ByteAt(s: string, k: nat): Option<Byte> {
    if |s| < 3 * k + 3 || s[3 * k] != '%' then None
    else match (HexValue(s[3 * k + 1]), HexValue(s[3 * k + 2]))
      case (Some(h), Some(l)) => if 0 <= h < 16 && 0 <= l < 16 then Some(16 * h + l) else None
      case _ => None
  }

  /** The bytes written at offsets `0, 3, ..., 3 * (n - 1)`. */
  function BytesAt(s: string, n: nat): (r: Option<seq<Byte>>)
    ensures r.Some? ==> |r.value| == n && forall k :: 0 <= k < n ==> ByteAt(s, k) == Some(r.value[k])
  {
    if n == 0 then Some([])
    else match (BytesAt(s, n - 1), ByteAt(s, n - 1))
      case (Some(bs), Some(b)) => Some(bs + [b])
      case _ => None
  }

  /** The length of the UTF-8 sequence a lead byte opens, or 0 for a byte that opens none. */
  function SequenceLength(b: Byte): nat {
    if b < 0x80 then 1
    else if 0xC0 <= b < 0xE0 then 2
    else if 0xE0 <= b < 0xF0 then 3
    else if 0xF0 <= b < 0xF8 then 4
    else 0
  }

  /** The smallest scalar value a sequence of each length may carry (longer forms are rejected). */
  function MinValue(n: nat): int {
    if n == 2 then 0x80 else if n == 3 then 0x800 else if n == 4 then 0x10000 else 0
  }

  function Utf8Value(bs: seq<Byte>): int
    requires 1 <= |bs| <= 4
  {
    var b := seq(|bs|, i requires 0 <= i < |bs| => bs[i] as int);
    if |b| == 1 then b[0]
    else if |b| == 2 then (b[0] - 0xC0) * 64 + (b[1] - 0x80)
    else if |b| == 3 then (b[0] - 0xE0) * 4096 + (b[1] - 0x80) * 64 + (b[2] - 0x80)
    else (b[0] - 0xF0) * 262144 + (b[1] - 0x80) * 4096 + (b[2] - 0x80) * 64 + (b[3] - 0x80)
  }

  predicate Scalar(n: int) {
    0 <= n < 0xD800 || 0xE000 <= n < 0x110000
  }

  /** The first character of an encoded string and how many characters it took. */
  function DecodeOne(s: string): (r: Option<(char, nat)>)
    ensures r.Some? ==> 0 < r.value.1 <= |s|
  {
    if s == [] then None
    else if s[0] != '%' then Some((s[0], 1))
    else match ByteAt(s, 0)
      case None => None
      case Some(lead) =>
        var n := SequenceLength(lead);
        if n == 0 then None
        else match BytesAt(s, n)
          case None => None
          case Some(bs) =>
            if exists k :: 1 <= k < n && !(0x80 <= bs[k] < 0xC0) then None
            else
              var v := Utf8Value(bs);
              if Scalar(v) && v >= MinValue(n) then Some((v as char, 3 * n)) else None
  }

  /** `decodeURIComponent(s)`, with `None` for a malformed escape. */
  function Decode(s: string): Option<string>
    decreases |s|
  {
    if s == [] then Some([])
    else match DecodeOne(s)
      case None => None
      case Some((c, used)) =>
        match Decode(s[used..])
        case None => None
        case Some(rest) => Some([c] + rest)
  }

  /** Decoding an encoded string gives the string back. */
  lemma {:induction false} DecodeEncode(s: string)
    ensures Decode(Encode(s)) == Some(s)
    decreases |s|
  {
    if s != [] {
      var head := EncodeChar(s[0]);
      var e := Encode(s);
      assert e == head + Encode(s[1..]);
      DecodeOneEncoded(s[0], Encode(s[1..]));
      assert e != [] && DecodeOne(e) == Some((s[0], |head|));
      assert e[|head|..] == Encode(s[1..]);
      DecodeEncode(s[1..]);
      assert Decode(e) == Some([s[0]] + s[1..]);
      assert s == [s[0]] + s[1..];
    }
  }

  /** The first character of an encoding is read back from it, whatever follows. */
  lemma DecodeOneEncoded(c: char, rest: string)
    ensures DecodeOne(EncodeChar(c) + rest) == Some((c, |EncodeChar(c)|))
  {
    var s := EncodeChar(c) + rest;
    if !Unreserved(c) {
      var bs := Utf8(c);
      var n := |bs|;
      Utf8Shape(c);
      assert s == Percent(bs) + rest;
      PercentBytes(bs, rest);
      ByteAtEncoded(bs, rest, 0);
      DecodeOneSequence(s, bs, c);
    }
  }

  /** The bytes written by `Percent` are read back, whatever follows them. */
  lemma PercentBytes(bs: seq<Byte>, rest: string)
    ensures BytesAt(Percent(bs) + rest, |bs|) == Some(bs)
  {
    forall k | 0 <= k < |bs|
      ensures ByteAt(Percent(bs) + rest, k) == Some(bs[k])
    {
      ByteAtEncoded(bs, rest, k);
    }
    BytesAtAll(Percent(bs) + rest, bs, |bs|);
    assert bs[..|bs|] == bs;
  }

  lemma ByteAtEncoded(bs: seq<Byte>, rest: string, k: nat)
    requires k < |bs|
    ensures (Percent(bs) + rest)[3 * k] == '%'
    ensures ByteAt(Percent(bs) + rest, k) == Some(bs[k])
  {
    var s := Percent(bs) + rest;
    HexRoundTrip(bs[k]);
    PercentAt(bs, k);
    assert s[3 * k] == Percent(bs)[3 * k];
    assert s[3 * k + 1] == Percent(bs)[3 * k + 1];
    assert s[3 * k + 2] == Percent(bs)[3 * k + 2];
  }

  /** A string opening with the percent-encoded UTF-8 form of `c` decodes to `c`. */
  lemma DecodeOneSequence(s: string, bs: seq<Byte>, c: char)
    requires 1 <= |bs| <= 4 && s != [] && s[0] == '%'
    requires ByteAt(s, 0) == Some(bs[0]) && BytesAt(s, |bs|) == Some(bs)
    requires SequenceLength(bs[0]) == |bs|
    requires forall k :: 1 <= k < |bs| ==> 0x80 <= bs[k] < 0xC0
    requires Utf8Value(bs) == c as int && c as int >= MinValue(|bs|)
    ensures DecodeOne(s) == Some((c, 3 * |bs|))
  {
    assert Scalar(c as int);
  }

  lemma {:induction false} BytesAtAll(s: string, bs: seq<Byte>, n: nat)
    requires n <= |bs|
    requires forall k :: 0 <= k < n ==> ByteAt(s, k) == Some(bs[k])
    ensures BytesAt(s, n) == Some(bs[..n])
  {
    if n > 0 {
      BytesAtAll(s, bs, n - 1);
      assert bs[..n] == bs[..n - 1] + [bs[n - 1]];
    }
  }

  lemma {:induction false} PercentAt(bs: seq<Byte>, k: nat)
    requires k < |bs|
    ensures Percent(bs)[3 * k] == '%'
    ensures Percent(bs)[3 * k + 1] == HexDigit(bs[k] / 16)
    ensures Percent(bs)[3 * k + 2] == HexDigit(bs[k] % 16)
  {
    var head := ['%', HexDigit(bs[0] / 16), HexDigit(bs[0] % 16)];
    var tail := Percent(bs[1..]);
    assert Percent(bs) == head + tail;
    if k > 0 {
      var j := k - 1;
      assert bs[1..][j] == bs[k];
      PercentAt(bs[1..], j);
      assert 3 * k == 3 + 3 * j;
      assert (head + tail)[3 + 3 * j] == tail[3 * j];
      assert (head + tail)[3 + 3 * j + 1] == tail[3 * j + 1];
      assert (head + tail)[3 + 3 * j + 2] == tail[3 * j + 2];
    }
  }

  lemma HexRoundTrip(b: Byte)
    ensures HexValue(HexDigit(b / 16)) == Some(b / 16)
    ensures HexValue(HexDigit(b % 16)) == Some(b % 16)
  {
  }

  /** The UTF-8 form of a non-ASCII scalar value: a lead byte announcing its length,
      continuation bytes, and the value they spell in the shortest form. */
  lemma Utf8Shape(c: char)
    ensures var bs := Utf8(c);
            && SequenceLength(bs[0]) == |bs|
            && (forall k :: 1 <= k < |bs| ==> 0x80 <= bs[k] < 0xC0)
            && Utf8Value(bs) == c as int
            && (c as int) >= MinValue(|bs|)
  {
    var n := c as int;
    if 0x80 <= n < 0x800 {
      SplitSix(n);
    } else if 0x800 <= n < 0x10000 {
      SplitSix(n);
      SplitSix(n / 64);
      SplitTwelve(n);
    } else if 0x10000 <= n {
      SplitSix(n);
      SplitSix(n / 64);
      SplitSix(n / 4096);
      SplitTwelve(n);
      SplitEighteen(n);
    }
  }

  /** The low six bits and the rest. */
  lemma SplitSix(n: int)
    requires n >= 0
    ensures n == (n / 64) * 64 + n % 64 && 0 <= n % 64 < 64
  {
  }

  lemma SplitTwelve(n: int)
    requires n >= 0
    ensures n / 64 / 64 == n / 4096
  {
    var q := n / 64;
    var h := n / 4096;
    assert q * 64 <= n < q * 64 + 64;
    assert h * 4096 <= n < h * 4096 + 4096;
    assert h * 64 <= q < h * 64 + 64;
  }

  lemma SplitEighteen(n: int)
    requires n >= 0
    ensures n / 4096 / 64 == n / 262144
  {
    var q := n / 4096;
    var h := n / 262144;
    assert q * 4096 <= n < q * 4096 + 4096;
    assert h * 262144 <= n < h * 262144 + 262144;
    assert h * 64 <= q < h * 64 + 64;
  }
}
