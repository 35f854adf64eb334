/** nginx/src/core/ngx_string.c: base64, section 4 of RFC 4648. */
module Base64 {

  type Byte = x: int | 0 <= x < 256

  datatype Option<T> = None | Some(value: T)

  /** The alphabet of ngx_encode_base64. */
  function Basis(i: int): char
    requires 0 <= i < 64
  {
    if i < 26 then ('A' as int + i) as char
    else if i < 52 then ('a' as int + i - 26) as char
    else if i < 62 then ('0' as int + i - 52) as char
    else if i == 62 then '+' else '/'
  }

  const INVALID := 77

  /** The table of ngx_decode_base64, or that of ngx_decode_base64url. */
  function Value(c: char, url: bool): (r: int)
    ensures 0 <= r < 64 || r == INVALID
  {
    if 'A' <= c <= 'Z' then c as int - 'A' as int
    else if 'a' <= c <= 'z' then c as int - 'a' as int + 26
    else if '0' <= c <= '9' then c as int - '0' as int + 52
    else if c == (if url then '-' else '+') then 62
    else if c == (if url then '_' else '/') then 63
    else INVALID
  }

  lemma ValueOfBasis(i: int)
    requires 0 <= i < 64
    ensures Value(Basis(i), false) == i && Basis(i) != '='
  {
  }

  // ----- encoding -----

  /** Three bytes as four characters. */
  function Four(a: Byte, b: Byte, c: Byte): string {
    [Basis(a / 4 % 64), Basis(a % 4 * 16 + b / 16), Basis(b % 16 * 4 + c / 64), Basis(c % 64)]
  }

  /** ngx_encode_base64 */
  function Encode(s: seq<Byte>): string
    decreases |s|
  {
    if |s| > 2 then Four(s[0], s[1], s[2]) + Encode(s[3..])
    else if |s| == 2 then [Basis(s[0] / 4 % 64), Basis(s[0] % 4 * 16 + s[1] / 16), Basis(s[1] % 16 * 4), '=']
    else if |s| == 1 then [Basis(s[0] / 4 % 64), Basis(s[0] % 4 * 16), '=', '=']
    else ""
  }

  // ----- decoding -----

  /** How far the text goes before its padding, or nothing if a character is not in the
      table. */
  function Extent(text: string, url: bool): (r: Option<nat>)
    ensures r.Some? ==> r.value <= |text|
  {
    if text == "" || text[0] == '=' then Some(0)
    else if Value(text[0], url) == INVALID then None
    else
      var rest := Extent(text[1..], url);
      if rest.None? then None else Some(rest.value + 1)
  }

  /** u_char */
  function Truncated(x: int): Byte { x % 256 }

  function First(a: int, b: int): Byte { Truncated(a * 4 + b / 16) }
  function Second(b: int, c: int): Byte { Truncated(b * 16 + c / 4) }
  function Third(c: int, d: int): Byte { Truncated(c * 64 + d) }

  /** The bytes that a run of characters of the table stands for. */
  function Bytes(text: string, url: bool): seq<Byte>
    decreases |text|
  {
    if |text| > 3 then
      var a, b, c, d := Value(text[0], url), Value(text[1], url), Value(text[2], url), Value(text[3], url);
      [First(a, b), Second(b, c), Third(c, d)] + Bytes(text[4..], url)
    else
      (if |text| > 1 then [First(Value(text[0], url), Value(text[1], url))] else [])
      + (if |text| > 2 then [Second(Value(text[1], url), Value(text[2], url))] else [])
  }

  /** ngx_decode_base64_internal */
  function Decode(text: string, url: bool): Option<seq<Byte>> {
    var len := Extent(text, url);
    if len.None? || len.value % 4 == 1 then None else Some(Bytes(text[..len.value], url))
  }

  // ----- the round trip -----

  lemma {:induction false} EncodeLength(s: seq<Byte>)
    ensures |Encode(s)| == (|s| + 2) / 3 * 4
    decreases |s|
  {
    if |s| > 2 {
      EncodeLength(s[3..]);
      assert |Encode(s)| == 4 + |Encode(s[3..])|;
      ThreeMore(|s[3..]|);
    }
  }

  lemma ThreeMore(n: nat)
    ensures (n + 3 + 2) / 3 * 4 == (n + 2) / 3 * 4 + 4
  {
  }

  /** The characters without the padding. */
  function Digits(s: seq<Byte>): string
    decreases |s|
  {
    if |s| > 2 then Four(s[0], s[1], s[2]) + Digits(s[3..])
    else if |s| == 2 then [Basis(s[0] / 4 % 64), Basis(s[0] % 4 * 16 + s[1] / 16), Basis(s[1] % 16 * 4)]
    else if |s| == 1 then [Basis(s[0] / 4 % 64), Basis(s[0] % 4 * 16)]
    else ""
  }

  function Padding(n: nat): string { if n % 3 == 2 then "=" else if n % 3 == 1 then "==" else "" }

  lemma {:induction false} Padded(s: seq<Byte>)
    ensures Encode(s) == Digits(s) + Padding(|s|)
    decreases |s|
  {
    if |s| > 2 {
      var f, rest := Four(s[0], s[1], s[2]), s[3..];
      Padded(rest);
      PaddingSame(|rest|);
      assert Encode(s) == f + Encode(rest) && Digits(s) == f + Digits(rest);
      Associate(f, Digits(rest), Padding(|s|));
    }
  }

  lemma PaddingSame(n: nat)
    ensures Padding(n + 3) == Padding(n)
  {
    assert (n + 3) % 3 == n % 3;
  }

  lemma Associate<T>(a: seq<T>, b: seq<T>, c: seq<T>)
    ensures a + (b + c) == (a + b) + c
  {
  }

  lemma {:induction false} DigitsLength(s: seq<Byte>)
    ensures |Digits(s)| % 4 != 1
    decreases |s|
  {
    if |s| > 2 {
      DigitsLength(s[3..]);
      assert |Digits(s)| == |Digits(s[3..])| + 4;
      FourMore(|Digits(s[3..])|);
    }
  }

  lemma FourMore(n: nat)
    ensures (n + 4) % 4 == n % 4
  {
  }

  lemma {:induction false} DigitsValid(s: seq<Byte>, k: nat)
    requires k < |Digits(s)|
    ensures Value(Digits(s)[k], false) != INVALID && Digits(s)[k] != '='
    decreases |s|
  {
    if |s| > 2 && k >= 4 {
      DigitsValid(s[3..], k - 4);
      assert Digits(s)[k] == Digits(s[3..])[k - 4];
    } else {
      forall i | 0 <= i < 64 ensures Value(Basis(i), false) == i && Basis(i) != '=' { ValueOfBasis(i); }
    }
  }

  /** What follows a run of valid characters matters only by where it ends. */
  lemma {:induction false} ExtentOf(text: string, pad: string, url: bool)
    requires forall i :: 0 <= i < |text| ==> Value(text[i], url) != INVALID && text[i] != '='
    requires pad == "" || pad[0] == '='
    ensures Extent(text + pad, url) == Some(|text|)
    decreases |text|
  {
    if text == "" {
      assert text + pad == pad;
    } else {
      ExtentOf(text[1..], pad, url);
      assert (text + pad)[1..] == text[1..] + pad;
    }
  }

  /** What the extent of a text is. */
  lemma {:induction false} ExtentIs(text: string, url: bool)
    ensures var r := Extent(text, url);
      && (r.Some? ==> forall i :: 0 <= i < r.value ==> text[i] != '=' && Value(text[i], url) != INVALID)
      && (r.Some? && r.value < |text| ==> text[r.value] == '=')
    decreases |text|
  {
    if text != "" { ExtentIs(text[1..], url); }
  }

  /** Padding, or anything else that begins with it, never changes the result. */
  lemma PaddingIgnored(text: string, pad: string, url: bool)
    requires forall i :: 0 <= i < |text| ==> text[i] != '='
    requires pad != "" && pad[0] == '='
    ensures Decode(text + pad, url) == Decode(text, url)
  {
    var e := Extent(text, url);
    ExtentIs(text, url);
    if e.Some? {
      assert e.value == |text|;
      ExtentOf(text, pad, url);
      assert (text + pad)[..|text|] == text && text[..|text|] == text;
    } else {
      StillInvalid(text, pad, url);
    }
  }

  lemma {:induction false} StillInvalid(text: string, pad: string, url: bool)
    requires Extent(text, url).None?
    ensures Extent(text + pad, url).None?
    decreases |text|
  {
    if Value(text[0], url) != INVALID {
      StillInvalid(text[1..], pad, url);
      assert (text + pad)[1..] == text[1..] + pad;
    }
  }

  /** The bits of a byte, taken apart and put together again. */
  lemma FirstIs(a: Byte, lo: int)
    requires 0 <= lo < 16
    ensures First(a / 4 % 64, a % 4 * 16 + lo) == a
  {
    assert (a % 4 * 16 + lo) / 16 == a % 4;
  }

  lemma SecondIs(h: int, b: Byte, lo: int)
    requires 0 <= lo < 4
    ensures Second(h * 16 + b / 16, b % 16 * 4 + lo) == b
  {
    assert (b % 16 * 4 + lo) / 4 == b % 16;
    assert (h * 16 + b / 16) * 16 + b % 16 == h * 256 + b;
    Modulo(h, b);
  }

  lemma ThirdIs(h: int, c: Byte)
    ensures Third(h * 4 + c / 64, c % 64) == c
  {
    assert (h * 4 + c / 64) * 64 + c % 64 == h * 256 + c;
    Modulo(h, c);
  }

  lemma Modulo(h: int, c: Byte)
    ensures (h * 256 + c) % 256 == c
  {
  }

  /** Four characters are read as three bytes. */
  lemma BytesFour(f: string, rest: string)
    requires |f| == 4
    ensures Bytes(f + rest, false)
      == [First(Value(f[0], false), Value(f[1], false)), Second(Value(f[1], false), Value(f[2], false)),
          Third(Value(f[2], false), Value(f[3], false))] + Bytes(rest, false)
  {
    assert (f + rest)[4..] == rest;
  }

  lemma FourValues(a: Byte, b: Byte, c: Byte)
    ensures var f := Four(a, b, c);
      && Value(f[0], false) == a / 4 % 64 && Value(f[1], false) == a % 4 * 16 + b / 16
      && Value(f[2], false) == b % 16 * 4 + c / 64 && Value(f[3], false) == c % 64
  {
    ValueOfBasis(a / 4 % 64);
    ValueOfBasis(a % 4 * 16 + b / 16);
    ValueOfBasis(b % 16 * 4 + c / 64);
    ValueOfBasis(c % 64);
  }

  lemma {:induction false} BytesOfDigits(s: seq<Byte>)
    ensures Bytes(Digits(s), false) == s
    decreases |s|
  {
    if |s| > 2 {
      var a, b, c, rest := s[0], s[1], s[2], s[3..];
      BytesOfDigits(rest);
      assert Digits(s) == Four(a, b, c) + Digits(rest) && s == [a, b, c] + rest;
      NextThree(a, b, c, Digits(rest));
    } else if |s| == 2 {
      LastTwo(s[0], s[1]);
      assert s == [s[0]] + [s[1]];
    } else if |s| == 1 {
      LastOne(s[0]);
      assert s == [s[0]] + [];
    }
  }

  lemma NextThree(a: Byte, b: Byte, c: Byte, rest: string)
    ensures Bytes(Four(a, b, c) + rest, false) == [a, b, c] + Bytes(rest, false)
  {
    BytesFour(Four(a, b, c), rest);
    FourValues(a, b, c);
    FirstIs(a, b / 16);
    SecondIs(a % 4, b, c / 64);
    ThirdIs(b % 16, c);
  }

  lemma LastTwo(a: Byte, b: Byte)
    ensures Bytes([Basis(a / 4 % 64), Basis(a % 4 * 16 + b / 16), Basis(b % 16 * 4)], false) == [a] + [b]
  {
    FourValues(a, b, 0);
    FirstIs(a, b / 16);
    SecondIs(a % 4, b, 0);
  }

  lemma LastOne(a: Byte)
    ensures Bytes([Basis(a / 4 % 64), Basis(a % 4 * 16)], false) == [a] + []
  {
    FourValues(a, 0, 0);
    FirstIs(a, 0);
  }

  /** Every byte string is read back from its encoding. */
  lemma RoundTrip(s: seq<Byte>)
    ensures Decode(Encode(s), false) == Some(s)
  {
    Padded(s);
    DigitsLength(s);
    var t := Digits(s);
    forall k | 0 <= k < |t| ensures Value(t[k], false) != INVALID && t[k] != '=' { DigitsValid(s, k); }
    ExtentOf(t, Padding(|s|), false);
    assert (t + Padding(|s|))[..|t|] == t;
    BytesOfDigits(s);
  }

  // ----- the loops -----

  /** ngx_encode_base64 */
  method EncodeText(s: seq<Byte>) returns (dst: string)
    ensures dst == Encode(s)
  {
    dst := "";
    var i := 0;
    while |s| - i > 2
      invariant 0 <= i <= |s| && dst + Encode(s[i..]) == Encode(s)
    {
      ghost var rest := s[i..];
      assert rest[3..] == s[i + 3..];
      assert dst + (Four(s[i], s[i + 1], s[i + 2]) + Encode(rest[3..])) == dst + Four(s[i], s[i + 1], s[i + 2]) + Encode(rest[3..]);
      dst := dst + [Basis(s[i] / 4 % 64), Basis(s[i] % 4 * 16 + s[i + 1] / 16), Basis(s[i + 1] % 16 * 4 + s[i + 2] / 64), Basis(s[i + 2] % 64)];
      i := i + 3;
    }
    if i < |s| {
      if |s| - i == 1 {
        dst := dst + [Basis(s[i] / 4 % 64), Basis(s[i] % 4 * 16), '=', '='];
      } else {
        dst := dst + [Basis(s[i] / 4 % 64), Basis(s[i] % 4 * 16 + s[i + 1] / 16), Basis(s[i + 1] % 16 * 4), '='];
      }
    } else {
      assert dst + "" == dst;
    }
  }

  /** The first loop of ngx_decode_base64_internal. */
  method FindExtent(src: string, url: bool) returns (ok: bool, len: nat)
    ensures ok <==> Extent(src, url).Some?
    ensures ok ==> len == Extent(src, url).value
  {
    len := 0;
    assert src[0..] == src;
    while len < |src| && src[len] != '='
      invariant len <= |src|
      invariant Extent(src, url) == Onward(len, Extent(src[len..], url))
    {
      NextExtent(src[len..], url);
      assert src[len..][0] == src[len] && src[len..][1..] == src[len + 1..];
      if Value(src[len], url) == INVALID { return false, len; }
      len := len + 1;
    }
    ok := true;
  }

  lemma NextExtent(text: string, url: bool)
    requires text != "" && text[0] != '='
    ensures Extent(text, url) == if Value(text[0], url) == INVALID then None else Onward(1, Extent(text[1..], url))
  {
  }

  function Onward(n: nat, rest: Option<nat>): Option<nat> { if rest.None? then None else Some(n + rest.value) }

  /** ngx_decode_base64_internal */
  method DecodeText(src: string, url: bool) returns (ok: bool, dst: seq<Byte>)
    ensures ok <==> Decode(src, url).Some?
    ensures ok ==> dst == Decode(src, url).value
  {
    var len;
    ok, len := FindExtent(src, url);
    if !ok || len % 4 == 1 { return false, []; }
    dst := DecodeRun(src[..len], url);
  }

  /** Its second loop, and what follows. */
  method DecodeRun(text: string, url: bool) returns (dst: seq<Byte>)
    ensures dst == Bytes(text, url)
  {
    dst := [];
    var s := 0;
    assert text[0..] == text;
    while |text| - s > 3
      invariant 0 <= s <= |text| && dst + Bytes(text[s..], url) == Bytes(text, url)
    {
      var a, b, c, d := Value(text[s], url), Value(text[s + 1], url), Value(text[s + 2], url), Value(text[s + 3], url);
      assert text[s..][4..] == text[s + 4..];
      Associate(dst, [First(a, b), Second(b, c), Third(c, d)], Bytes(text[s + 4..], url));
      dst := dst + [First(a, b), Second(b, c), Third(c, d)];
      s := s + 4;
    }
    ghost var before := dst;
    ghost var one := if |text| - s > 1 then [First(Value(text[s], url), Value(text[s + 1], url))] else [];
    ghost var two := if |text| - s > 2 then [Second(Value(text[s + 1], url), Value(text[s + 2], url))] else [];
    if |text| - s > 1 { dst := dst + [First(Value(text[s], url), Value(text[s + 1], url))]; }
    if |text| - s > 2 { dst := dst + [Second(Value(text[s + 1], url), Value(text[s + 2], url))]; }
    assert Bytes(text[s..], url) == one + two;
    assert dst == before + (one + two);
  }
}
