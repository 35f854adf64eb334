/** What base64 means bit by bit, sections 4 and 5 of RFC 4648: each character stands for six
    bits, by its place in the alphabet, and each byte for eight. */
module Base64Bits {
  import opened Sealing
  import opened Base64

  /** The alphabet, sixteen characters at a time. */
  function Row(i: nat, url: bool): (r: string)
    requires i < 4
    ensures |r| == 16
  {
    if i == 0 then "ABCDEFGHIJKLMNOP"
    else if i == 1 then "QRSTUVWXYZabcdef"
    else if i == 2 then "ghijklmnopqrstuv"
    else if url then "wxyz0123456789-_"
    else "wxyz0123456789+/"
  }

  /** The character for a value; behind a seal. */
  function At(v: nat, url: bool): char
    requires v < 64
  {
    Letter(SEAL, v, url)
  }

  function Letter(s: Seal, v: nat, url: bool): char
    requires v < 64
  {
    match s
    case Bare => Row(v / 16, url)[v % 16]
    case Wrapped(inner) => Letter(inner, v, url)
  }

  lemma AtIs(v: nat, url: bool)
    requires v < 64
    ensures At(v, url) == Row(v / 16, url)[v % 16]
  {
    assert Letter(Wrapped(Wrapped(Bare)), v, url) == Letter(Wrapped(Bare), v, url) == Letter(Bare, v, url);
  }

  ghost predicate InAlphabet(c: char, url: bool) { exists v: nat :: v < 64 && At(v, url) == c }

  /** What the tables have for a value. */
  predicate InTable(c: char, v: nat, url: bool) {
    if v < 26 then c as int == 'A' as int + v
    else if v < 52 then c as int == 'a' as int + v - 26
    else if v < 62 then c as int == '0' as int + v - 52
    else if v == 62 then c == (if url then '-' else '+')
    else c == (if url then '_' else '/')
  }

  lemma RowIs(i: nat, k: nat, url: bool)
    requires i < 4 && k < 16
    ensures InTable(Row(i, url)[k], 16 * i + k, url)
  {
    match i
    case 0 => FirstRow(k, url);
    case 1 => SecondRow(k, url);
    case 2 => ThirdRow(k, url);
    case _ => LastRow(k, url);
  }

  lemma FirstRow(k: nat, url: bool)
    requires k < 16
    ensures InTable(Row(0, url)[k], k, url)
  {
    match k
    case 0 => case 1 => case 2 => case 3 => case 4 => case 5 => case 6 => case 7 =>
    case 8 => case 9 => case 10 => case 11 => case 12 => case 13 => case 14 => case _ => assert k == 15;
  }

  lemma SecondRow(k: nat, url: bool)
    requires k < 16
    ensures InTable(Row(1, url)[k], 16 + k, url)
  {
    match k
    case 0 => case 1 => case 2 => case 3 => case 4 => case 5 => case 6 => case 7 =>
    case 8 => case 9 => case 10 => case 11 => case 12 => case 13 => case 14 => case _ => assert k == 15;
  }

  lemma ThirdRow(k: nat, url: bool)
    requires k < 16
    ensures InTable(Row(2, url)[k], 32 + k, url)
  {
    match k
    case 0 => case 1 => case 2 => case 3 => case 4 => case 5 => case 6 => case 7 =>
    case 8 => case 9 => case 10 => case 11 => case 12 => case 13 => case 14 => case _ => assert k == 15;
  }

  lemma LastRow(k: nat, url: bool)
    requires k < 16
    ensures InTable(Row(3, url)[k], 48 + k, url)
  {
    match k
    case 0 => case 1 => case 2 => case 3 => case 4 => case 5 => case 6 => case 7 =>
    case 8 => case 9 => case 10 => case 11 => case 12 => case 13 => case 14 => case _ => assert k == 15;
  }

  /** The tables are the alphabets. */
  lemma TableIs(v: nat, url: bool)
    requires v < 64
    ensures Value(At(v, url), url) == v && At(v, url) != '='
  {
    AtIs(v, url);
    RowIs(v / 16, v % 16, url);
  }

  lemma TableOnly(c: char, url: bool)
    requires Value(c, url) != INVALID
    ensures At(Value(c, url), url) == c
  {
    var v := Value(c, url);
    AtIs(v, url);
    RowIs(v / 16, v % 16, url);
  }

  lemma TableHas(c: char, url: bool)
    ensures InAlphabet(c, url) <==> Value(c, url) != INVALID
  {
    if InAlphabet(c, url) {
      var v: nat :| v < 64 && At(v, url) == c;
      TableIs(v, url);
    }
    if Value(c, url) != INVALID { TableOnly(c, url); }
  }

  lemma BasisIs(i: int)
    requires 0 <= i < 64
    ensures Basis(i) == At(i, false)
  {
    AtIs(i, false);
    RowIs(i / 16, i % 16, false);
  }

  // ----- bits -----

  function Eight(b: nat): seq<nat> { [b / 128 % 2, b / 64 % 2, b / 32 % 2, b / 16 % 2, b / 8 % 2, b / 4 % 2, b / 2 % 2, b % 2] }

  function Six(v: nat): seq<nat> { [v / 32 % 2, v / 16 % 2, v / 8 % 2, v / 4 % 2, v / 2 % 2, v % 2] }

  /** The bits of a byte string, the highest of each byte first. */
  function ByteBits(s: seq<Byte>): (r: seq<nat>)
    ensures |r| == 8 * |s|
  {
    if s == [] then [] else Eight(s[0]) + ByteBits(s[1..])
  }

  /** The place of a character in the alphabet. */
  ghost function Place(c: char, url: bool): (v: nat)
    requires InAlphabet(c, url)
    ensures v < 64 && At(v, url) == c
  {
    var v: nat :| v < 64 && At(v, url) == c;
    v
  }

  ghost predicate AllIn(text: string, url: bool) { forall i :: 0 <= i < |text| ==> InAlphabet(text[i], url) }

  /** The bits that characters of the alphabet stand for. */
  ghost function TextBits(text: string, url: bool): (r: seq<nat>)
    requires AllIn(text, url)
    ensures |r| == 6 * |text|
  {
    if text == "" then [] else Six(Place(text[0], url)) + TextBits(text[1..], url)
  }

  lemma Sum6(v: nat)
    requires v < 64
    ensures var x := Six(v); v == 32 * x[0] + 16 * x[1] + 8 * x[2] + 4 * x[3] + 2 * x[4] + x[5]
    ensures forall i :: 0 <= i < 6 ==> Six(v)[i] < 2
    ensures v / 16 == 2 * Six(v)[0] + Six(v)[1] && v / 4 == 8 * Six(v)[0] + 4 * Six(v)[1] + 2 * Six(v)[2] + Six(v)[3]
  {
    var a, b, c, d, e := v / 2, v / 4, v / 8, v / 16, v / 32;
    Half(v, a);
    Half(a, b);
    Half(b, c);
    Half(c, d);
    Half(d, e);
  }

  lemma Half(v: nat, a: nat)
    requires a == v / 2
    ensures v == 2 * a + v % 2 && v % 2 < 2
  {
  }

  lemma Eight8(a: nat, b: nat, c: nat, d: nat, e: nat, f: nat, g: nat, h: nat)
    requires a < 2 && b < 2 && c < 2 && d < 2 && e < 2 && f < 2 && g < 2 && h < 2
    ensures Eight(128 * a + 64 * b + 32 * c + 16 * d + 8 * e + 4 * f + 2 * g + h) == [a, b, c, d, e, f, g, h]
  {
    var x := 8 * a + 4 * b + 2 * c + d;
    var y := 8 * e + 4 * f + 2 * g + h;
    Four4(a, b, c, d);
    Four4(e, f, g, h);
    Halves(x, y);
  }

  lemma Four4(a: nat, b: nat, c: nat, d: nat)
    requires a < 2 && b < 2 && c < 2 && d < 2
    ensures var x := 8 * a + 4 * b + 2 * c + d; x < 16 && x / 8 % 2 == a && x / 4 % 2 == b && x / 2 % 2 == c && x % 2 == d
  {
  }

  lemma Halves(x: nat, y: nat)
    requires x < 16 && y < 16
    ensures Eight(16 * x + y) == [x / 8 % 2, x / 4 % 2, x / 2 % 2, x % 2, y / 8 % 2, y / 4 % 2, y / 2 % 2, y % 2]
  {
    UpperHalf(x, y);
    LowerHalf(x, y);
  }

  lemma UpperHalf(x: nat, y: nat)
    requires x < 16 && y < 16
    ensures var b := 16 * x + y; b / 16 == x && b / 128 == x / 8 && b / 64 == x / 4 && b / 32 == x / 2
  {
    var b := 16 * x + y;
    assert b / 16 == x;
    assert b / 128 == b / 16 / 8 && b / 64 == b / 16 / 4 && b / 32 == b / 16 / 2;
  }

  lemma LowerHalf(x: nat, y: nat)
    requires x < 16 && y < 16
    ensures var b := 16 * x + y; b / 8 % 2 == y / 8 % 2 && b / 4 % 2 == y / 4 % 2 && b / 2 % 2 == y / 2 % 2 && b % 2 == y % 2
  {
    var b := 16 * x + y;
    assert b / 8 == 2 * x + y / 8 && b / 4 == 4 * x + y / 4 && b / 2 == 8 * x + y / 2;
    Even(x, y / 8);
    Even(2 * x, y / 4);
    Even(4 * x, y / 2);
    Even(8 * x, y);
  }

  lemma Even(k: nat, y: nat)
    ensures (2 * k + y) % 2 == y % 2
  {
  }

  /** Two, three and four characters as bytes. */
  lemma FirstBits(a: nat, b: nat)
    requires a < 64 && b < 64
    ensures Eight(First(a, b)) == Six(a) + Six(b)[..2]
  {
    Sum6(a);
    Sum6(b);
    var x, y := Six(a), Six(b);
    assert y[..2] == [y[0], y[1]];
    var n := 128 * x[0] + 64 * x[1] + 32 * x[2] + 16 * x[3] + 8 * x[4] + 4 * x[5] + 2 * y[0] + y[1];
    FirstSum(a, b, n);
    Eight8(x[0], x[1], x[2], x[3], x[4], x[5], y[0], y[1]);
  }

  lemma FirstSum(a: nat, b: nat, n: nat)
    requires a < 64 && b < 64 && n == 4 * a + b / 16
    ensures First(a, b) == n
  {
    Low(0, n);
  }

  lemma SecondBits(b: nat, c: nat)
    requires b < 64 && c < 64
    ensures Eight(Second(b, c)) == Six(b)[2..] + Six(c)[..4]
  {
    Sum6(b);
    Sum6(c);
    var x, y := Six(b), Six(c);
    assert x[2..] == [x[2], x[3], x[4], x[5]] && y[..4] == [y[0], y[1], y[2], y[3]];
    SecondSum(b, c, 2 * x[0] + x[1], 8 * x[2] + 4 * x[3] + 2 * x[4] + x[5], 8 * y[0] + 4 * y[1] + 2 * y[2] + y[3]);
    Eight8(x[2], x[3], x[4], x[5], y[0], y[1], y[2], y[3]);
  }

  lemma SecondSum(b: nat, c: nat, h: nat, m: nat, n: nat)
    requires b == 16 * h + m && m < 16 && c / 4 == n < 16
    ensures Second(b, c) == 16 * m + n
  {
    Low(h, 16 * m + n);
  }

  lemma ThirdBits(c: nat, d: nat)
    requires c < 64 && d < 64
    ensures Eight(Third(c, d)) == Six(c)[4..] + Six(d)
  {
    Sum6(c);
    Sum6(d);
    var x, y := Six(c), Six(d);
    var n := 128 * x[4] + 64 * x[5] + 32 * y[0] + 16 * y[1] + 8 * y[2] + 4 * y[3] + 2 * y[4] + y[5];
    ThirdSum(c, d, 8 * x[0] + 4 * x[1] + 2 * x[2] + x[3], n);
    Eight8(x[4], x[5], y[0], y[1], y[2], y[3], y[4], y[5]);
    assert x[4..] == [x[4], x[5]];
  }

  lemma ThirdSum(c: nat, d: nat, h: nat, n: nat)
    requires 64 * c + d == 256 * h + n && n < 256
    ensures Third(c, d) == n
  {
    Low(h, n);
  }

  lemma Low(h: nat, n: nat)
    requires n < 256
    ensures Truncated(256 * h + n) == n
  {
  }

  // ----- decoding -----

  /** A run of characters of the alphabet is read as its bits, the last few left over. */
  lemma {:induction false} BytesAre(text: string, url: bool)
    requires AllIn(text, url) && |text| % 4 != 1
    ensures |Bytes(text, url)| == 6 * |text| / 8
    ensures ByteBits(Bytes(text, url)) == TextBits(text, url)[..8 * (6 * |text| / 8)]
    decreases |text|
  {
    if |text| > 3 {
      var rest := text[4..];
      Shift(|text|);
      BytesAre(rest, url);
      FourChars(text, url);
      FourMoreBytes(text, rest, url);
      Prefix(TextBits(text, url), TextBits(text[..4], url), TextBits(rest, url), 6 * |rest| / 8, 6 * |text| / 8);
    } else {
      Tail(text, url);
    }
  }

  lemma FourMoreBytes(text: string, rest: string, url: bool)
    requires |text| > 3 && rest == text[4..]
    ensures |Bytes(text, url)| == 3 + |Bytes(rest, url)|
    ensures ByteBits(Bytes(text, url)) == ByteBits(Bytes(text, url)[..3]) + ByteBits(Bytes(rest, url))
  {
    var three := Bytes(text, url)[..3];
    assert Bytes(text, url) == three + Bytes(rest, url);
    BitsJoin(three, Bytes(rest, url));
  }

  lemma Shift(n: nat)
    requires n > 3
    ensures 6 * n / 8 == 6 * (n - 4) / 8 + 3 && n % 4 == (n - 4) % 4
  {
    ThreeMoreBytes(6 * (n - 4));
    assert n == (n - 4) + 4;
  }

  lemma ThreeMoreBytes(x: nat)
    ensures (x + 24) / 8 == x / 8 + 3
  {
  }

  lemma Prefix(all: seq<nat>, a: seq<nat>, b: seq<nat>, k: nat, n: nat)
    requires all == a + b && |a| == 24 && 8 * k <= |b| && n == k + 3
    ensures all[..8 * n] == a + b[..8 * k]
  {
  }

  lemma {:induction false} BitsJoin(a: seq<Byte>, b: seq<Byte>)
    ensures ByteBits(a + b) == ByteBits(a) + ByteBits(b)
  {
    if a == [] {
      assert a + b == b;
    } else {
      BitsJoin(a[1..], b);
      assert (a + b)[1..] == a[1..] + b;
      Associate(Eight(a[0]), ByteBits(a[1..]), ByteBits(b));
    }
  }

  lemma {:induction false} TextJoin(a: string, b: string, url: bool)
    requires AllIn(a, url) && AllIn(b, url)
    ensures AllIn(a + b, url) && TextBits(a + b, url) == TextBits(a, url) + TextBits(b, url)
  {
    if a == "" {
      assert a + b == b;
    } else {
      TextJoin(a[1..], b, url);
      assert (a + b)[1..] == a[1..] + b;
      Associate(Six(Place(a[0], url)), TextBits(a[1..], url), TextBits(b, url));
    }
  }

  lemma ValueAt(c: char, url: bool)
    requires InAlphabet(c, url)
    ensures Value(c, url) == Place(c, url) < 64
  {
    TableIs(Place(c, url), url);
  }

  lemma FourChars(text: string, url: bool)
    requires AllIn(text, url) && |text| > 3
    ensures TextBits(text, url) == TextBits(text[..4], url) + TextBits(text[4..], url)
    ensures ByteBits(Bytes(text, url)[..3]) == TextBits(text[..4], url)
  {
    assert text == text[..4] + text[4..];
    TextJoin(text[..4], text[4..], url);
    var a, b, c, d := Place(text[0], url), Place(text[1], url), Place(text[2], url), Place(text[3], url);
    ValueAt(text[0], url);
    ValueAt(text[1], url);
    ValueAt(text[2], url);
    ValueAt(text[3], url);
    FirstBits(a, b);
    SecondBits(b, c);
    ThirdBits(c, d);
    assert Bytes(text, url)[..3] == [First(a, b), Second(b, c), Third(c, d)];
    ThreeBytes(First(a, b), Second(b, c), Third(c, d));
    FourBits(text[..4], url);
    Halved(Six(a), Six(b), Six(c), Six(d));
  }

  lemma ThreeBytes(x: Byte, y: Byte, z: Byte)
    ensures ByteBits([x, y, z]) == Eight(x) + (Eight(y) + Eight(z))
  {
    var s := [x, y, z];
    var s1 := s[1..];
    var s2 := s1[1..];
    assert s1[0] == y && s2[0] == z && s2[1..] == [];
    assert ByteBits(s2) == Eight(z);
  }

  lemma FourBits(t: string, url: bool)
    requires |t| == 4 && AllIn(t, url)
    ensures TextBits(t, url)
      == Six(Place(t[0], url)) + (Six(Place(t[1], url)) + (Six(Place(t[2], url)) + Six(Place(t[3], url))))
  {
    var t1 := t[1..];
    var t2 := t1[1..];
    var t3 := t2[1..];
    assert t1[0] == t[1] && t2[0] == t[2] && t3[0] == t[3] && t3[1..] == "";
    assert TextBits(t3, url) == Six(Place(t[3], url));
    assert TextBits(t2, url) == Six(Place(t[2], url)) + TextBits(t3, url);
    assert TextBits(t1, url) == Six(Place(t[1], url)) + TextBits(t2, url);
  }

  lemma Halved(a: seq<nat>, b: seq<nat>, c: seq<nat>, d: seq<nat>)
    requires |a| == |b| == |c| == |d| == 6
    ensures (a + b[..2]) + ((b[2..] + c[..4]) + (c[4..] + d)) == a + (b + (c + d))
  {
  }

  lemma Tail(text: string, url: bool)
    requires AllIn(text, url) && |text| <= 3 && |text| != 1
    ensures |Bytes(text, url)| == 6 * |text| / 8
    ensures ByteBits(Bytes(text, url)) == TextBits(text, url)[..8 * (6 * |text| / 8)]
  {
    if |text| == 2 {
      TwoChars(text, url);
    } else if |text| == 3 {
      ThreeChars(text, url);
    }
  }

  lemma TwoChars(text: string, url: bool)
    requires AllIn(text, url) && |text| == 2
    ensures |Bytes(text, url)| == 1 && ByteBits(Bytes(text, url)) == TextBits(text, url)[..8]
  {
    var a, b := Place(text[0], url), Place(text[1], url);
    ValueAt(text[0], url);
    ValueAt(text[1], url);
    FirstBits(a, b);
    assert text[1..][1..] == "" && text[1..][0] == text[1];
    assert TextBits(text[1..], url) == Six(b) + [];
    assert Bytes(text, url) == [First(a, b)];
    assert ByteBits([First(a, b)]) == Eight(First(a, b)) + [];
    assert (Six(a) + Six(b))[..8] == Six(a) + Six(b)[..2];
  }

  lemma ThreeChars(text: string, url: bool)
    requires AllIn(text, url) && |text| == 3
    ensures |Bytes(text, url)| == 2 && ByteBits(Bytes(text, url)) == TextBits(text, url)[..16]
  {
    var a, b, c := Place(text[0], url), Place(text[1], url), Place(text[2], url);
    ValueAt(text[0], url);
    ValueAt(text[1], url);
    ValueAt(text[2], url);
    FirstBits(a, b);
    SecondBits(b, c);
    var t1 := text[1..];
    var t2 := t1[1..];
    assert t2[1..] == "" && t1[0] == text[1] && t2[0] == text[2];
    assert TextBits(t2, url) == Six(c) + [];
    var x, y := First(a, b), Second(b, c);
    assert Bytes(text, url) == [x, y] && [x, y][1..] == [y] && [y][1..] == [];
    assert ByteBits([y]) == Eight(y) + [];
    Sixteen(Six(a), Six(b), Six(c));
  }

  lemma Sixteen(a: seq<nat>, b: seq<nat>, c: seq<nat>)
    requires |a| == |b| == |c| == 6
    ensures (a + b[..2]) + (b[2..] + c[..4]) == (a + (b + c))[..16]
  {
  }

  /** Where the padding begins. */
  function Stop(text: string): (r: nat)
    ensures r <= |text|
  {
    if text == "" || text[0] == '=' then 0 else 1 + Stop(text[1..])
  }

  lemma {:induction false} ExtentStops(text: string, url: bool)
    ensures Extent(text, url) == if AllIn(text[..Stop(text)], url) then Some(Stop(text)) else None
  {
    if text != "" && text[0] != '=' {
      var n := Stop(text[1..]);
      ExtentStops(text[1..], url);
      TableHas(text[0], url);
      assert text[..n + 1] == [text[0]] + text[1..][..n];
      if AllIn(text[..n + 1], url) {
        assert forall i :: 0 <= i < n ==> text[1..][..n][i] == text[..n + 1][i + 1];
      }
    }
  }

  /** ngx_decode_base64 and ngx_decode_base64url on every text: what stands before the
      padding must be of the alphabet and not one character too long, and its bits, in order,
      are those of the result. */
  lemma DecodeIs(text: string, url: bool)
    ensures var t := text[..Stop(text)];
      if !AllIn(t, url) || |t| % 4 == 1 then Decode(text, url) == None
      else
        Decode(text, url).Some? && |Decode(text, url).value| == 6 * |t| / 8
        && ByteBits(Decode(text, url).value) == TextBits(t, url)[..8 * (6 * |t| / 8)]
  {
    var t := text[..Stop(text)];
    ExtentStops(text, url);
    if AllIn(t, url) && |t| % 4 != 1 { BytesAre(t, url); }
  }

  // ----- encoding -----

  ghost predicate AllZero(bits: seq<nat>) { forall i :: 0 <= i < |bits| ==> bits[i] == 0 }

  lemma BasisPlace(v: int)
    requires 0 <= v < 64
    ensures InAlphabet(Basis(v), false) && Place(Basis(v), false) == v && Basis(v) != '='
  {
    BasisIs(v);
    TableIs(v, false);
    TableIs(Place(Basis(v), false), false);
  }

  lemma DigitsIn(s: seq<Byte>)
    ensures AllIn(Digits(s), false)
  {
    var t := Digits(s);
    forall k | 0 <= k < |t| ensures InAlphabet(t[k], false) {
      DigitsValid(s, k);
      TableHas(t[k], false);
    }
  }

  /** How many characters and bits the bytes take, and how many bits are left over. */
  lemma {:induction false} DigitsCount(s: seq<Byte>)
    ensures |Digits(s)| == (4 * |s| + 2) / 3 && 6 * |Digits(s)| / 8 == |s|
    decreases |s|
  {
    if |s| > 2 {
      DigitsCount(s[3..]);
      assert |Digits(s)| == 4 + |Digits(s[3..])|;
    }
  }

  /** The bits left over in the last character are zeros. */
  lemma {:induction false} LeftOver(s: seq<Byte>)
    requires AllIn(Digits(s), false)
    ensures 8 * |s| <= 6 * |Digits(s)| && AllZero(TextBits(Digits(s), false)[8 * |s|..])
    decreases |s|
  {
    DigitsCount(s);
    if |s| > 2 {
      var f, rest := Four(s[0], s[1], s[2]), s[3..];
      assert Digits(s) == f + Digits(rest);
      DigitsIn(rest);
      assert AllIn(f, false) by { assert forall i :: 0 <= i < 4 ==> f[i] == Digits(s)[i]; }
      TextJoin(f, Digits(rest), false);
      LeftOver(rest);
      Suffix(TextBits(f, false), TextBits(Digits(rest), false), 8 * |rest|);
    } else if |s| == 2 {
      LastTwoBits(s[0], s[1]);
    } else if |s| == 1 {
      LastOneBits(s[0]);
    }
  }

  lemma Suffix(a: seq<nat>, b: seq<nat>, k: nat)
    requires k <= |b|
    ensures (a + b)[|a| + k..] == b[k..]
  {
  }

  lemma LastOneBits(a: Byte)
    requires AllIn(Digits([a]), false)
    ensures AllZero(TextBits(Digits([a]), false)[8..])
  {
    var t := Digits([a]);
    var v := a % 4 * 16;
    BasisPlace(v);
    assert t[1..][1..] == "" && t[1..][0] == t[1] == Basis(v);
    assert TextBits(t[1..], false) == Six(v) + [];
    assert TextBits(t, false)[6..] == Six(v);
    assert v / 8 % 2 == 0 && v / 4 % 2 == 0 && v / 2 % 2 == 0 && v % 2 == 0;
    assert TextBits(t, false)[8..] == Six(v)[2..];
  }

  lemma LastTwoBits(a: Byte, b: Byte)
    requires AllIn(Digits([a, b]), false)
    ensures AllZero(TextBits(Digits([a, b]), false)[16..])
  {
    var t := Digits([a, b]);
    var v := b % 16 * 4;
    BasisPlace(v);
    var t1 := t[1..];
    var t2 := t1[1..];
    assert t2[1..] == "" && t2[0] == t[2] == Basis(v);
    assert TextBits(t2, false) == Six(v) + [];
    assert TextBits(t1, false)[6..] == Six(v);
    assert TextBits(t, false)[6..] == TextBits(t1, false);
    assert v / 2 % 2 == 0 && v % 2 == 0;
    assert TextBits(t, false)[16..] == Six(v)[4..];
  }

  /** ngx_encode_base64: characters of the alphabet whose bits are those of the bytes and
      zeros after them, as few as hold them, and padding up to a multiple of four. */
  lemma EncodeIs(s: seq<Byte>)
    ensures var t := Digits(s);
      && Encode(s) == t + Padding(|s|) && |Encode(s)| % 4 == 0
      && |t| == (4 * |s| + 2) / 3 && AllIn(t, false)
      && 8 * |s| <= 6 * |t| && TextBits(t, false)[..8 * |s|] == ByteBits(s) && AllZero(TextBits(t, false)[8 * |s|..])
  {
    Padded(s);
    EncodeLength(s);
    Fours((|s| + 2) / 3);
    DigitsBits(s, Digits(s));
  }

  lemma Fours(k: nat)
    ensures k * 4 % 4 == 0
  {
  }

  lemma DigitsBits(s: seq<Byte>, t: string)
    requires t == Digits(s)
    ensures |t| == (4 * |s| + 2) / 3 && AllIn(t, false)
    ensures 8 * |s| <= 6 * |t| && TextBits(t, false)[..8 * |s|] == ByteBits(s) && AllZero(TextBits(t, false)[8 * |s|..])
  {
    DigitsIn(s);
    LeftOver(s);
    DigitsCount(s);
    DigitsRead(s, t);
  }

  lemma DigitsRead(s: seq<Byte>, t: string)
    requires t == Digits(s) && AllIn(t, false)
    ensures 6 * |t| / 8 == |s| && TextBits(t, false)[..8 * |s|] == ByteBits(s)
  {
    DigitsLength(s);
    BytesAre(t, false);
    BytesOfDigits(s);
  }

  // ----- the alphabet for URLs -----

  /** The same characters, two of them replaced. */
  function ForUrl(text: string): (r: string)
    ensures |r| == |text|
  {
    seq(|text|, i requires 0 <= i < |text| => if text[i] == '+' then '-' else if text[i] == '/' then '_' else text[i])
  }

  lemma {:induction false} SameBytes(text: string)
    requires forall i :: 0 <= i < |text| ==> Value(text[i], false) != INVALID
    ensures forall i :: 0 <= i < |text| ==> Value(ForUrl(text)[i], true) == Value(text[i], false)
    ensures Bytes(ForUrl(text), true) == Bytes(text, false)
    decreases |text|
  {
    if |text| > 3 {
      SameBytes(text[4..]);
      assert ForUrl(text)[4..] == ForUrl(text[4..]);
    }
  }

  /** Base64 for URLs, section 5 of RFC 4648, with or without padding: every byte string is
      read back. */
  lemma UrlRoundTrip(s: seq<Byte>)
    ensures Decode(ForUrl(Digits(s)), true) == Some(s) && Decode(ForUrl(Encode(s)), true) == Some(s)
  {
    Padded(s);
    UrlPadded(s, Digits(s), "", Digits(s));
    UrlPadded(s, Digits(s), Padding(|s|), Encode(s));
  }

  lemma UrlPadded(s: seq<Byte>, t: string, pad: string, e: string)
    requires t == Digits(s) && e == t + pad && forall i :: 0 <= i < |pad| ==> pad[i] == '='
    ensures Decode(ForUrl(e), true) == Some(s)
  {
    UrlDigits(s, pad);
    PadForUrl(t, pad);
  }

  lemma PadForUrl(t: string, pad: string)
    requires forall i :: 0 <= i < |pad| ==> pad[i] == '='
    ensures ForUrl(t + pad) == ForUrl(t) + pad
  {
  }

  lemma UrlDigits(s: seq<Byte>, pad: string)
    requires pad == "" || pad[0] == '='
    ensures Decode(ForUrl(Digits(s)) + pad, true) == Some(s)
  {
    var t := Digits(s);
    DigitsLength(s);
    forall k | 0 <= k < |t| ensures Value(t[k], false) != INVALID && t[k] != '=' { DigitsValid(s, k); }
    SameBytes(t);
    BytesOfDigits(s);
    PadDecoded(ForUrl(t), pad);
  }

  lemma PadDecoded(u: string, pad: string)
    requires forall i :: 0 <= i < |u| ==> Value(u[i], true) != INVALID && u[i] != '='
    requires pad == "" || pad[0] == '='
    ensures Decode(u + pad, true) == if |u| % 4 == 1 then None else Some(Bytes(u, true))
  {
    ExtentOf(u, pad, true);
    assert (u + pad)[..|u|] == u;
  }
}
