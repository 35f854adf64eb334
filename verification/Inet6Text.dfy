/** nginx/src/core/ngx_inet.c: the loops that read and print addresses, byte by byte. */
module Inet6Text {
  import opened Inet6

  /** ngx_inet_addr */
  method ReadInet(text: string) returns (result: int)
    ensures result == InetAddr(text)
  {
    var addr, octet, n := 0, 0, 0;
    var i := 0;
    assert text[0..] == text;
    while i < |text|
      invariant i <= |text| && InetLoop(text[i..], Quad(addr, octet, n)) == InetAddr(text)
    {
      var c := text[i];
      assert text[i..] == [c] + text[i + 1..];
      InetStep(c, text[i + 1..], Quad(addr, octet, n));
      i := i + 1;
      if '0' <= c <= '9' {
        octet := (octet * 10 + (c as int - '0' as int)) % W64;
      } else if c == '.' && octet < 256 {
        addr := (addr * 256 + octet) % W32;
        octet := 0;
        n := n + 1;
      } else {
        return INADDR_NONE;
      }
    }
    assert text[i..] == "";
    return if n == 3 && octet < 256 then (addr * 256 + octet) % W32 else INADDR_NONE;
  }

  /** Bytes are moved up by `gap` places, the last first, and zeros put in their place. */
  method MoveUp(buf: array<Byte>, from: nat, to: nat, gap: nat)
    requires from <= to && to + gap <= buf.Length
    modifies buf
    ensures buf[..to + gap] == old(buf[..from]) + Zeros(gap) + old(buf[from..to])
  {
    ghost var before := buf[..];
    var s := to;
    while s > from
      invariant from <= s <= to
      invariant forall j :: 0 <= j < s ==> buf[j] == before[j]
      invariant forall j :: s <= j < to ==> buf[j + gap] == before[j]
    {
      s := s - 1;
      buf[s + gap] := buf[s];
    }
    var k := 0;
    while k < gap
      invariant k <= gap
      invariant forall j :: 0 <= j < from ==> buf[j] == before[j]
      invariant forall j :: from <= j < from + k ==> buf[j] == 0
      invariant forall j :: from <= j < to ==> buf[j + gap] == before[j]
    {
      buf[from + k] := 0;
      k := k + 1;
    }
    Assembled(before, buf[..], from, to, gap);
  }

  lemma Assembled(before: seq<Byte>, after: seq<Byte>, from: nat, to: nat, gap: nat)
    requires from <= to && to + gap <= |before| == |after|
    requires forall j :: 0 <= j < from ==> after[j] == before[j]
    requires forall j :: from <= j < from + gap ==> after[j] == 0
    requires forall j :: from <= j < to ==> after[j + gap] == before[j]
    ensures after[..to + gap] == before[..from] + Zeros(gap) + before[from..to]
  {
    var r := before[..from] + Zeros(gap) + before[from..to];
    forall j | from + gap <= j < to + gap ensures after[j] == r[j] { assert after[(j - gap) + gap] == before[j - gap]; }
  }

  /** Two more bytes. */
  method Store(buf: array<Byte>, k: nat, a: Byte, b: Byte)
    requires k + 2 <= buf.Length
    modifies buf
    ensures buf[..k + 2] == old(buf[..k]) + [a, b]
  {
    buf[k], buf[k + 1] := a, b;
  }

  /** ngx_inet6_addr; the bytes stored so far are the first k of the buffer. */
  method ReadInet6(text: string, buf: array<Byte>) returns (ok: bool)
    requires buf.Length == 16
    modifies buf
    ensures ok <==> Parse(text).Some?
    ensures ok ==> buf[..] == Parse(text).value
  {
    if text == "" { return false; }
    var start := if text[0] == ':' then 1 else 0;
    assert text[0..] == text;
    ok := ReadGroups(text[start..], buf);
  }

  function DigitAt(text: string, digit: int): Option<string>
    requires digit <= |text|
  {
    if digit < 0 then None else Some(text[digit..])
  }

  method ReadGroups(text: string, buf: array<Byte>) returns (ok: bool)
    requires buf.Length == 16
    modifies buf
    ensures ok <==> FinishSome(Loop(START, text)).Some?
    ensures ok ==> buf[..] == FinishSome(Loop(START, text)).value
  {
    var k, zero, digit, nibbles, word, n := 0, None, -1, 0, 0, 8;
    var i := 0;
    ghost var st, end := START, Loop(START, text);
    assert text[0..] == text;
    while i < |text|
      invariant i <= |text| && digit <= |text| && 1 <= n <= 8 && k == 2 * (8 - n) && (zero.Some? ==> zero.value <= k)
      invariant st == State(buf[..k], zero, DigitAt(text, digit), nibbles, word, n) && Loop(st, text[i..]) == end
    {
      var c := text[i];
      assert text[i..] == [c] + text[i + 1..];
      LoopStep(st, c, text[i + 1..]);
      i := i + 1;
      if c == ':' {
        if nibbles > 0 {
          if n == 1 { return false; }
          Store(buf, k, High(word), Low(word));
          k, n, nibbles, word, digit := k + 2, n - 1, 0, 0, i;
        } else {
          if zero.Some? { return false; }
          digit, zero := i, Some(k);
        }
      } else if c == '.' && nibbles > 0 {
        if n < 2 || digit < 0 { return false; }
        word := ReadInet(text[digit..]);
        if word == INADDR_NONE { return false; }
        Store(buf, k, word / 0x100_0000 % 256, word / 0x1_0000 % 256);
        ok := Complete(buf, k + 2, zero, nibbles, word, n - 1, end);
        return;
      } else {
        nibbles := nibbles + 1;
        if nibbles > 4 || HexValue(c) < 0 { return false; }
        word := word * 16 + HexValue(c);
      }
      st := Step(st, c, text[i..]).st;
    }
    assert text[i..] == "";
    ok := Complete(buf, k, zero, nibbles, word, n, end);
  }

  /** What follows the loop. */
  method Complete(buf: array<Byte>, k: nat, zero: Option<nat>, nibbles: nat, word: int, n: int, ghost end: Option<State>) returns (ok: bool)
    requires buf.Length == 16 && 1 <= n <= 8 && k == 2 * (8 - n) && (zero.Some? ==> zero.value <= k)
    requires end.Some? && end.value == State(buf[..k], zero, end.value.digit, nibbles, word, n)
    modifies buf
    ensures ok <==> FinishSome(end).Some?
    ensures ok ==> buf[..] == FinishSome(end).value
  {
    if nibbles == 0 && zero.None? { return false; }
    Store(buf, k, High(word), Low(word));
    if n > 1 {
      if zero.None? { return false; }
      ghost var out := buf[..k + 2];
      MoveUp(buf, zero.value, k + 2, 2 * (n - 1));
      assert buf[..] == buf[..16];
      return true;
    }
    assert buf[..] == buf[..16];
    return zero.None?;
  }

  /** The first loop of ngx_inet6_ntop: the longest run of zero words. */
  method SearchRun(p: Address) returns (zero: int, max: nat)
    ensures LongestRun(p) == Run(zero, max)
  {
    var last, n := -1, 0;
    zero, max := -1, 1;
    var i := 0;
    while i < 8
      invariant 0 <= i <= 8 && FindRun(p, Scan(i, zero, max, last, n)) == FindRun(p, FIRST)
    {
      if WordAt(p, i) != 0 {
        if max < n { zero, max := last, n; }
        n := 0;
      } else {
        if n == 0 { last := i; }
        n := n + 1;
      }
      i := i + 1;
    }
    if max < n { zero, max := last, n; }
  }

  /** ngx_inet6_ntop */
  method PrintInet6(p: Address) returns (text: string)
    ensures text == Print(p)
  {
    var zero, max := SearchRun(p);
    LongestRunIs(p);
    text := "";
    var n := 8;
    if zero == 0 {
      if (max == 5 && p[10] == 255 && p[11] == 255) || max == 6 || (max == 7 && p[14] != 0 && p[15] != 1) {
        n := 6;
      }
      text := ":";
    }
    text := PrintGroups(p, zero, max, n, text);
    if n == 6 {
      text := text + Dotted(p[12], p[13], p[14], p[15]);
    } else {
      assert text + "" == text;
    }
  }

  /** The second loop of ngx_inet6_ntop. */
  method PrintGroups(p: Address, zero: int, max: nat, n: nat, before: string) returns (text: string)
    requires 1 <= max && n <= 8
    ensures text == before + Body(p, zero, max, n, HEAD)
  {
    text := before;
    var i := 0;
    ghost var end := before + Body(p, zero, max, n, HEAD);
    while i < n
      invariant text + Body(p, zero, max, n, i) == end
      decreases if i < 8 then 8 - i else 0
    {
      if i == zero {
        Regroup(text, ":", "", Body(p, zero, max, n, i + max));
        text := text + ":";
        i := i + max;
      } else {
        Regroup(text, Hex(WordAt(p, i)), if i < 7 then ":" else "", Body(p, zero, max, n, i + 1));
        text := text + Hex(WordAt(p, i));
        if i < 7 { text := text + ":"; }
        i := i + 1;
      }
    }
    assert text + "" == text;
  }

  lemma Regroup(a: string, b: string, c: string, d: string)
    ensures a + (b + (c + d)) == a + b + c + d
    ensures c == "" ==> a + (b + d) == a + b + d && a + b + c == a + b
  {
  }
}
