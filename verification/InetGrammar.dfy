/** Which texts the parsers of nginx/src/core/ngx_inet.c accept and what they make of them:
    a reference that takes the text apart at its separators, and the notation of section
    2.2 of RFC 4291. */
module InetGrammar {
  import opened Sealing
  import opened Hexadecimal
  import opened Inet6

  // ----- taking a text apart -----

  function Split(s: string, c: char): (r: seq<string>)
    ensures |r| >= 1
    decreases |s|
  {
    if s == "" then [""]
    else
      var r := Split(s[1..], c);
      if s[0] == c then [""] + r else [[s[0]] + r[0]] + r[1..]
  }

  lemma {:induction false} SplitLast(s: string, c: char)
    requires c !in s
    ensures Split(s, c) == [s]
    decreases |s|
  {
    if s != "" {
      SplitLast(s[1..], c);
      assert [s[0]] + s[1..] == s;
    }
  }

  lemma {:induction false} SplitFirst(a: string, c: char, rest: string)
    requires c !in a
    ensures Split(a + ([c] + rest), c) == [a] + Split(rest, c)
    decreases |a|
  {
    var s := a + ([c] + rest);
    if a == "" {
      assert s[1..] == rest;
    } else {
      SplitFirst(a[1..], c, rest);
      assert s[1..] == a[1..] + ([c] + rest);
      assert [a[0]] + a[1..] == a;
    }
  }

  /** The part before the first separator, and the rest. */
  lemma {:induction false} Cut(s: string, c: char) returns (a: string, rest: string)
    ensures c !in a
    ensures if c in s then s == a + ([c] + rest) && |rest| < |s| else s == a
    decreases |s|
  {
    if s == "" {
      a, rest := "", "";
    } else if s[0] == c {
      a, rest := "", s[1..];
      assert s == "" + ([c] + rest);
    } else {
      a, rest := Cut(s[1..], c);
      assert s == [s[0]] + s[1..];
      if c in s[1..] { assert s == ([s[0]] + a) + ([c] + rest); }
      a := [s[0]] + a;
    }
  }

  // ----- digits and numbers -----

  function Place(c: char, t: string, k: nat): int
    decreases |t| - k
  {
    if k >= |t| then -1 else if t[k] == c then k else Place(c, t, k + 1)
  }

  /** The value of a digit, or nothing; behind a seal. */
  function DigitOf(c: char): int { Sought(SEAL, c) }

  function Sought(s: Seal, c: char): int {
    match s
    case Bare => if Place(c, LOWER, 0) >= 0 then Place(c, LOWER, 0) else Place(c, UPPER, 0)
    case Wrapped(inner) => Sought(inner, c)
  }

  lemma {:induction false} PlaceIs(c: char, t: string, k: nat)
    requires k <= |t|
    ensures var r := Place(c, t, k); if r < 0 then r == -1 && c !in t[k..] else k <= r < |t| && t[r] == c
    decreases |t| - k
  {
    if k < |t| {
      PlaceIs(c, t, k + 1);
      assert t[k..] == [t[k]] + t[k + 1..];
    }
  }

  lemma DigitMeans(c: char)
    ensures if DigitOf(c) < 0 then DigitOf(c) == -1 && c !in LOWER && c !in UPPER else Means(c, DigitOf(c))
  {
    PlaceIs(c, LOWER, 0);
    PlaceIs(c, UPPER, 0);
    assert LOWER[0..] == LOWER && UPPER[0..] == UPPER;
    assert Sought(Wrapped(Wrapped(Bare)), c) == Sought(Wrapped(Bare), c) == Sought(Bare, c);
  }

  lemma ValueMeans(c: char, v: nat)
    requires v < 16
    ensures Means(c, v) <==> HexValue(c) == v
  {
    Places(v);
  }

  /** The parser's value of a digit is its place. */
  lemma HexValueIs(c: char)
    ensures HexValue(c) == DigitOf(c)
  {
    DigitMeans(c);
    if HexValue(c) >= 0 { ValueMeans(c, HexValue(c)); }
    if DigitOf(c) >= 0 { ValueMeans(c, DigitOf(c)); }
  }

  predicate Digits(s: string, base: nat) { forall i :: 0 <= i < |s| ==> 0 <= DigitOf(s[i]) < base }

  function Number(s: string, base: nat): int {
    if s == "" then 0 else Number(s[..|s| - 1], base) * base + DigitOf(s[|s| - 1])
  }

  lemma {:induction false} NumberBound(s: string)
    requires Digits(s, 16) && |s| <= 4
    ensures 0 <= Number(s, 16) < 65536 && (|s| <= 3 ==> Number(s, 16) < 4096) && (|s| <= 2 ==> Number(s, 16) < 256)
    ensures |s| <= 1 ==> Number(s, 16) < 16
  {
    if s != "" { NumberBound(s[..|s| - 1]); }
  }

  // ----- dotted quads -----

  /** Decimal digits whose value, in a 64-bit word, is a byte; none at all mean zero. */
  predicate Octet(s: string) { Digits(s, 10) && Number(s, 10) % W64 < 256 }

  function OctetOf(s: string): Byte
    requires Octet(s)
  {
    Number(s, 10) % W64
  }

  /** Four parts between dots. */
  function QuadOf(ps: seq<string>): int {
    if |ps| == 4 && Octet(ps[0]) && Octet(ps[1]) && Octet(ps[2]) && Octet(ps[3])
    then Join(OctetOf(ps[0]), OctetOf(ps[1]), OctetOf(ps[2]), OctetOf(ps[3]))
    else INADDR_NONE
  }

  /** The same, part by part. */
  function Parts(ps: seq<string>, addr: int, n: nat): int
    requires |ps| >= 1
    decreases |ps|
  {
    if !Octet(ps[0]) then INADDR_NONE
    else if |ps| == 1 then if n == 3 then (addr * 256 + OctetOf(ps[0])) % W32 else INADDR_NONE
    else Parts(ps[1..], (addr * 256 + OctetOf(ps[0])) % W32, n + 1)
  }

  lemma Decimal(c: char)
    ensures '0' <= c <= '9' <==> 0 <= DigitOf(c) < 10
    ensures '0' <= c <= '9' ==> DigitOf(c) == c as int - '0' as int
  {
    HexValueIs(c);
  }

  /** One more digit in a 64-bit word. */
  lemma Widen(x: int, d: int)
    ensures (x % W64 * 10 + d) % W64 == (x * 10 + d) % W64
  {
    assert x == x / W64 * W64 + x % W64;
    assert x * 10 + d == x % W64 * 10 + d + x / W64 * 10 * W64;
    Multiples(x % W64 * 10 + d, x / W64 * 10);
  }

  lemma Multiples(a: int, k: int)
    ensures (a + k * W64) % W64 == a % W64
  {
  }

  lemma {:induction false} DigitsRead(s: string, rest: string, q: Quad)
    requires Digits(s, 10) && q.octet == 0
    ensures InetLoop(s + rest, q) == InetLoop(rest, q.(octet := Number(s, 10) % W64))
    decreases |s|
  {
    if s == "" {
      assert s + rest == rest;
    } else {
      var t, c := s[..|s| - 1], s[|s| - 1];
      assert s + rest == t + ([c] + rest);
      DigitsRead(t, [c] + rest, q);
      DigitStep(c, Number(t, 10), rest, q);
    }
  }

  lemma DigitStep(c: char, x: int, rest: string, q: Quad)
    requires 0 <= DigitOf(c) < 10
    ensures InetLoop([c] + rest, q.(octet := x % W64)) == InetLoop(rest, q.(octet := (x * 10 + DigitOf(c)) % W64))
  {
    Decimal(c);
    InetStep(c, rest, q.(octet := x % W64));
    Widen(x, DigitOf(c));
  }

  /** Where the digits of a text end. */
  lemma {:induction false} DigitsEnd(s: string, base: nat) returns (k: nat)
    ensures k <= |s| && Digits(s[..k], base) && (k < |s| ==> !(0 <= DigitOf(s[k]) < base))
    decreases |s|
  {
    if s == "" || !(0 <= DigitOf(s[0]) < base) {
      k := 0;
    } else {
      k := DigitsEnd(s[1..], base);
      assert s[..k + 1] == [s[0]] + s[1..][..k];
      k := k + 1;
    }
  }

  /** Anything but digits before a dot or the end is an error, and so is too large a number. */
  lemma OctetFails(s: string, rest: string, q: Quad)
    requires '.' !in s && !Octet(s) && q.octet == 0 && (rest == "" || rest[0] == '.')
    ensures InetLoop(s + rest, q) == INADDR_NONE
  {
    var k := DigitsEnd(s, 10);
    if k < |s| {
      StrangerFails(s[..k], s[k], s[k + 1..] + rest, q);
      assert s + rest == s[..k] + ([s[k]] + (s[k + 1..] + rest));
    } else {
      assert s[..k] == s;
      LargeFails(s, rest, q);
    }
  }

  lemma LargeFails(s: string, rest: string, q: Quad)
    requires Digits(s, 10) && Number(s, 10) % W64 >= 256 && q.octet == 0 && (rest == "" || rest[0] == '.')
    ensures InetLoop(s + rest, q) == INADDR_NONE
  {
    DigitsRead(s, rest, q);
    if rest != "" {
      assert rest == [rest[0]] + rest[1..];
      InetStep(rest[0], rest[1..], q.(octet := Number(s, 10) % W64));
    }
  }

  lemma StrangerFails(s: string, c: char, rest: string, q: Quad)
    requires Digits(s, 10) && c != '.' && !(0 <= DigitOf(c) < 10) && q.octet == 0
    ensures InetLoop(s + ([c] + rest), q) == INADDR_NONE
  {
    DigitsRead(s, [c] + rest, q);
    Decimal(c);
    InetStep(c, rest, q.(octet := Number(s, 10) % W64));
  }

  lemma {:induction false} PartsRead(text: string, addr: int, n: nat)
    ensures InetLoop(text, Quad(addr, 0, n)) == Parts(Split(text, '.'), addr, n)
    decreases |text|
  {
    var q := Quad(addr, 0, n);
    var a, rest := Cut(text, '.');
    if '.' in text {
      SplitFirst(a, '.', rest);
      assert Split(text, '.')[1..] == Split(rest, '.');
      if Octet(a) {
        DigitsRead(a, "." + rest, q);
        InetStep('.', rest, q.(octet := OctetOf(a)));
        PartsRead(rest, (addr * 256 + OctetOf(a)) % W32, n + 1);
      } else {
        OctetFails(a, "." + rest, q);
      }
    } else {
      SplitLast(text, '.');
      assert text == a + "";
      if Octet(a) { DigitsRead(a, "", q); } else { OctetFails(a, "", q); }
    }
  }

  /** Only four parts give an address. */
  lemma {:induction false} PartsCount(ps: seq<string>, addr: int, n: nat)
    requires |ps| >= 1 && n + |ps| != 4
    ensures Parts(ps, addr, n) == INADDR_NONE
    decreases |ps|
  {
    if |ps| > 1 && Octet(ps[0]) { PartsCount(ps[1..], (addr * 256 + OctetOf(ps[0])) % W32, n + 1); }
  }

  /** ngx_inet_addr on every text: four octets between dots, or an error. */
  lemma InetExact(text: string)
    ensures InetAddr(text) == QuadOf(Split(text, '.'))
  {
    var ps := Split(text, '.');
    PartsRead(text, 0, 0);
    if |ps| != 4 { PartsCount(ps, 0, 0); } else { FourParts(ps); }
  }

  lemma FourParts(ps: seq<string>)
    requires |ps| == 4
    ensures Parts(ps, 0, 0) == QuadOf(ps)
  {
    var r1 := ps[1..];
    var r2 := r1[1..];
    var r3 := r2[1..];
    if Octet(ps[0]) {
      var a: nat := OctetOf(ps[0]);
      OnePartMore(ps, 0, 0, a);
      if Octet(ps[1]) {
        var ab: nat := a * 256 + OctetOf(ps[1]);
        OnePartMore(r1, a, 1, ab);
        if Octet(ps[2]) {
          OnePartMore(r2, ab, 2, ab * 256 + OctetOf(ps[2]));
          if Octet(ps[3]) { NoWrap((ab * 256 + OctetOf(ps[2])) * 256 + OctetOf(ps[3])); }
        }
      }
    }
  }

  lemma OnePartMore(ps: seq<string>, addr: int, n: nat, addr': nat)
    requires |ps| > 1 && Octet(ps[0]) && addr' == addr * 256 + OctetOf(ps[0]) < W32
    ensures Parts(ps, addr, n) == Parts(ps[1..], addr', n + 1)
  {
    NoWrap(addr');
  }

  // ----- IPv6 addresses -----

  predicate Group(s: string) { 1 <= |s| <= 4 && Digits(s, 16) }

  function GroupBytes(s: string): seq<Byte>
    requires Group(s)
  {
    NumberBound(s);
    var w := Number(s, 16);
    [w / 256, w % 256]
  }

  /** A dotted quad that begins like a group, other than the one taken for an error. */
  predicate Tail(s: string) { var ps := Split(s, '.'); Group(ps[0]) && QuadOf(ps) != INADDR_NONE }

  function TailBytes(s: string): seq<Byte>
    requires Tail(s)
  {
    var ps := Split(s, '.');
    [OctetOf(ps[0]), OctetOf(ps[1]), OctetOf(ps[2]), OctetOf(ps[3])]
  }

  /** Sixteen bytes, or fewer with zeros for at least one word at the gap. */
  function Fill(all: seq<Byte>, gap: Option<nat>): Option<seq<Byte>> {
    if gap.None? then if |all| == 16 then Some(all) else None
    else if |all| <= 14 && gap.value <= |all| then Some(all[..gap.value] + Zeros(16 - |all|) + all[gap.value..])
    else None
  }

  /** The parts between colons, one after the other: groups, one empty part at most, which
      is the gap, and at the end a group, a dotted quad or, after a gap, nothing. */
  function Value(ps: seq<string>, out: seq<Byte>, gap: Option<nat>): Option<seq<Byte>>
    requires |ps| >= 1
    decreases |ps|
  {
    var s := ps[0];
    if |ps| == 1 then
      if s == "" then if gap.None? then None else Fill(out + [0, 0], gap)
      else if Group(s) then Fill(out + GroupBytes(s), gap)
      else if Tail(s) then Fill(out + TailBytes(s), gap)
      else None
    else if s == "" then if gap.None? then Value(ps[1..], out, Some(|out|)) else None
    else if Group(s) && |out| < 14 then Value(ps[1..], out + GroupBytes(s), gap)
    else None
  }

  /** The same behind a seal. */
  function Meaning(s: Seal, ps: seq<string>, out: seq<Byte>, gap: Option<nat>): Option<seq<Byte>>
    requires |ps| >= 1
  {
    match s
    case Bare => Value(ps, out, gap)
    case Wrapped(inner) => Meaning(inner, ps, out, gap)
  }

  function Valued(ps: seq<string>, out: seq<Byte>, gap: Option<nat>): Option<seq<Byte>>
    requires |ps| >= 1
  {
    Meaning(SEAL, ps, out, gap)
  }

  lemma ValuedIs(ps: seq<string>, out: seq<Byte>, gap: Option<nat>)
    requires |ps| >= 1
    ensures Valued(ps, out, gap) == Value(ps, out, gap)
  {
    assert Meaning(Wrapped(Wrapped(Bare)), ps, out, gap) == Meaning(Wrapped(Bare), ps, out, gap) == Meaning(Bare, ps, out, gap);
  }

  /** A group, read from its first digit on. */
  lemma {:induction false} GroupRead(st: State, s: string, rest: string)
    requires |s| <= 4 && Digits(s, 16) && st.nibbles == 0 && st.word == 0
    ensures Loop(st, s + rest) == Loop(st.(nibbles := |s|, word := Number(s, 16)), rest)
    decreases |s|
  {
    if s == "" {
      assert s + rest == rest;
    } else {
      var t, c := s[..|s| - 1], s[|s| - 1];
      assert s + rest == t + ([c] + rest);
      GroupRead(st, t, [c] + rest);
      HexadecimalStep(st, c, |t|, Number(t, 16), rest);
    }
  }

  lemma HexadecimalStep(st: State, c: char, k: nat, w: int, rest: string)
    requires DigitOf(c) >= 0 && k < 4
    ensures Loop(st.(nibbles := k, word := w), [c] + rest) == Loop(st.(nibbles := k + 1, word := w * 16 + DigitOf(c)), rest)
  {
    HexValueIs(c);
    Separators(c);
    LoopStep(st.(nibbles := k, word := w), c, rest);
  }

  lemma Separators(c: char)
    ensures DigitOf(c) >= 0 ==> c != ':' && c != '.'
  {
    HexValueIs(c);
  }

  /** What is too long for a group or has another character ends the parse. */
  lemma BadRead(st: State, s: string, rest: string)
    requires s != "" && !Group(s) && ':' !in s && '.' !in s && st.nibbles == 0 && st.word == 0
    ensures Loop(st, s + rest) == None
  {
    var n := GroupEnd(s);
    var a, c, more := s[..n], s[n], s[n + 1..] + rest;
    assert s + rest == a + ([c] + more);
    GroupRead(st, a, [c] + more);
    BadStep(st.(nibbles := n, word := Number(a, 16)), c, more);
  }

  lemma GroupEnd(s: string) returns (n: nat)
    requires s != "" && !Group(s)
    ensures n <= 4 && n < |s| && Digits(s[..n], 16) && (n == 4 || DigitOf(s[n]) < 0)
  {
    var k := DigitsEnd(s, 16);
    n := if k > 4 then 4 else k;
    assert k == |s| ==> s[..k] == s;
    assert forall i :: 0 <= i < n ==> s[..n][i] == s[..k][i];
    if k < |s| { DigitBelow(s[k]); }
  }

  lemma DigitBelow(c: char)
    ensures DigitOf(c) < 16
  {
    DigitMeans(c);
  }

  lemma BadStep(st: State, c: char, more: string)
    requires c != ':' && c != '.' && (st.nibbles >= 4 || DigitOf(c) < 0)
    ensures Loop(st, [c] + more) == None
  {
    HexValueIs(c);
    LoopStep(st, c, more);
  }

  lemma DotStep(st: State, k: nat, w: int, rest: string)
    ensures Loop(st.(nibbles := k, word := w), "." + rest) ==
      if k == 0 || st.n < 2 || st.digit.None? || InetAddr(st.digit.value) == INADDR_NONE then None
      else
        var v := InetAddr(st.digit.value);
        Some(st.(out := st.out + [v / 0x100_0000 % 256, v / 0x1_0000 % 256], word := v, n := st.n - 1, nibbles := k))
  {
    LoopStep(st.(nibbles := k, word := w), '.', rest);
  }

  /** A part with a dot: the text from the part on is read as a dotted quad. */
  lemma DotRead6(st: State, a: string, rest: string)
    requires '.' !in a && ':' !in a && st.nibbles == 0 && st.word == 0
    ensures Loop(st, a + ("." + rest)) ==
      if !Group(a) || st.n < 2 || st.digit.None? || InetAddr(st.digit.value) == INADDR_NONE then None
      else
        var w := InetAddr(st.digit.value);
        Some(st.(out := st.out + [w / 0x100_0000 % 256, w / 0x1_0000 % 256], word := w, n := st.n - 1, nibbles := |a|))
  {
    if a == "" {
      assert a + ("." + rest) == "." + rest;
      DotStep(st, 0, 0, rest);
    } else if Group(a) {
      GroupRead(st, a, "." + rest);
      DotStep(st, |a|, Number(a, 16), rest);
    } else {
      BadRead(st, a, "." + rest);
    }
  }

  /** A colon is in no dotted quad. */
  lemma {:induction false} ColonFails(s: string, q: Quad)
    requires ':' in s
    ensures InetLoop(s, q) == INADDR_NONE
    decreases |s|
  {
    assert s == [s[0]] + s[1..];
    InetStep(s[0], s[1..], q);
    if s[0] != ':' && InetNext(q, s[0]).Some? { ColonFails(s[1..], InetNext(q, s[0]).value); }
  }

  /** The state of the parser before a part that begins with the text to come. */
  predicate AtPart(st: State, text: string) {
    && st.nibbles == 0 && st.word == 0 && 1 <= st.n <= 8 && |st.out| == 2 * (8 - st.n)
    && (st.zero.Some? ==> st.zero.value <= |st.out|)
    && (if st.digit.None? then st.out == [] && st.zero.None? else st.digit.value == text)
  }

  lemma FinishIs(st: State)
    requires |st.out| == 2 * (8 - st.n) && (st.zero.Some? ==> st.zero.value <= |st.out|)
    requires st.nibbles == 0 ==> st.zero.Some?
    ensures Finish(st) == Fill(st.out + [High(st.word), Low(st.word)], st.zero)
  {
    var out, n := st.out + [High(st.word), Low(st.word)], st.n - 1;
    assert |out| == 16 - 2 * n;
  }

  /** The last part. */
  lemma LastRead(st: State, text: string)
    requires AtPart(st, text) && ':' !in text
    ensures FinishSome(Loop(st, text)) == Value([text], st.out, st.zero)
  {
    if text == "" {
      if st.zero.Some? { FinishIs(st); }
    } else if '.' in text {
      LastDotted(st, text);
    } else if Group(text) {
      LastGroupRead(st, text);
    } else {
      assert text + "" == text;
      BadRead(st, text, "");
      NoTail(text);
    }
  }

  lemma LastGroupRead(st: State, text: string)
    requires AtPart(st, text) && Group(text)
    ensures FinishSome(Loop(st, text)) == Fill(st.out + GroupBytes(text), st.zero)
  {
    assert text + "" == text;
    GroupRead(st, text, "");
    NumberBound(text);
    LastWordIs(st, |text|, Number(text, 16), GroupBytes(text));
  }

  lemma LastWordIs(st: State, k: nat, w: int, b: seq<Byte>)
    requires k > 0 && 0 <= w < 65536 && b == [w / 256, w % 256]
    requires |st.out| == 2 * (8 - st.n) && (st.zero.Some? ==> st.zero.value <= |st.out|)
    ensures Finish(st.(nibbles := k, word := w)) == Fill(st.out + b, st.zero)
  {
    FinishIs(st.(nibbles := k, word := w));
  }

  lemma NoTail(text: string)
    requires '.' !in text
    ensures !Tail(text)
  {
    SplitLast(text, '.');
  }

  lemma LastDotted(st: State, text: string)
    requires AtPart(st, text) && ':' !in text && '.' in text
    ensures FinishSome(Loop(st, text)) == Value([text], st.out, st.zero)
  {
    var a, rest := Cut(text, '.');
    assert ':' !in a;
    DotRead6(st, a, rest);
    SplitFirst(a, '.', rest);
    InetExact(text);
    DotNotGroup(text);
    if Tail(text) && st.n >= 2 && st.digit.Some? {
      var ps := Split(text, '.');
      var b, c, d, e := OctetOf(ps[0]), OctetOf(ps[1]), OctetOf(ps[2]), OctetOf(ps[3]);
      JoinBytes(b, c, d, e);
      var st' := st.(out := st.out + [b, c], word := Join(b, c, d, e), n := st.n - 1, nibbles := |a|);
      FinishIs(st');
      assert st.out + [b, c] + [d, e] == st.out + TailBytes(text);
    }
  }

  lemma DotNotGroup(text: string)
    requires '.' in text
    ensures !Group(text)
  {
    var i :| 0 <= i < |text| && text[i] == '.';
    Separators(text[i]);
  }

  /** Part after part. */
  lemma {:induction false} PiecesRead(st: State, text: string)
    requires AtPart(st, text)
    ensures FinishSome(Loop(st, text)) == Value(Split(text, ':'), st.out, st.zero)
    decreases |text|
  {
    if ':' !in text {
      SplitLast(text, ':');
      LastRead(st, text);
    } else {
      var a, rest := Cut(text, ':');
      SplitFirst(a, ':', rest);
      assert Split(text, ':')[1..] == Split(rest, ':');
      if a == "" {
        assert text == [':'] + rest;
        LoopStep(st, ':', rest);
        if st.zero.None? { PiecesRead(st.(digit := Some(rest), zero := Some(|st.out|)), rest); }
      } else if Group(a) {
        GroupThenColon(st, a, rest);
        if st.n > 1 { PiecesRead(State(st.out + GroupBytes(a), st.zero, Some(rest), 0, 0, st.n - 1), rest); }
      } else if '.' in a {
        DottedTooSoon(st, a, rest, text);
      } else {
        BadRead(st, a, ":" + rest);
      }
    }
  }

  lemma GroupThenColon(st: State, a: string, rest: string)
    requires Group(a) && st.nibbles == 0 && st.word == 0
    ensures Loop(st, a + (":" + rest)) ==
      if st.n == 1 then None else Loop(State(st.out + GroupBytes(a), st.zero, Some(rest), 0, 0, st.n - 1), rest)
  {
    GroupRead(st, a, ":" + rest);
    NumberBound(a);
    ColonStep(st, |a|, Number(a, 16), rest, GroupBytes(a));
  }

  lemma ColonStep(st: State, k: nat, w: int, rest: string, b: seq<Byte>)
    requires k > 0 && 0 <= w < 65536 && b == [w / 256, w % 256]
    ensures Loop(st.(nibbles := k, word := w), ":" + rest) ==
      if st.n == 1 then None else Loop(State(st.out + b, st.zero, Some(rest), 0, 0, st.n - 1), rest)
  {
    LoopStep(st.(nibbles := k, word := w), ':', rest);
    BothBytes(w);
  }

  lemma BothBytes(w: int)
    requires 0 <= w < 65536
    ensures [High(w), Low(w)] == [w / 256, w % 256]
  {
  }

  lemma DottedTooSoon(st: State, a: string, rest: string, text: string)
    requires AtPart(st, text) && text == a + (":" + rest) && ':' !in a && '.' in a
    ensures Loop(st, text) == None
  {
    var b, more := Cut(a, '.');
    assert ':' !in b;
    assert text == b + ("." + (more + (":" + rest)));
    DotRead6(st, b, more + (":" + rest));
    if st.digit.Some? { ColonFails(text, NOTHING); }
  }

  /** ngx_inet6_addr on every text; one colon at the beginning is passed over. */
  lemma Inet6Exact(text: string)
    ensures Parse(text) ==
      if text == "" then None else Value(Split(if text[0] == ':' then text[1..] else text, ':'), [], None)
  {
    if text != "" { PiecesRead(START, if text[0] == ':' then text[1..] else text); }
  }

  // ----- section 2.2 of RFC 4291 -----

  /** Sixteen bits in hexadecimal, or the last four bytes in decimal. */
  datatype Part = Hexadecimal(text: string) | Decimals(a: string, b: string, c: string, d: string)

  predicate DecimalByte(s: string) { 1 <= |s| <= 3 && Digits(s, 10) && Number(s, 10) < 256 }

  predicate PartOk(t: Part) {
    match t
    case Hexadecimal(text) => Group(text)
    case Decimals(a, b, c, d) => DecimalByte(a) && DecimalByte(b) && DecimalByte(c) && DecimalByte(d)
  }

  function PartText(t: Part): string {
    match t
    case Hexadecimal(text) => text
    case Decimals(a, b, c, d) => a + ("." + (b + ("." + (c + ("." + d)))))
  }

  function PartBytes(t: Part): seq<Byte>
    requires PartOk(t)
  {
    match t
    case Hexadecimal(text) => GroupBytes(text)
    case Decimals(a, b, c, d) => [ByteOf(a), ByteOf(b), ByteOf(c), ByteOf(d)]
  }

  function ByteOf(s: string): Byte
    requires DecimalByte(s)
  {
    NotNegative(s);
    Number(s, 10)
  }

  lemma {:induction false} NotNegative(s: string)
    requires Digits(s, 10)
    ensures Number(s, 10) >= 0
  {
    if s != "" { NotNegative(s[..|s| - 1]); }
  }

  /** Decimals come last if at all. */
  predicate PartsOk(ts: seq<Part>) {
    ts != [] ==> PartOk(ts[0]) && (|ts| > 1 ==> ts[0].Hexadecimal?) && PartsOk(ts[1..])
  }

  predicate NoDecimals(ts: seq<Part>) { ts != [] ==> ts[0].Hexadecimal? && NoDecimals(ts[1..]) }

  /** The parts with colons between them. */
  function PartsText(ts: seq<Part>): string {
    if ts == [] then "" else if |ts| == 1 then PartText(ts[0]) else PartText(ts[0]) + (":" + PartsText(ts[1..]))
  }

  function PartsBytes(ts: seq<Part>): seq<Byte>
    requires PartsOk(ts)
  {
    if ts == [] then [] else PartBytes(ts[0]) + PartsBytes(ts[1..])
  }

  /** The address in full, or with "::" in the place of one or more groups of zeros. */
  datatype Notation = Full(parts: seq<Part>) | Gapped(left: seq<Part>, right: seq<Part>)

  predicate NotationOk(n: Notation) {
    match n
    case Full(ts) => PartsOk(ts) && |PartsBytes(ts)| == 16
    case Gapped(l, r) =>
      && PartsOk(l) && PartsOk(r) && NoDecimals(l)
      && |PartsBytes(l)| + |PartsBytes(r)| <= 14
  }

  function TextOf(n: Notation): string {
    match n
    case Full(ts) => PartsText(ts)
    case Gapped(l, r) => PartsText(l) + ("::" + PartsText(r))
  }

  function BytesOf(n: Notation): seq<Byte>
    requires NotationOk(n)
  {
    match n
    case Full(ts) => PartsBytes(ts)
    case Gapped(l, r) => PartsBytes(l) + Zeros(16 - |PartsBytes(l)| - |PartsBytes(r)|) + PartsBytes(r)
  }

  ghost predicate Denotes(text: string, p: Address) {
    exists n :: NotationOk(n) && TextOf(n) == text && BytesOf(n) == p
  }

  /** The texts that section 2.2 allows and ngx_inet6_addr refuses: a tail of
      255.255.255.255, and "::" after seven groups. */
  predicate Refused(n: Notation)
    requires NotationOk(n)
  {
    match n
    case Full(ts) => AllOnesLast(ts)
    case Gapped(l, r) => AllOnesLast(r) || |l| == 7
  }

  predicate AllOnesLast(ts: seq<Part>)
    requires PartsOk(ts)
  {
    if |ts| <= 1 then ts != [] && ts[0].Decimals? && PartBytes(ts[0]) == [255, 255, 255, 255] else AllOnesLast(ts[1..])
  }

  function Texts(ts: seq<Part>): (r: seq<string>)
    ensures |r| == |ts|
  {
    if ts == [] then [] else [PartText(ts[0])] + Texts(ts[1..])
  }

  lemma {:induction false} NoSeparator(s: string, base: nat, c: char)
    requires Digits(s, base) && (c == ':' || c == '.')
    ensures c !in s
  {
    if c in s {
      var i :| 0 <= i < |s| && s[i] == c;
      Separators(s[i]);
    }
  }

  lemma PartPlain(t: Part)
    requires PartOk(t)
    ensures ':' !in PartText(t) && PartText(t) != ""
  {
    match t
    case Hexadecimal(text) => NoSeparator(text, 16, ':');
    case Decimals(a, b, c, d) =>
      NoSeparator(a, 10, ':');
      NoSeparator(b, 10, ':');
      NoSeparator(c, 10, ':');
      NoSeparator(d, 10, ':');
  }

  lemma {:induction false} SplitParts(ts: seq<Part>)
    requires PartsOk(ts) && ts != []
    ensures Split(PartsText(ts), ':') == Texts(ts) && PartsText(ts) != "" && PartsText(ts)[0] != ':'
  {
    PartPlain(ts[0]);
    if |ts| == 1 {
      SplitLast(PartText(ts[0]), ':');
      assert Texts(ts) == [PartText(ts[0])] + Texts(ts[1..]);
    } else {
      SplitParts(ts[1..]);
      SplitFirst(PartText(ts[0]), ':', PartsText(ts[1..]));
    }
  }

  lemma DecimalPart(s: string)
    requires DecimalByte(s)
    ensures Octet(s) && OctetOf(s) == ByteOf(s) && '.' !in s
  {
    NotNegative(s);
    NoWide(Number(s, 10));
    NoSeparator(s, 10, '.');
  }

  lemma NoWide(x: nat)
    requires x < 256
    ensures x % W64 == x
  {
  }

  /** A dotted quad as the reference sees it. */
  lemma QuadPart(t: Part)
    requires PartOk(t) && t.Decimals?
    ensures Split(PartText(t), '.') == [t.a, t.b, t.c, t.d] && !Group(PartText(t))
    ensures if PartBytes(t) == [255, 255, 255, 255] then !Tail(PartText(t))
            else Tail(PartText(t)) && TailBytes(PartText(t)) == PartBytes(t)
  {
    DecimalPart(t.a);
    DecimalPart(t.b);
    DecimalPart(t.c);
    DecimalPart(t.d);
    SplitFirst(t.a, '.', t.b + ("." + (t.c + ("." + t.d))));
    SplitFirst(t.b, '.', t.c + ("." + t.d));
    SplitFirst(t.c, '.', t.d);
    SplitLast(t.d, '.');
    assert PartText(t)[|t.a|] == '.';
    DotNotGroup(PartText(t));
    JoinBytes(ByteOf(t.a), ByteOf(t.b), ByteOf(t.c), ByteOf(t.d));
    assert Group(t.a);
  }

  lemma LastPart(t: Part, out: seq<Byte>, gap: Option<nat>)
    requires PartOk(t)
    ensures Value([PartText(t)], out, gap) ==
      if t.Decimals? && PartBytes(t) == [255, 255, 255, 255] then None else Fill(out + PartBytes(t), gap)
  {
    PartPlain(t);
    if t.Decimals? { QuadPart(t); }
  }

  /** A group with more to come. */
  lemma GroupFirst(s: string, rest: seq<string>, out: seq<Byte>, gap: Option<nat>, all: seq<string>)
    requires Group(s) && rest != [] && |out| < 14 && all == [s] + rest
    ensures Value(all, out, gap) == Value(rest, out + GroupBytes(s), gap)
  {
    assert all[1..] == rest;
  }

  lemma {:induction false} ValueParts(ts: seq<Part>, out: seq<Byte>, gap: Option<nat>)
    requires PartsOk(ts) && ts != [] && |out| + |PartsBytes(ts)| <= 16
    ensures Value(Texts(ts), out, gap) == if AllOnesLast(ts) then None else Fill(out + PartsBytes(ts), gap)
    decreases |ts|
  {
    var t, rest := ts[0], ts[1..];
    if rest == [] {
      assert ts == [t] && Texts(ts) == [PartText(t)] && PartsBytes(ts) == PartBytes(t);
      LastPart(t, out, gap);
    } else {
      SomeBytes(rest);
      GroupFirst(t.text, Texts(rest), out, gap, Texts(ts));
      ValueParts(rest, out + PartBytes(t), gap);
      Bracketed(out, PartBytes(t), PartsBytes(rest));
    }
  }

  lemma SomeBytes(ts: seq<Part>)
    requires PartsOk(ts) && ts != []
    ensures |PartsBytes(ts)| >= 2
  {
  }

  lemma Bracketed(a: seq<Byte>, b: seq<Byte>, c: seq<Byte>)
    ensures a + b + c == a + (b + c)
  {
  }

  lemma {:induction false} ValueLeft(ts: seq<Part>, rest: seq<string>, out: seq<Byte>)
    requires PartsOk(ts) && NoDecimals(ts) && rest != []
    requires |out| + |PartsBytes(ts)| <= 14
    ensures Value(Texts(ts) + rest, out, None) == Value(rest, out + PartsBytes(ts), None)
    decreases |ts|
  {
    if ts == [] {
      assert Texts(ts) + rest == rest && out + PartsBytes(ts) == out;
    } else {
      var t := ts[0];
      assert Texts(ts) + rest == [t.text] + (Texts(ts[1..]) + rest);
      GroupFirst(t.text, Texts(ts[1..]) + rest, out, None, Texts(ts) + rest);
      ValueLeft(ts[1..], rest, out + PartBytes(t));
      Bracketed(out, PartBytes(t), PartsBytes(ts[1..]));
    }
  }

  /** Two bytes for each group. */
  lemma {:induction false} LeftLength(ts: seq<Part>)
    requires PartsOk(ts) && NoDecimals(ts)
    ensures |PartsBytes(ts)| == 2 * |ts|
  {
    if ts != [] { LeftLength(ts[1..]); }
  }

  function RightTexts(r: seq<Part>): seq<string> { if r == [] then [""] else Texts(r) }

  /** The second colon of the gap and what follows it. */
  lemma AfterGap(r: seq<Part>)
    requires PartsOk(r)
    ensures Split(":" + PartsText(r), ':') == [""] + RightTexts(r)
  {
    if r != [] { SplitParts(r); } else { SplitLast("", ':'); }
    SplitFirst("", ':', PartsText(r));
    assert "" + ([':'] + PartsText(r)) == ":" + PartsText(r);
  }

  lemma {:induction false} LeftSplit(l: seq<Part>, r: seq<Part>)
    requires PartsOk(l) && PartsOk(r) && l != []
    ensures var text := PartsText(l) + ("::" + PartsText(r));
      text != "" && text[0] != ':' && Split(text, ':') == Texts(l) + ([""] + RightTexts(r))
    decreases |l|
  {
    var t, rest := l[0], l[1..];
    if rest == [] {
      AfterGap(r);
      assert Texts(l) == [PartText(t)];
      Colons(PartText(t), PartsText(r));
      OnePart(t, PartsText(l) + ("::" + PartsText(r)), ":" + PartsText(r), [""] + RightTexts(r));
    } else {
      LeftSplit(rest, r);
      Rejoined(PartText(t), PartsText(rest), "::" + PartsText(r));
      OnePart(t, PartsText(l) + ("::" + PartsText(r)), PartsText(rest) + ("::" + PartsText(r)), Texts(rest) + ([""] + RightTexts(r)));
      Heads(PartText(t), Texts(rest), [""] + RightTexts(r));
    }
  }

  lemma Colons(a: string, b: string)
    ensures a + ("::" + b) == a + ([':'] + (":" + b))
  {
  }

  lemma Heads(a: string, b: seq<string>, c: seq<string>)
    ensures ([a] + b) + c == [a] + (b + c)
  {
  }

  lemma OnePart(t: Part, text: string, rest: string, ps: seq<string>)
    requires PartOk(t) && text == PartText(t) + ([':'] + rest) && Split(rest, ':') == ps
    ensures text != "" && text[0] != ':' && Split(text, ':') == [PartText(t)] + ps
  {
    PartPlain(t);
    SplitFirst(PartText(t), ':', rest);
  }

  lemma Rejoined(a: string, b: string, c: string)
    ensures (a + (":" + b)) + c == a + ([':'] + (b + c))
  {
  }

  lemma NothingLeft(a: string, b: string)
    requires a == ""
    ensures var text := a + ("::" + b); text != "" && text[0] == ':' && text[1..] == ":" + b
  {
  }

  /** The parts of a text with a gap, the colon at its beginning passed over. */
  lemma SplitGapped(l: seq<Part>, r: seq<Part>)
    requires PartsOk(l) && PartsOk(r)
    ensures var text := PartsText(l) + ("::" + PartsText(r));
      text != "" && (text[0] == ':' <==> l == [])
      && Split(if l == [] then text[1..] else text, ':') == Texts(l) + ([""] + RightTexts(r))
  {
    if l == [] {
      AfterGap(r);
      NothingLeft(PartsText(l), PartsText(r));
      assert Texts(l) + ([""] + RightTexts(r)) == [""] + RightTexts(r);
    } else {
      LeftSplit(l, r);
    }
  }

  lemma GapFirst(rest: seq<string>, out: seq<Byte>, all: seq<string>)
    requires rest != [] && all == [""] + rest
    ensures Value(all, out, None) == Value(rest, out, Some(|out|))
  {
    assert all[1..] == rest;
  }

  lemma AfterGapRead(out: seq<Byte>, r: seq<Part>, p: seq<Byte>, v: Option<seq<Byte>>)
    requires PartsOk(r) && |out| + |PartsBytes(r)| <= 14 && |out| % 2 == 0
    requires p == out + Zeros(16 - |out| - |PartsBytes(r)|) + PartsBytes(r) && v == Valued(RightTexts(r), out, Some(|out|))
    ensures v == if AllOnesLast(r) || |out| == 14 then None else Some(p)
  {
    ValuedIs(RightTexts(r), out, Some(|out|));
    if r == [] {
      var rest := RightTexts(r);
      assert rest[0] == "" && PartsBytes(r) == [];
      NothingRight(rest, out);
    } else {
      RightRead(out, r);
    }
  }

  lemma GapReached(l: seq<Part>, rest: seq<string>)
    requires PartsOk(l) && NoDecimals(l) && |PartsBytes(l)| <= 14 && rest != []
    ensures Valued(Texts(l) + ([""] + rest), [], None) == Valued(rest, PartsBytes(l), Some(|PartsBytes(l)|))
  {
    ValuedIs(Texts(l) + ([""] + rest), [], None);
    ValuedIs(rest, PartsBytes(l), Some(|PartsBytes(l)|));
    ValueLeft(l, [""] + rest, []);
    assert [] + PartsBytes(l) == PartsBytes(l);
    GapFirst(rest, PartsBytes(l), [""] + rest);
  }

  lemma NothingRight(rest: seq<string>, out: seq<Byte>)
    requires |rest| == 1 && rest[0] == "" && (|out| <= 12 || |out| == 14)
    ensures Value(rest, out, Some(|out|)) == if |out| == 14 then None else Some(out + Zeros(16 - |out|) + [])
  {
    if |out| <= 12 {
      FillAt(out, [0, 0]);
      MoreZeros(out, 14 - |out|);
    } else {
      assert |out + [0, 0]| == 16;
    }
  }

  lemma MoreZeros(out: seq<Byte>, n: nat)
    ensures out + Zeros(n) + [0, 0] == out + Zeros(n + 2) + []
  {
  }

  lemma RightRead(out: seq<Byte>, r: seq<Part>)
    requires PartsOk(r) && r != [] && |out| + |PartsBytes(r)| <= 14
    ensures |out| < 14
    ensures Value(Texts(r), out, Some(|out|)) ==
      if AllOnesLast(r) then None else Some(out + Zeros(16 - |out| - |PartsBytes(r)|) + PartsBytes(r))
  {
    SomeBytes(r);
    ValueParts(r, out, Some(|out|));
    FillAt(out, PartsBytes(r));
  }

  lemma FillAt(out: seq<Byte>, more: seq<Byte>)
    requires |out| + |more| <= 14
    ensures Fill(out + more, Some(|out|)) == Some(out + Zeros(16 - |out| - |more|) + more)
  {
    var all := out + more;
    assert all[..|out|] == out && all[|out|..] == more;
  }

  /** Every address written as section 2.2 of RFC 4291 says is read as it is meant, except
      exactly those two kinds, which are refused. */
  lemma NotationRead(n: Notation)
    requires NotationOk(n)
    ensures Parse(TextOf(n)) == if Refused(n) then None else Some(BytesOf(n))
  {
    match n
    case Full(ts) => FullRead(ts);
    case Gapped(l, r) => GappedRead(l, r, TextOf(n));
  }

  lemma FullRead(ts: seq<Part>)
    requires PartsOk(ts) && |PartsBytes(ts)| == 16
    ensures Parse(PartsText(ts)) == if AllOnesLast(ts) then None else Some(PartsBytes(ts))
  {
    Inet6Exact(PartsText(ts));
    SplitParts(ts);
    ValueParts(ts, [], None);
    assert [] + PartsBytes(ts) == PartsBytes(ts);
  }

  lemma GappedRead(l: seq<Part>, r: seq<Part>, text: string)
    requires NotationOk(Gapped(l, r)) && text == PartsText(l) + ("::" + PartsText(r))
    ensures Parse(text) == if AllOnesLast(r) || |l| == 7 then None else Some(BytesOf(Gapped(l, r)))
  {
    GapReach(l, r, text);
    GapValue(l, r, Valued(RightTexts(r), PartsBytes(l), Some(|PartsBytes(l)|)));
  }

  lemma GapValue(l: seq<Part>, r: seq<Part>, v: Option<seq<Byte>>)
    requires NotationOk(Gapped(l, r)) && v == Valued(RightTexts(r), PartsBytes(l), Some(|PartsBytes(l)|))
    ensures v == if AllOnesLast(r) || |l| == 7 then None else Some(BytesOf(Gapped(l, r)))
  {
    LeftLength(l);
    AfterGapRead(PartsBytes(l), r, BytesOf(Gapped(l, r)), v);
  }

  lemma GapReach(l: seq<Part>, r: seq<Part>, text: string)
    requires PartsOk(l) && PartsOk(r) && NoDecimals(l) && |PartsBytes(l)| <= 14 && text == PartsText(l) + ("::" + PartsText(r))
    ensures Parse(text) == Valued(RightTexts(r), PartsBytes(l), Some(|PartsBytes(l)|))
  {
    var ps := PiecesOf(l, r, text);
    GapParse(text, l, RightTexts(r), ps);
  }

  lemma PiecesOf(l: seq<Part>, r: seq<Part>, text: string) returns (ps: seq<string>)
    requires PartsOk(l) && PartsOk(r) && text == PartsText(l) + ("::" + PartsText(r))
    ensures text != "" && ps == Texts(l) + ([""] + RightTexts(r))
    ensures Parse(text) == Valued(ps, [], None)
  {
    ps := Texts(l) + ([""] + RightTexts(r));
    SplitGapped(l, r);
    Inet6Exact(text);
    ValuedIs(ps, [], None);
  }

  lemma GapParse(text: string, l: seq<Part>, rest: seq<string>, ps: seq<string>)
    requires PartsOk(l) && NoDecimals(l) && |PartsBytes(l)| <= 14 && rest != []
    requires ps == Texts(l) + ([""] + rest) && Parse(text) == Valued(ps, [], None)
    ensures Parse(text) == Valued(rest, PartsBytes(l), Some(|PartsBytes(l)|))
  {
    GapReached(l, rest);
  }

  /** Whatever notation it was written in: what is read is what is denoted. */
  lemma DenotedRead(text: string, p: Address)
    requires Denotes(text, p)
    ensures Gives(Parse(text), p) <==> !LastAllOnes(text) && !SevenGroups(text)
    ensures Gives(Parse(text), p) || Parse(text) == None
  {
    var n :| NotationOk(n) && TextOf(n) == text && BytesOf(n) == p;
    NotationRead(n);
    RefusedTexts(n);
  }

  /** The part after the last colon has four decimal numbers, each 255. */
  predicate LastAllOnes(text: string) { var ps := Split(text, ':'); AllOnesText(ps[|ps| - 1]) }

  predicate AllOnesText(s: string) {
    var q := Split(s, '.');
    |q| == 4 && Number(q[0], 10) == Number(q[1], 10) == Number(q[2], 10) == Number(q[3], 10) == 255
  }

  /** Nine parts of which the last two are empty and no other. */
  predicate SevenGroups(text: string) {
    var ps := Split(text, ':');
    |ps| == 9 && ps[7] == "" && ps[8] == "" && ps[0] != ""
  }

  lemma RefusedTexts(n: Notation)
    requires NotationOk(n)
    ensures Refused(n) <==> LastAllOnes(TextOf(n)) || SevenGroups(TextOf(n))
  {
    match n
    case Full(ts) =>
      SplitParts(ts);
      LastOnes(ts);
      forall i | 0 <= i < |ts| ensures Texts(ts)[i] != "" { TextAt(ts, i); }
    case Gapped(l, r) => RefusedGap(l, r);
  }

  lemma {:induction false} TextAt(ts: seq<Part>, i: nat)
    requires PartsOk(ts) && i < |ts|
    ensures Texts(ts)[i] == PartText(ts[i]) != ""
  {
    PartPlain(ts[0]);
    if i > 0 { TextAt(ts[1..], i - 1); }
  }

  lemma {:induction false} LastOnes(ts: seq<Part>)
    requires PartsOk(ts) && ts != []
    ensures AllOnesLast(ts) <==> AllOnesText(Texts(ts)[|ts| - 1])
  {
    if |ts| == 1 { OnesPart(ts[0]); } else { LastOnes(ts[1..]); }
  }

  lemma OnesPart(t: Part)
    requires PartOk(t)
    ensures t.Decimals? && PartBytes(t) == [255, 255, 255, 255] <==> AllOnesText(PartText(t))
  {
    if t.Decimals? {
      QuadPart(t);
      var q := [t.a, t.b, t.c, t.d];
      assert q[0] == t.a && q[1] == t.b && q[2] == t.c && q[3] == t.d;
    } else {
      NoSeparator(t.text, 16, '.');
      SplitLast(t.text, '.');
    }
  }

  lemma RefusedGap(l: seq<Part>, r: seq<Part>)
    requires NotationOk(Gapped(l, r))
    ensures var n := Gapped(l, r); Refused(n) <==> LastAllOnes(TextOf(n)) || SevenGroups(TextOf(n))
  {
    var text := PartsText(l) + ("::" + PartsText(r));
    var all := GapPieces(l, r, text);
    LeftLength(l);
    if r == [] { RefusedEnd(l, all); } else { RefusedTail(l, r, all); }
  }

  lemma GapPieces(l: seq<Part>, r: seq<Part>, text: string) returns (all: seq<string>)
    requires PartsOk(l) && PartsOk(r) && text == PartsText(l) + ("::" + PartsText(r))
    ensures all == Split(text, ':') == (if l == [] then [""] else Texts(l)) + ([""] + RightTexts(r))
  {
    all := Split(text, ':');
    SplitGapped(l, r);
    if l == [] {
      FirstEmpty(text);
      assert Texts(l) + ([""] + RightTexts(r)) == [""] + RightTexts(r);
    }
  }

  lemma RefusedEnd(l: seq<Part>, all: seq<string>)
    requires PartsOk(l) && all == (if l == [] then [""] else Texts(l)) + ([""] + [""])
    ensures !AllOnesText(all[|all| - 1])
    ensures |l| == 7 <==> |all| == 9 && all[7] == "" && all[8] == "" && all[0] != ""
  {
    SplitLast("", '.');
    if l != [] { TextAt(l, 0); }
  }

  lemma RefusedTail(l: seq<Part>, r: seq<Part>, all: seq<string>)
    requires PartsOk(l) && PartsOk(r) && r != [] && |PartsBytes(l)| + |PartsBytes(r)| <= 14 && |PartsBytes(l)| == 2 * |l|
    requires all == (if l == [] then [""] else Texts(l)) + ([""] + Texts(r))
    ensures |l| != 7 && all[|all| - 1] != "" && (AllOnesLast(r) <==> AllOnesText(all[|all| - 1]))
  {
    SomeBytes(r);
    LastOnes(r);
    TextAt(r, |r| - 1);
  }

  lemma FirstEmpty(text: string)
    requires text != "" && text[0] == ':'
    ensures Split(text, ':') == [""] + Split(text[1..], ':')
  {
  }

  // ----- how addresses are printed -----

  /** Small digits without leading zeros. */
  ghost predicate Canonical(s: string, base: nat) {
    s != "" && (forall i :: 0 <= i < |s| ==> exists v: nat :: v < base && v < 16 && s[i] == LOWER[v]) && (|s| > 1 ==> s[0] != '0')
  }

  lemma DigitPrinted(d: nat)
    requires d < 16
    ensures Digit(d) == LOWER[d] && DigitOf(Digit(d)) == d && (Digit(d) == '0' <==> d == 0)
  {
    Places(d);
    HexValueIs(Digit(d));
    HexDigit(d);
  }

  lemma Appended(s: string, base: nat, d: nat)
    requires Canonical(s, base) && d < base <= 16 && s != "0"
    ensures Canonical(s + [LOWER[d]], base)
    ensures Number(s + [LOWER[d]], base) == Number(s, base) * base + DigitOf(LOWER[d])
  {
    var t := s + [LOWER[d]];
    assert t[..|t| - 1] == s;
    forall i | 0 <= i < |t| ensures exists v: nat :: v < base && v < 16 && t[i] == LOWER[v] {
      if i < |s| { assert t[i] == s[i]; }
    }
  }

  /** A group is printed as the canonical numeral of its word. */
  lemma {:induction false} HexPrinted(x: nat)
    ensures Canonical(Hex(x), 16) && Number(Hex(x), 16) == x && (Hex(x) == "0" <==> x == 0)
    decreases x
  {
    if x < 16 {
      DigitPrinted(x);
      assert Hex(x)[..0] == "";
    } else {
      HexPrinted(x / 16);
      DigitPrinted(x % 16);
      Appended(Hex(x / 16), 16, x % 16);
    }
  }

  /** And the bytes of a dotted quad in decimal. */
  lemma {:induction false} DecPrinted(x: nat)
    ensures Canonical(Dec(x), 10) && Number(Dec(x), 10) == x && (Dec(x) == "0" <==> x == 0)
    decreases x
  {
    if x < 10 {
      DigitPrinted(x);
      assert Dec(x)[..0] == "";
    } else {
      DecPrinted(x / 10);
      DigitPrinted(x % 10);
      Appended(Dec(x / 10), 10, x % 10);
    }
  }

  /** Addresses whose last four bytes are printed in decimal: ten zeros, then ffff, or zeros
      up to the last two words, or up to the last, of which then the first byte is not 0 and
      the second not 1. */
  predicate PrintedAsQuad(p: Address) {
    && AllZero(p, 0, 5)
    && ((p[10] == 255 && p[11] == 255)
        || (WordAt(p, 5) == 0 && (WordAt(p, 6) != 0 || (p[14] != 0 && p[15] != 1))))
  }

  lemma QuadChosen(p: Address)
    ensures AsQuad(p, LongestRun(p)) <==> PrintedAsQuad(p)
    ensures PrintedAsQuad(p) ==> LongestRun(p) == Run(0, if p[10] == 255 then 5 else if WordAt(p, 6) != 0 then 6 else 7)
  {
    LongestRunIs(p);
    var r := LongestRun(p);
    if AsQuad(p, r) {
      if r.m < 7 { assert !AllZero(p, 0, r.m + 1); }
      assert WordAt(p, r.m) != 0;
    } else if PrintedAsQuad(p) {
      QuadRun(p, r.z, r.m);
    }
    if PrintedAsQuad(p) { QuadRun(p, r.z, r.m); }
  }

  lemma QuadRun(p: Address, z: int, m: nat)
    requires IsLongest(p, z, m, 8) && PrintedAsQuad(p)
    ensures z == 0 && m == if p[10] == 255 then 5 else if WordAt(p, 6) != 0 then 6 else 7
  {
    var n := if p[10] == 255 then 5 else if WordAt(p, 6) != 0 then 6 else 7;
    assert AllZero(p, 0, n) && WordAt(p, n) != 0;
    assert m >= n;
    assert z <= n;
  }

  /** And how they are printed. */
  lemma QuadPrinted(p: Address)
    requires PrintedAsQuad(p)
    ensures Print(p) == (if p[10] == 255 then "::ffff:" else "::") + Dotted(p[12], p[13], p[14], p[15])
  {
    QuadChosen(p);
    var r := LongestRun(p);
    var rest := Body(p, 0, r.m, 6, r.m);
    assert Body(p, r.z, r.m, 6, HEAD) == ":" + rest;
    if p[10] == 255 {
      FfffPrinted();
      assert Body(p, 0, 5, 6, 6) == "";
      assert rest == Hex(65535) + (":" + "");
      assert ":" + (":" + rest) == "::ffff:";
    } else {
      assert rest == "" && ":" + (":" + rest) == "::";
    }
    Grouped(":", ":" + rest, Dotted(p[12], p[13], p[14], p[15]));
  }

  lemma FfffPrinted()
    ensures Hex(65535) == "ffff"
  {
    assert Hex(15) == "f" && Hex(255) == "f" + "f" && Hex(4095) == "ff" + "f" && Hex(65535) == "fff" + "f";
  }

  lemma Grouped(a: string, b: string, c: string)
    ensures a + (b + c) == (a + b) + c
  {
  }
}
