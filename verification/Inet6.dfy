/** nginx/src/core/ngx_inet.c: IPv4 and IPv6 addresses as text. */
module Inet6 {

  type Byte = x: int | 0 <= x < 256

  type Address = s: seq<Byte> | |s| == 16 witness seq(16, _ => 0)

  datatype Option<T> = None | Some(value: T)

  const W32 := 0x1_0000_0000
  const W64 := 0x1_0000_0000_0000_0000
  const INADDR_NONE := 0xffff_ffff

  // ----- dotted quads -----

  /** The locals of ngx_inet_addr: a 32-bit word, a 64-bit word and a counter. */
  datatype Quad = Quad(addr: int, octet: int, n: nat)

  const NOTHING := Quad(0, 0, 0)

  /** One turn of its loop, or an error. */
  function InetNext(q: Quad, c: char): Option<Quad> {
    if '0' <= c <= '9' then Some(q.(octet := (q.octet * 10 + (c as int - '0' as int)) % W64))
    else if c == '.' && q.octet < 256 then Some(Quad((q.addr * 256 + q.octet) % W32, 0, q.n + 1))
    else None
  }

  function InetEnd(q: Quad): int { if q.n == 3 && q.octet < 256 then (q.addr * 256 + q.octet) % W32 else INADDR_NONE }

  function InetLoop(text: string, q: Quad): int
    decreases |text|
  {
    if text == "" then InetEnd(q)
    else
      match InetNext(q, text[0])
      case None => INADDR_NONE
      case Some(q') => InetLoop(text[1..], q')
  }

  /** ngx_inet_addr, with the result in host order */
  function InetAddr(text: string): int { InetLoop(text, NOTHING) }

  lemma InetStep(c: char, rest: string, q: Quad)
    ensures InetLoop([c] + rest, q) == match InetNext(q, c) case None => INADDR_NONE case Some(q') => InetLoop(rest, q')
  {
    var text := [c] + rest;
    assert text[0] == c && text[1..] == rest;
  }

  function Digit(d: int): char
    requires 0 <= d < 16
  {
    if d < 10 then ('0' as int + d) as char else ('a' as int + d - 10) as char
  }

  /** %ud */
  function Dec(x: nat): string { if x < 10 then [Digit(x)] else Dec(x / 10) + [Digit(x % 10)] }

  /** %uxi */
  function Hex(x: nat): string { if x < 16 then [Digit(x)] else Hex(x / 16) + [Digit(x % 16)] }

  function Dotted(a: Byte, b: Byte, c: Byte, d: Byte): string {
    Dec(a) + ("." + (Dec(b) + ("." + (Dec(c) + ("." + Dec(d))))))
  }

  lemma DigitRead(d: nat, rest: string, q: Quad)
    requires d < 10 && 0 <= q.octet < 100
    ensures InetLoop([Digit(d)] + rest, q) == InetLoop(rest, q.(octet := q.octet * 10 + d))
  {
    DigitNext(d, Digit(d), q);
    InetStep(Digit(d), rest, q);
  }

  lemma DigitNext(d: nat, c: char, q: Quad)
    requires d < 10 && 0 <= q.octet < 100 && c == Digit(d)
    ensures InetNext(q, c) == Some(q.(octet := q.octet * 10 + d))
  {
    var x := q.octet * 10 + d;
    assert x % W64 == x;
  }

  lemma {:induction false} DecRead(x: nat, rest: string, q: Quad)
    requires x < 256 && q.octet == 0
    ensures InetLoop(Dec(x) + rest, q) == InetLoop(rest, q.(octet := x))
    decreases x
  {
    if x < 10 {
      DigitRead(x, rest, q);
    } else {
      var last := [Digit(x % 10)];
      assert Dec(x) + rest == Dec(x / 10) + (last + rest);
      DecRead(x / 10, last + rest, q);
      DigitRead(x % 10, rest, q.(octet := x / 10));
    }
  }

  /** A dot ends an octet. */
  lemma DotRead(x: nat, rest: string, q: Quad, addr: nat)
    requires x < 256 && q.octet == 0 && 0 <= q.addr < 0x1_0000 && addr == q.addr * 256 + x
    ensures InetLoop(Dec(x) + ("." + rest), q) == InetLoop(rest, Quad(addr, 0, q.n + 1))
  {
    DecRead(x, "." + rest, q);
    InetStep('.', rest, q.(octet := x));
    NoWrap(addr);
  }

  lemma NoWrap(x: nat)
    requires x < W32
    ensures x % W32 == x
  {
  }

  function Join(a: Byte, b: Byte, c: Byte, d: Byte): int { ((a * 256 + b) * 256 + c) * 256 + d }

  /** What is printed is read back, though for 255.255.255.255 that is also how an error
      looks. */
  lemma DottedRead(a: Byte, b: Byte, c: Byte, d: Byte)
    ensures InetAddr(Dotted(a, b, c, d)) == Join(a, b, c, d)
  {
    var t3 := Dec(d);
    var t2 := Dec(c) + ("." + t3);
    var t1 := Dec(b) + ("." + t2);
    LastOctet(d, (a * 256 + b) * 256 + c);
    ThreeOctets(a, b, c, a * 256 + b, t3, t2, t1);
  }

  lemma ThreeOctets(a: Byte, b: Byte, c: Byte, ab: nat, t3: string, t2: string, t1: string)
    requires ab == a * 256 + b && t2 == Dec(c) + ("." + t3) && t1 == Dec(b) + ("." + t2)
    ensures InetLoop(Dec(a) + ("." + t1), NOTHING) == InetLoop(t3, Quad(ab * 256 + c, 0, 3))
  {
    DotRead(a, t1, NOTHING, a);
    TwoOctets(b, c, ab, Quad(a, 0, 1), t3, t2, t1);
  }

  lemma TwoOctets(b: Byte, c: Byte, ab: nat, q: Quad, t3: string, t2: string, t1: string)
    requires 0 <= q.addr < 256 && q.octet == 0 && ab == q.addr * 256 + b && t2 == Dec(c) + ("." + t3) && t1 == Dec(b) + ("." + t2)
    ensures InetLoop(t1, q) == InetLoop(t3, Quad(ab * 256 + c, 0, q.n + 2))
  {
    DotRead(b, t2, q, ab);
    DotRead(c, t3, Quad(ab, 0, q.n + 1), ab * 256 + c);
  }

  lemma LastOctet(d: Byte, abc: nat)
    requires abc < 0x100_0000
    ensures InetLoop(Dec(d), Quad(abc, 0, 3)) == abc * 256 + d
  {
    assert Dec(d) + "" == Dec(d);
    DecRead(d, "", Quad(abc, 0, 3));
    NoWrap(abc * 256 + d);
  }

  // ----- the parser -----

  /** The locals of ngx_inet6_addr: the bytes stored, where "::" was met, the text after
      the last colon, the digits and value of the current group, and the words to come. */
  datatype State = State(out: seq<Byte>, zero: Option<nat>, digit: Option<string>, nibbles: nat, word: int, n: int)

  const START := State([], None, None, 0, 0, 8)

  function High(w: int): Byte { w / 256 % 256 }
  function Low(w: int): Byte { w % 256 }

  /** c |= 0x20 */
  function Lower(c: char): char
    requires c as int < 256
  {
    if c as int / 32 % 2 == 0 then (c as int + 32) as char else c
  }

  /** The value of a hexadecimal digit, or nothing. */
  function HexValue(c: char): int {
    if '0' <= c <= '9' then c as int - '0' as int
    else if c as int < 256 && 'a' <= Lower(c) <= 'f' then Lower(c) as int - 'a' as int + 10
    else -1
  }

  datatype Next = Go(st: State) | Stop(end: Option<State>)

  /** One turn of the loop of ngx_inet6_addr; `rest` is the text after the character. */
  function Step(st: State, c: char, rest: string): Next {
    if c == ':' then
      if st.nibbles > 0 then
        if st.n - 1 == 0 then Stop(None)
        else Go(State(st.out + [High(st.word), Low(st.word)], st.zero, Some(rest), 0, 0, st.n - 1))
      else if st.zero.None? then Go(st.(digit := Some(rest), zero := Some(|st.out|)))
      else Stop(None)
    else if c == '.' && st.nibbles > 0 then
      if st.n < 2 || st.digit.None? then Stop(None)
      else
        var word := InetAddr(st.digit.value);
        if word == INADDR_NONE then Stop(None)
        else Stop(Some(st.(out := st.out + [word / 0x100_0000 % 256, word / 0x1_0000 % 256], word := word, n := st.n - 1)))
    else if st.nibbles + 1 > 4 || HexValue(c) < 0 then Stop(None)
    else Go(st.(nibbles := st.nibbles + 1, word := st.word * 16 + HexValue(c)))
  }

  /** The loop, up to the end of the text or a dotted quad. */
  function Loop(st: State, text: string): Option<State>
    decreases |text|
  {
    if text == "" then Some(st)
    else
      match Step(st, text[0], text[1..])
      case Go(st') => Loop(st', text[1..])
      case Stop(end) => end
  }

  /** A text in two parts, the first of one character. */
  lemma LoopStep(st: State, c: char, rest: string)
    ensures Loop(st, [c] + rest) == (match Step(st, c, rest) case Go(st') => Loop(st', rest) case Stop(end) => end)
  {
    var text := [c] + rest;
    assert text[0] == c && text[1..] == rest;
  }

  /** The rest of ngx_inet6_addr: the last word, and the zeros that "::" stands for. */
  function Finish(st: State): Option<seq<Byte>> {
    if st.nibbles == 0 && st.zero.None? then None
    else
      var out, n := st.out + [High(st.word), Low(st.word)], st.n - 1;
      if n != 0 then
        if st.zero.None? || st.zero.value > |out| || n < 0 then None
        else Some(out[..st.zero.value] + Zeros(2 * n) + out[st.zero.value..])
      else if st.zero.None? then Some(out)
      else None
  }

  function Zeros(n: nat): (r: seq<Byte>)
    ensures |r| == n
  {
    seq(n, _ => 0)
  }

  /** ngx_inet6_addr */
  function Parse(text: string): Option<seq<Byte>> {
    if text == "" then None
    else
      var st := Loop(START, if text[0] == ':' then text[1..] else text);
      if st.None? then None else Finish(st.value)
  }

  // ----- the printer -----

  function WordAt(p: Address, i: nat): int
    requires i < 8
  {
    p[2 * i] as int * 256 + p[2 * i + 1]
  }

  /** The first word.  It has a name because a call of Body that starts from a literal is
      unfolded as far as it goes. */
  const HEAD: nat := 0

  /** The groups from word i on; the words z to z + m are written as a colon. */
  function Body(p: Address, z: int, m: nat, n: nat, i: nat): string
    requires n <= 8 && 1 <= m
    decreases 8 - i
  {
    if i >= n then ""
    else if i == z then ":" + Body(p, z, m, n, i + m)
    else Hex(WordAt(p, i)) + ((if i < 7 then ":" else "") + Body(p, z, m, n, i + 1))
  }

  /** The words that are left out: a run of zeros, or none when m == 1. */
  datatype Run = Run(z: int, m: nat)

  /** Where the search stands, before word i: the best run so far, and the current one. */
  datatype Scan = Scan(i: nat, zero: int, max: nat, last: int, n: nat)

  const FIRST := Scan(0, -1, 1, -1, 0)

  function Better(s: Scan): Scan { if s.max < s.n then s.(zero := s.last, max := s.n) else s }

  /** One turn of the first loop of ngx_inet6_ntop. */
  function Look(p: Address, s: Scan): Scan
    requires s.i < 8
  {
    if WordAt(p, s.i) != 0 then Better(s).(i := s.i + 1, n := 0)
    else s.(i := s.i + 1, n := s.n + 1, last := if s.n == 0 then s.i else s.last)
  }

  /** The first loop of ngx_inet6_ntop. */
  function FindRun(p: Address, s: Scan): (r: Scan)
    requires s.i <= 8
    ensures s.max >= 1 ==> r.max >= 1
    decreases 8 - s.i
  {
    if s.i == 8 then Better(s) else FindRun(p, Look(p, s))
  }

  function LongestRun(p: Address): (r: Run)
    ensures r.m >= 1
  {
    var s := FindRun(p, FIRST);
    Run(s.zero, s.max)
  }

  /** Whether the last four bytes are written as a dotted quad. */
  predicate AsQuad(p: Address, r: Run) {
    r.z == 0 && ((r.m == 5 && p[10] == 255 && p[11] == 255) || r.m == 6 || (r.m == 7 && p[14] != 0 && p[15] != 1))
  }

  /** ngx_inet6_ntop */
  function Print(p: Address): string {
    var r := LongestRun(p);
    (if r.z == 0 then ":" else "")
    + (Body(p, r.z, r.m, if AsQuad(p, r) then 6 else 8, HEAD) + if AsQuad(p, r) then Dotted(p[12], p[13], p[14], p[15]) else "")
  }

  // ----- the run of zeros -----

  predicate AllZero(p: Address, from: int, to: int) {
    0 <= from && to <= 8 && forall i :: from <= i < to ==> WordAt(p, i) == 0
  }

  /** The words z to z + m are zeros, there are at least two of them, no run of zeros is
      longer and none before it as long; or m == 1 and there is no such run. */
  ghost predicate IsLongest(p: Address, z: int, m: nat, upto: int) {
    && 1 <= m && (if m == 1 then z == -1 else AllZero(p, z, z + m) && z + m <= upto)
    && (forall from, to :: AllZero(p, from, to) && to <= upto ==> to - from <= m)
    && (forall from, to :: AllZero(p, from, to) && to <= upto && to - from == m && m > 1 ==> z <= from)
  }

  /** Before word i: the current run of zeros, and the best of the runs before it. */
  ghost predicate Scanned(p: Address, s: Scan) {
    && s.n <= s.i <= 8 && AllZero(p, s.i - s.n, s.i) && (s.n < s.i ==> WordAt(p, s.i - s.n - 1) != 0)
    && (s.n > 0 ==> s.last == s.i - s.n) && IsLongest(p, s.zero, s.max, s.i - s.n)
  }

  lemma RunEnds(p: Address, s: Scan)
    requires Scanned(p, s)
    ensures IsLongest(p, Better(s).zero, Better(s).max, s.i)
  {
    forall from, to | AllZero(p, from, to) && to <= s.i && to > s.i - s.n && from < to ensures from >= s.i - s.n {}
  }

  lemma NonZeroAt(p: Address, i: nat, s: Scan)
    requires i < 8 && WordAt(p, i) != 0 && IsLongest(p, s.zero, s.max, i)
    ensures IsLongest(p, s.zero, s.max, i + 1)
  {
    forall from, to | AllZero(p, from, to) && to <= i + 1 && from < to ensures to <= i {}
  }

  lemma LookIs(p: Address, s: Scan)
    requires Scanned(p, s) && s.i < 8
    ensures Scanned(p, Look(p, s))
  {
    if WordAt(p, s.i) != 0 {
      RunEnds(p, s);
      NonZeroAt(p, s.i, Better(s));
    }
  }

  lemma {:induction false} FindRunIs(p: Address, s: Scan)
    requires Scanned(p, s)
    ensures var r := FindRun(p, s); IsLongest(p, r.zero, r.max, 8)
    decreases 8 - s.i
  {
    if s.i == 8 {
      RunEnds(p, s);
    } else {
      LookIs(p, s);
      FindRunIs(p, Look(p, s));
    }
  }

  /** The printer leaves out the longest run of zero words, the first of equals. */
  lemma LongestRunIs(p: Address)
    ensures var r := LongestRun(p); IsLongest(p, r.z, r.m, 8)
  {
    FindRunIs(p, FIRST);
  }

  // ----- reading back what was printed -----

  lemma HexDigit(d: nat)
    requires d < 16
    ensures HexValue(Digit(d)) == d && Digit(d) != ':' && Digit(d) != '.'
  {
  }

  /** Reading one more digit of a group. */
  lemma HexStep(st: State, d: nat, rest: string)
    requires d < 16 && st.nibbles < 4
    ensures Loop(st, [Digit(d)] + rest) == Loop(st.(nibbles := st.nibbles + 1, word := st.word * 16 + d), rest)
  {
    HexDigit(d);
    LoopStep(st, Digit(d), rest);
    assert Step(st, Digit(d), rest) == Go(st.(nibbles := st.nibbles + 1, word := st.word * 16 + d));
  }

  /** How many digits a group has. */
  lemma {:induction false} HexLength(x: nat)
    requires x < 65536
    ensures 1 <= |Hex(x)| <= 4 && (x < 4096 ==> |Hex(x)| <= 3) && (x < 256 ==> |Hex(x)| <= 2) && (x < 16 ==> |Hex(x)| == 1)
    decreases x
  {
    if x >= 16 { HexLength(x / 16); }
  }

  /** A group is read as the word it was printed from. */
  lemma {:induction false} HexRead(st: State, x: nat, rest: string)
    requires st.nibbles == 0 && st.word == 0 && x < 65536
    ensures Loop(st, Hex(x) + rest) == Loop(st.(nibbles := |Hex(x)|, word := x), rest)
    decreases x
  {
    HexLength(x);
    if x < 16 {
      HexStep(st, x, rest);
    } else {
      var last := [Digit(x % 16)];
      assert Hex(x) + rest == Hex(x / 16) + (last + rest);
      HexRead(st, x / 16, last + rest);
      HexLength(x / 16);
      HexStep(st.(nibbles := |Hex(x / 16)|, word := x / 16), x % 16, rest);
    }
  }

  /** A group and the colon after it are read as two bytes. */
  lemma WordRead(st: State, a: Byte, b: Byte, rest: string)
    requires st.nibbles == 0 && st.word == 0 && st.n > 1
    ensures Loop(st, Hex(a * 256 + b) + (":" + rest)) == Loop(State(st.out + [a, b], st.zero, Some(rest), 0, 0, st.n - 1), rest)
  {
    var x: nat := a * 256 + b;
    HexRead(st, x, ":" + rest);
    HexLength(x);
    LoopStep(st.(nibbles := |Hex(x)|, word := x), ':', rest);
    Bytes(a, b);
  }

  lemma Bytes(a: Byte, b: Byte)
    ensures High(a * 256 + b) == a && Low(a * 256 + b) == b
  {
  }

  /** The second colon of "::". */
  lemma ColonRead(st: State, rest: string)
    requires st.nibbles == 0 && st.zero.None?
    ensures Loop(st, ":" + rest) == Loop(st.(digit := Some(rest), zero := Some(|st.out|)), rest)
  {
    LoopStep(st, ':', rest);
  }

  /** The state of the parser before word i, given which words were left out. */
  predicate Before(p: Address, z: int, m: nat, i: nat, st: State) {
    && i <= 8 && st.nibbles == 0 && st.word == 0
    && (if z < 0 || i <= z then st.zero.None? && st.out == p[..2 * i] && st.n == 8 - i
        else z + m <= i && st.zero == Some(2 * z) && st.out == p[..2 * z] + p[2 * (z + m)..2 * i] && st.n == 8 - (i - m))
  }

  predicate Gives(r: Option<seq<Byte>>, p: Address) { r.Some? && r.value == p }

  lemma LastWord(p: Address, z: int, m: nat, st: State)
    requires Before(p, z, m, 7, st) && 1 <= m && (z >= 0 ==> m >= 2 && AllZero(p, z, z + m)) && z != 7
    ensures var w := WordAt(p, 7); Gives(Finish(st.(nibbles := |Hex(w)|, word := w)), p)
  {
    HexLength(WordAt(p, 7));
    Bytes(p[14], p[15]);
    var out := st.out + [p[14], p[15]];
    if z >= 0 {
      TailAfter(p, z, m, st.out, out);
      ZerosBetween(p, z, m);
    } else {
      assert out == p;
    }
  }

  lemma TailAfter(p: Address, z: nat, m: nat, out: seq<Byte>, all: seq<Byte>)
    requires z + m <= 7 && out == p[..2 * z] + p[2 * (z + m)..14] && all == out + [p[14], p[15]]
    ensures all[..2 * z] == p[..2 * z] && all[2 * z..] == p[2 * (z + m)..]
  {
  }

  lemma ZerosBetween(p: Address, z: int, m: nat)
    requires 0 <= z && z + m <= 8 && AllZero(p, z, z + m)
    ensures p == p[..2 * z] + Zeros(2 * m) + p[2 * (z + m)..]
  {
    forall k | 2 * z <= k < 2 * (z + m) ensures p[k] == 0 { assert WordAt(p, k / 2) == 0; }
  }

  /** The text ends with the colons of the words left out. */
  lemma LastZeros(p: Address, z: int, m: nat, st: State)
    requires Before(p, z, m, 8, st) && 2 <= m && 0 <= z && z + m == 8 && AllZero(p, z, 8)
    ensures Gives(Finish(st), p)
  {
    ZerosBetween(p, z, m);
    assert st.out == p[..2 * z];
    assert Zeros(2 * (m - 1)) + [0, 0] == Zeros(2 * m);
  }

  function FinishSome(st: Option<State>): Option<seq<Byte>> { if st.None? then None else Finish(st.value) }

  /** From every point on, reading the groups that follow completes the address. */
  lemma {:induction false} BodyRead(p: Address, z: int, m: nat, i: nat, st: State)
    requires Before(p, z, m, i, st) && 1 <= m && (z >= 0 ==> m >= 2 && AllZero(p, z, z + m) && z + m <= 8)
    requires i == 8 ==> z >= 0 && z + m == 8
    ensures Gives(FinishSome(Loop(st, Body(p, z, m, 8, i))), p)
    decreases 8 - i
  {
    if i == 8 {
      LastZeros(p, z, m, st);
    } else if i == z {
      var st' := SkipRun(p, z, m, i, st);
      BodyRead(p, z, m, i + m, st');
    } else if i == 7 {
      LastGroup(p, z, m, st);
    } else {
      var st' := OneGroup(p, z, m, i, st);
      BodyRead(p, z, m, i + 1, st');
    }
  }

  lemma SkipRun(p: Address, z: int, m: nat, i: nat, st: State) returns (st': State)
    requires Before(p, z, m, i, st) && 2 <= m && i == z && z + m <= 8
    ensures Before(p, z, m, i + m, st') && Loop(st, Body(p, z, m, 8, i)) == Loop(st', Body(p, z, m, 8, i + m))
  {
    var rest := Body(p, z, m, 8, i + m);
    ColonRead(st, rest);
    st' := st.(digit := Some(rest), zero := Some(|st.out|));
  }

  lemma OneGroup(p: Address, z: int, m: nat, i: nat, st: State) returns (st': State)
    requires Before(p, z, m, i, st) && 1 <= m && i < 7 && i != z
    requires z >= 0 ==> z + m <= 8
    ensures Before(p, z, m, i + 1, st') && Loop(st, Body(p, z, m, 8, i)) == Loop(st', Body(p, z, m, 8, i + 1))
  {
    var rest := Body(p, z, m, 8, i + 1);
    WordRead(st, p[2 * i], p[2 * i + 1], rest);
    st' := State(st.out + [p[2 * i], p[2 * i + 1]], st.zero, Some(rest), 0, 0, st.n - 1);
    NextWord(p, z, m, i, st, st');
  }

  lemma LastGroup(p: Address, z: int, m: nat, st: State)
    requires Before(p, z, m, 7, st) && 1 <= m && (z >= 0 ==> m >= 2 && AllZero(p, z, z + m)) && z != 7
    ensures Gives(FinishSome(Loop(st, Body(p, z, m, 8, 7))), p)
  {
    var w := WordAt(p, 7);
    assert Body(p, z, m, 8, 7) == Hex(w) + "";
    HexRead(st, w, "");
    LastWord(p, z, m, st);
  }

  lemma NextWord(p: Address, z: int, m: nat, i: nat, st: State, st': State)
    requires Before(p, z, m, i, st) && i < 7 && i != z
    requires st'.out == st.out + [p[2 * i], p[2 * i + 1]] && st'.zero == st.zero && st'.nibbles == 0 == st'.word && st'.n == st.n - 1
    ensures Before(p, z, m, i + 1, st')
  {
  }

  /** The first octet of a dotted quad is first taken for a group. */
  lemma {:induction false} DecAsHex(st: State, x: nat, rest: string) returns (w: int, k: nat)
    requires st.nibbles == 0 && x < 1000
    ensures 1 <= k <= 3 && (x < 100 ==> k <= 2) && (x < 10 ==> k == 1)
    ensures Loop(st, Dec(x) + rest) == Loop(st.(nibbles := k, word := w), rest)
    decreases x
  {
    if x < 10 {
      HexStep(st, x, rest);
      w, k := st.word * 16 + x, 1;
    } else {
      var last := [Digit(x % 10)];
      assert Dec(x) + rest == Dec(x / 10) + (last + rest);
      w, k := DecAsHex(st, x / 10, last + rest);
      HexStep(st.(nibbles := k, word := w), x % 10, rest);
      w, k := w * 16 + x % 10, k + 1;
    }
  }

  predicate AllOnes(a: Byte, b: Byte, c: Byte, d: Byte) { a == b == c == d == 255 }

  /** A dotted quad gives four bytes, or an error if they are all ones. */
  lemma QuadRead(st: State, a: Byte, b: Byte, c: Byte, d: Byte) returns (k: nat)
    requires st.nibbles == 0 && st.n >= 2 && st.digit == Some(Dotted(a, b, c, d))
    ensures k >= 1
    ensures Loop(st, Dotted(a, b, c, d))
      == if AllOnes(a, b, c, d) then None
         else Some(st.(out := st.out + [a, b], nibbles := k, word := Join(a, b, c, d), n := st.n - 1))
  {
    var rest := Dec(b) + ("." + (Dec(c) + ("." + Dec(d))));
    var w;
    w, k := DecAsHex(st, a, "." + rest);
    LoopStep(st.(nibbles := k, word := w), '.', rest);
    DottedRead(a, b, c, d);
    JoinBytes(a, b, c, d);
  }

  lemma JoinBytes(a: Byte, b: Byte, c: Byte, d: Byte)
    ensures var w := Join(a, b, c, d);
      && w / 0x100_0000 % 256 == a && w / 0x1_0000 % 256 == b && High(w) == c && Low(w) == d
      && (w == INADDR_NONE <==> AllOnes(a, b, c, d))
  {
    var ab, abc := a * 256 + b, (a * 256 + b) * 256 + c;
    ByteOff(a, b);
    ByteOff(ab, c);
    ByteOff(abc, d);
    UpperBytes(a, ab, b, c, d);
    OnesOnly(a, b, c, d);
  }

  /** The last byte taken off. */
  lemma ByteOff(x: nat, d: Byte)
    ensures (x * 256 + d) / 256 == x && (x * 256 + d) % 256 == d
  {
  }

  lemma UpperBytes(a: Byte, ab: nat, b: Byte, c: Byte, d: Byte)
    requires ab == a * 256 + b && ab % 256 == b
    ensures var w := Join(a, b, c, d); w / 0x1_0000 % 256 == b && w / 0x100_0000 % 256 == a
  {
    var w := Join(a, b, c, d);
    assert w == ab * 0x1_0000 + (c * 256 + d);
    Two(ab, c * 256 + d);
    assert w == a * 0x100_0000 + (b * 0x1_0000 + c * 256 + d);
    Three(a, b * 0x1_0000 + c * 256 + d);
  }

  lemma Two(x: nat, r: nat)
    requires r < 0x1_0000
    ensures (x * 0x1_0000 + r) / 0x1_0000 == x
  {
  }

  lemma Three(x: Byte, r: nat)
    requires r < 0x100_0000
    ensures (x * 0x100_0000 + r) / 0x100_0000 == x && (x as int) % 256 == x
  {
  }

  lemma OnesOnly(a: Byte, b: Byte, c: Byte, d: Byte)
    ensures Join(a, b, c, d) == INADDR_NONE <==> AllOnes(a, b, c, d)
  {
    assert Join(a, b, c, d) == a * 0x100_0000 + b * 0x1_0000 + c * 256 + d;
  }

  /** An address that ends in a dotted quad is read back, except when that is all ones. */
  lemma QuadTail(p: Address, m: nat, st: State)
    requires 5 <= m <= 7 && AllZero(p, 0, m) && (m == 5 ==> p[10] == 255 && p[11] == 255) && st.nibbles == 0 && st.zero == Some(0)
    requires st.out == (if m == 5 then [255, 255] else []) && st.n == (if m == 5 then 7 else 8)
    requires st.digit == Some(Dotted(p[12], p[13], p[14], p[15]))
    ensures var r := FinishSome(Loop(st, Dotted(p[12], p[13], p[14], p[15])));
      if AllOnes(p[12], p[13], p[14], p[15]) then r == None else Gives(r, p)
  {
    var a, b, c, d := p[12], p[13], p[14], p[15];
    var k := QuadRead(st, a, b, c, d);
    JoinBytes(a, b, c, d);
    if !AllOnes(a, b, c, d) {
      FirstZeros(p, if m == 5 then 5 else 6);
      var out := st.out + [a, b] + [c, d];
      assert p[12..] == [a, b, c, d];
      assert m == 5 ==> p[10..] == out;
      assert out[..0] + Zeros(if m == 5 then 10 else 12) + out[0..] == p;
    }
  }

  lemma FirstZeros(p: Address, m: nat)
    requires m <= 8 && AllZero(p, 0, m)
    ensures p == Zeros(2 * m) + p[2 * m..]
  {
    ZerosBetween(p, 0, m);
    assert p[..0] == [];
  }

  lemma QuadRoundTrip(p: Address, m: nat, start: State)
    requires 5 <= m <= 7 && AllZero(p, 0, m) && (m == 5 ==> p[10] == 255 && p[11] == 255) && start == START
    ensures var r := FinishSome(Loop(start, Body(p, 0, m, 6, HEAD) + Dotted(p[12], p[13], p[14], p[15])));
      if AllOnes(p[12], p[13], p[14], p[15]) then r == None else Gives(r, p)
  {
    var quad := Dotted(p[12], p[13], p[14], p[15]);
    var rest := Body(p, 0, m, 6, m);
    assert Body(p, 0, m, 6, HEAD) + quad == ":" + (rest + quad);
    ColonRead(start, rest + quad);
    var st := start.(digit := Some(rest + quad), zero := Some(0));
    if m == 5 {
      assert Body(p, 0, m, 6, 6) == "";
      assert rest == Hex(255 * 256 + 255) + (":" + "");
      assert rest + quad == Hex(255 * 256 + 255) + (":" + quad);
      WordRead(st, 255, 255, quad);
      QuadTail(p, m, State(st.out + [255, 255], st.zero, Some(quad), 0, 0, st.n - 1));
    } else {
      assert rest + quad == quad;
      QuadTail(p, m, st);
    }
  }

  /** A group does not begin with a colon. */
  lemma {:induction false} HexFirst(x: nat)
    ensures |Hex(x)| > 0 && Hex(x)[0] != ':'
    decreases x
  {
    if x >= 16 { HexFirst(x / 16); }
  }

  /** ::255.255.255.255 and ::ffff:255.255.255.255 */
  predicate AllOnesQuad(p: Address) {
    p[..10] == Zeros(10) && (p[10..] == [0, 0, 255, 255, 255, 255] || p[10..] == [255, 255, 255, 255, 255, 255])
  }

  /** These are the addresses that are printed with the tail 255.255.255.255. */
  lemma AllOnesPrinted(p: Address)
    ensures var r := LongestRun(p); AsQuad(p, r) && AllOnes(p[12], p[13], p[14], p[15]) <==> AllOnesQuad(p)
  {
    LongestRunIs(p);
    var r := LongestRun(p);
    if AsQuad(p, r) && AllOnes(p[12], p[13], p[14], p[15]) {
      assert WordAt(p, 6) != 0;
      FirstZeros(p, if r.m == 5 then 5 else 6);
      assert r.m == 6 ==> WordAt(p, 5) == 0;
    } else if AllOnesQuad(p) {
      OnesTail(p);
      TailRun(p, r.z, r.m);
    }
  }

  lemma OnesTail(p: Address)
    requires AllOnesQuad(p)
    ensures AllZero(p, 0, 5) && p[10] == p[11] && (p[10] == 0 || p[10] == 255) && AllOnes(p[12], p[13], p[14], p[15])
  {
    var head, tail := p[..10], p[10..];
    assert forall i :: 0 <= i < 10 ==> p[i] == head[i];
    assert forall i :: 10 <= i < 16 ==> p[i] == tail[i - 10];
  }

  lemma TailRun(p: Address, z: int, m: nat)
    requires IsLongest(p, z, m, 8) && AllZero(p, 0, 5) && p[10] == p[11] && (p[10] == 0 || p[10] == 255)
    requires AllOnes(p[12], p[13], p[14], p[15])
    ensures z == 0 && m == if p[10] == 0 then 6 else 5
  {
    assert WordAt(p, 6) != 0 && WordAt(p, 7) != 0 && (p[10] == 255 ==> WordAt(p, 5) != 0);
    assert p[10] == 0 ==> AllZero(p, 0, 6);
    assert m >= 5;
    assert z <= 2;
    assert z + m <= 6;
  }

  /** Reading a printed address gives the same 16 bytes, except exactly for these two: the
      parser takes the quad for an error. */
  lemma RoundTrip(p: Address)
    ensures if AllOnesQuad(p) then Parse(Print(p)) == None else Gives(Parse(Print(p)), p)
  {
    AllOnesPrinted(p);
    LongestRunIs(p);
    var r := LongestRun(p);
    if r.z == 0 {
      FromZero(p, r);
    } else {
      var text := Body(p, r.z, r.m, 8, HEAD);
      assert "" + (text + "") == text;
      HexFirst(WordAt(p, 0));
      BodyRead(p, r.z, r.m, HEAD, START);
    }
  }

  lemma FromZero(p: Address, r: Run)
    requires r == LongestRun(p) && r.z == 0 && IsLongest(p, r.z, r.m, 8)
    ensures if AsQuad(p, r) && AllOnes(p[12], p[13], p[14], p[15]) then Parse(Print(p)) == None else Gives(Parse(Print(p)), p)
  {
    if AsQuad(p, r) {
      var text := Body(p, 0, r.m, 6, HEAD) + Dotted(p[12], p[13], p[14], p[15]);
      assert (":" + text)[0] == ':' && (":" + text)[1..] == text;
      QuadRoundTrip(p, r.m, START);
    } else {
      var text := Body(p, 0, r.m, 8, HEAD);
      assert text + "" == text;
      assert (":" + text)[0] == ':' && (":" + text)[1..] == text;
      BodyRead(p, 0, r.m, HEAD, START);
    }
  }
}
