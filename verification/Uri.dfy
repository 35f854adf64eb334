/** nginx/src/core/ngx_string.c: escaping and unescaping of URIs, section 2.1 of RFC 3986.
    Characters stand for bytes. */
module Uri {
  import opened Hexadecimal

  type Byte = c: char | c as int < 256 witness '0'
  type Text = seq<Byte>

  // ----- the tables -----

  /** NGX_ESCAPE_URI and the others, in the order of their numbers. */
  datatype Type = Uri | Args | UriComponent | Html | Refresh | Memcached | MailAuth

  /** The words of the tables that are not the same in all of them: for the characters
      from 32, from 64 and from 96. */
  function TableWord(t: Type, i: int): nat
    requires 0 <= i < 8
  {
    if i == 0 then 0xffff_ffff
    else if i >= 4 then (if t.Memcached? || t.MailAuth? then 0 else 0xffff_ffff)
    else
      match t
      case Uri => if i == 1 then 0x8000_0029 else if i == 2 then 0 else 0x8000_0000
      case Args => if i == 1 then 0x8800_0869 else if i == 2 then 0 else 0x8000_0000
      case UriComponent => if i == 1 then 0xfc00_9fff else if i == 2 then 0x7800_0001 else 0xb800_0001
      case Html => if i == 1 then 0x0000_00ad else if i == 2 then 0 else 0x8000_0000
      case Refresh => if i == 1 then 0x0000_0085 else if i == 2 then 0 else 0x8000_0000
      case _ => if i == 1 then 0x0000_0021 else 0
  }

  /** word & (1 << k) */
  predicate Bit(w: nat, k: nat) { if k == 0 then w % 2 == 1 else Bit(w / 2, k - 1) }

  /** escape[*src >> 5] & (1 << (*src & 0x1f)) */
  predicate Escaped(t: Type, c: Byte) { Bit(TableWord(t, c as int / 32), c as int % 32) }

  predicate IsHex(c: char) { '0' <= c <= '9' || 'a' <= c <= 'f' }

  lemma Skip4(w: nat, k: nat)
    ensures Bit(w, k + 4) == Bit(w / 16, k)
  {
    assert Bit(w, k + 4) == Bit(w / 2, k + 3);
    assert Bit(w / 2, k + 3) == Bit(w / 2 / 2, k + 2);
    assert Bit(w / 2 / 2, k + 2) == Bit(w / 2 / 2 / 2, k + 1);
    assert Bit(w / 2 / 2 / 2, k + 1) == Bit(w / 2 / 2 / 2 / 2, k);
  }

  lemma Sixteenths(w: nat)
    ensures w / 16 / 16 == w / 256 && w / 256 / 16 == w / 4096 && w / 4096 / 16 == w / 65536
  {
  }

  // ----- which characters the tables name -----

  /** One of the low eight bits. */
  predicate Flag(b: nat, j: nat) {
    if j == 0 then b % 2 == 1
    else if j == 1 then b / 2 % 2 == 1
    else if j == 2 then b / 4 % 2 == 1
    else if j == 3 then b / 8 % 2 == 1
    else if j == 4 then b / 16 % 2 == 1
    else if j == 5 then b / 32 % 2 == 1
    else if j == 6 then b / 64 % 2 == 1
    else b / 128 % 2 == 1
  }

  lemma FlagIs(b: nat, j: nat)
    requires j < 8
    ensures Bit(b, j) == Flag(b, j)
  {
    if j >= 4 {
      Skip4(b, j - 4);
      LowFlag(b / 16, j - 4);
    } else {
      LowFlag(b, j);
    }
  }

  lemma LowFlag(b: nat, j: nat)
    requires j < 4
    ensures Bit(b, j) == if j == 0 then b % 2 == 1 else if j == 1 then b / 2 % 2 == 1 else if j == 2 then b / 4 % 2 == 1 else b / 8 % 2 == 1
  {
    if j > 0 { assert Bit(b, j) == Bit(b / 2, j - 1); }
    if j > 1 { assert Bit(b / 2, j - 1) == Bit(b / 2 / 2, j - 2); }
    if j > 2 { assert Bit(b / 2 / 2, j - 2) == Bit(b / 2 / 2 / 2, j - 3); }
  }

  /** The byte of a word that a bit is in, with what is above it. */
  function From(w: nat, i: nat): nat {
    if i == 0 then w else if i == 1 then w / 256 else if i == 2 then w / 65536 else w / 0x100_0000
  }

  lemma Skip8(w: nat, k: nat)
    ensures Bit(w, k + 8) == Bit(w / 256, k)
  {
    Skip4(w, k + 4);
    Skip4(w / 16, k);
    Sixteenths(w);
  }

  lemma WordFlag(w: nat, k: nat)
    requires k < 32
    ensures Bit(w, k) == Flag(From(w, k / 8), k % 8)
  {
    ByteFlag(w, k / 8, k % 8);
  }

  lemma ByteFlag(w: nat, i: nat, j: nat)
    requires i < 4 && j < 8
    ensures Bit(w, 8 * i + j) == Flag(From(w, i), j)
  {
    FlagIs(From(w, i), j);
    if i == 1 {
      Skip8(w, j);
    } else if i == 2 {
      Skip16(w, j);
    } else if i == 3 {
      Skip16(w, j + 8);
      Skip8(w / 65536, j);
      Bytes3(w);
    }
  }

  lemma Skip16(w: nat, k: nat)
    ensures Bit(w, k + 16) == Bit(w / 65536, k)
  {
    Skip8(w, k + 8);
    Skip8(w / 256, k);
    Bytes3(w);
  }

  lemma Bytes3(w: nat)
    ensures w / 256 / 256 == w / 65536 && w / 65536 / 256 == w / 0x100_0000
  {
  }

  predicate Unreserved(c: Byte) {
    'a' <= c <= 'z' || 'A' <= c <= 'Z' || '0' <= c <= '9' || c == '-' || c == '.' || c == '_' || c == '~'
  }

  /** Which characters each type escapes. */
  predicate Named(t: Type, c: Byte) {
    c as int < 32 ||
    match t
    case Uri => c in " #%?" || c as int >= 127
    case Args => c in " #%&+;?" || c as int >= 127
    case UriComponent => !Unreserved(c)
    case Html => c in " \"#%'" || c as int >= 127
    case Refresh => c in " \"'" || c as int >= 127
    case _ => c in " %"
  }

  lemma EscapedAre(t: Type, c: Byte)
    ensures Escaped(t, c) <==> Named(t, c)
  {
    var n := c as int;
    WordFlag(TableWord(t, n / 32), n % 32);
    if n < 32 {
      Ones(n);
    } else if n >= 128 {
      Ones(n % 32);
      Zero(n % 32);
    } else if n < 64 {
      SymbolsAre(t, c);
    } else {
      LettersAre(t, c);
    }
  }

  /** A hexadecimal digit is in no table, and the percent sign in all but one. */
  lemma Tables(t: Type, c: Byte)
    ensures IsHex(c) ==> !Escaped(t, c)
    ensures Escaped(t, '%') <==> !t.Refresh?
  {
    EscapedAre(t, c);
    EscapedAre(t, '%');
  }

  lemma Ones(k: nat)
    requires k < 32
    ensures Bit(0xffff_ffff, k)
  {
    WordFlag(0xffff_ffff, k);
    match k % 8
    case 0 => case 1 => case 2 => case 3 => case 4 => case 5 => case 6 => case _ => assert k % 8 == 7;
  }

  lemma Zero(k: nat)
    requires k < 32
    ensures !Bit(0, k)
  {
    WordFlag(0, k);
  }

  lemma SymbolsAre(t: Type, c: Byte)
    requires 32 <= c as int < 64
    ensures Escaped(t, c) <==> Named(t, c)
  {
    var k := c as int - 32;
    match t
    case Uri => WordFlag(0x8000_0029, k); UriSymbols(k);
    case Args => WordFlag(0x8800_0869, k); ArgsSymbols(k);
    case UriComponent => WordFlag(0xfc00_9fff, k); ComponentSymbols(k);
    case Html => WordFlag(0x0000_00ad, k); HtmlSymbols(k);
    case Refresh => WordFlag(0x0000_0085, k); RefreshSymbols(k);
    case _ => WordFlag(0x0000_0021, k); CacheSymbols(k);
  }

  /** The characters from the space on. */
  function Symbol(k: nat): Byte
    requires k < 32
  {
    (k + 32) as char
  }

  lemma UriSymbols(k: nat)
    requires k < 32
    ensures Flag(From(0x8000_0029, k / 8), k % 8) <==> Symbol(k) in " #%?"
  {
    match k % 8
    case 0 => case 1 => case 2 => case 3 => case 4 => case 5 => case 6 => case _ => assert k % 8 == 7;
  }

  lemma ArgsSymbols(k: nat)
    requires k < 32
    ensures Flag(From(0x8800_0869, k / 8), k % 8) <==> Symbol(k) in " #%&+;?"
  {
    match k % 8
    case 0 => case 1 => case 2 => case 3 => case 4 => case 5 => case 6 => case _ => assert k % 8 == 7;
  }

  lemma ComponentSymbols(k: nat)
    requires k < 32
    ensures Flag(From(0xfc00_9fff, k / 8), k % 8) <==> !Unreserved(Symbol(k))
  {
    match k % 8
    case 0 => case 1 => case 2 => case 3 => case 4 => case 5 => case 6 => case _ => assert k % 8 == 7;
  }

  lemma HtmlSymbols(k: nat)
    requires k < 32
    ensures Flag(From(0x0000_00ad, k / 8), k % 8) <==> Symbol(k) in " \"#%'"
  {
    match k % 8
    case 0 => case 1 => case 2 => case 3 => case 4 => case 5 => case 6 => case _ => assert k % 8 == 7;
  }

  lemma RefreshSymbols(k: nat)
    requires k < 32
    ensures Flag(From(0x0000_0085, k / 8), k % 8) <==> Symbol(k) in " \"'"
  {
    match k % 8
    case 0 => case 1 => case 2 => case 3 => case 4 => case 5 => case 6 => case _ => assert k % 8 == 7;
  }

  lemma CacheSymbols(k: nat)
    requires k < 32
    ensures Flag(From(0x0000_0021, k / 8), k % 8) <==> Symbol(k) in " %"
  {
    match k % 8
    case 0 => case 1 => case 2 => case 3 => case 4 => case 5 => case 6 => case _ => assert k % 8 == 7;
  }

  lemma LettersAre(t: Type, c: Byte)
    requires 64 <= c as int < 128
    ensures Escaped(t, c) <==> Named(t, c)
  {
    var k := c as int % 32;
    if c as int < 96 {
      if t.UriComponent? { WordFlag(0x7800_0001, k); CapitalsAre(c); } else { Zero(k); }
    } else {
      if t.UriComponent? { WordFlag(0xb800_0001, k); SmallsAre(c); }
      else if t.Memcached? || t.MailAuth? { Zero(k); }
      else { WordFlag(0x8000_0000, k); LastOnly(k); }
    }
  }

  lemma CapitalsAre(c: Byte)
    requires 64 <= c as int < 96
    ensures var k := c as int - 64; Flag(From(0x7800_0001, k / 8), k % 8) <==> !Unreserved(c)
  {
    var k := c as int - 64;
    match k % 8
    case 0 => case 1 => case 2 => case 3 => case 4 => case 5 => case 6 => case _ => assert k % 8 == 7;
  }

  lemma SmallsAre(c: Byte)
    requires 96 <= c as int < 128
    ensures var k := c as int - 96; Flag(From(0xb800_0001, k / 8), k % 8) <==> !Unreserved(c)
  {
    var k := c as int - 96;
    match k % 8
    case 0 => case 1 => case 2 => case 3 => case 4 => case 5 => case 6 => case _ => assert k % 8 == 7;
  }

  lemma LastOnly(k: nat)
    requires k < 32
    ensures Flag(From(0x8000_0000, k / 8), k % 8) <==> k == 31
  {
    match k % 8
    case 0 => case 1 => case 2 => case 3 => case 4 => case 5 => case 6 => case _ => assert k % 8 == 7;
  }

  // ----- escaping -----

  function Hex(d: int): Byte
    requires 0 <= d < 16
  {
    if d < 10 then ('0' as int + d) as char else ('a' as int + d - 10) as char
  }

  /** What ngx_escape_uri writes for one character. */
  function Written(t: Type, c: Byte): Text {
    if Escaped(t, c) then ['%', Hex(c as int / 16), Hex(c as int % 16)] else [c]
  }

  lemma WrittenAs(t: Type, c: Byte)
    ensures Written(t, c) == if Named(t, c) then ['%', LOWER[c as int / 16], LOWER[c as int % 16]] else [c]
  {
    EscapedAre(t, c);
    Places(c as int / 16);
    Places(c as int % 16);
  }

  function Escape(t: Type, s: Text): Text
    decreases |s|
  {
    if s == [] then [] else Written(t, s[0]) + Escape(t, s[1..])
  }

  /** What the sizing call returns. */
  function Count(t: Type, s: Text): nat
    decreases |s|
  {
    if s == [] then 0 else (if Escaped(t, s[0]) then 1 else 0) + Count(t, s[1..])
  }

  /** Character by character, and nothing else: what the type names is written as a percent
      sign and two small hexadecimal digits, the rest as it is. */
  lemma {:induction false} EscapedParts(t: Type, a: Text, c: Byte, b: Text)
    ensures Escape(t, a + [c] + b)
      == Escape(t, a) + (if Named(t, c) then ['%', LOWER[c as int / 16], LOWER[c as int % 16]] else [c]) + Escape(t, b)
    decreases |a|
  {
    var s := a + [c] + b;
    if a == [] {
      assert s == [c] + b && s[1..] == b;
      WrittenAs(t, c);
    } else {
      assert s[0] == a[0] && s[1..] == a[1..] + [c] + b;
      EscapedParts(t, a[1..], c, b);
    }
  }

  /** The escaped text is longer by twice the count. */
  lemma {:induction false} EscapeLength(t: Type, s: Text)
    ensures |Escape(t, s)| == |s| + 2 * Count(t, s)
    decreases |s|
  {
    if s != [] { EscapeLength(t, s[1..]); }
  }

  // ----- unescaping -----

  /** The states of ngx_unescape_uri; a first digit is kept with the character it was. */
  datatype State = Usual | Quoted | Second(decoded: int, first: Byte)

  /** What one character leads to: a state, what is written, and whether to stop. */
  datatype Turn = Turn(next: State, out: Text, done: bool)

  /** ch | 0x20 */
  function Lower(c: Byte): Byte { if c as int / 32 % 2 == 0 then (c as int + 32) as char else c }

  /** The value of a hexadecimal digit, or nothing. */
  function Value(c: Byte): int {
    if '0' <= c <= '9' then c as int - '0' as int
    else if 'a' <= Lower(c) <= 'f' then Lower(c) as int - 'a' as int + 10
    else -1
  }

  /** One turn of ngx_unescape_uri; `uri` and `redirect` are the bits of its type. */
  function Step(st: State, ch: Byte, uri: bool, redirect: bool): Turn {
    match st
    case Usual =>
      if ch == '?' && (uri || redirect) then Turn(Usual, [ch], true)
      else if ch == '%' then Turn(Quoted, [], false)
      else Turn(Usual, [ch], false)
    case Quoted =>
      if Value(ch) >= 0 then Turn(Second(Value(ch), ch), [], false) else Turn(Usual, [ch], false)
    case Second(decoded, first) =>
      if Value(ch) < 0 then Turn(Usual, [], false)
      else
        var c := ((decoded * 16 + Value(ch)) % 256) as char;
        if '0' <= ch <= '9' then
          Turn(Usual, if redirect && !('%' < c < 0x7f as char) then ['%', first, ch] else [c], false)
        else if uri then Turn(Usual, [c], c == '?')
        else if redirect then
          if c == '?' then Turn(Usual, [c], true)
          else Turn(Usual, if '%' < c < 0x7f as char then [c] else ['%', first, ch], false)
        else Turn(Usual, [c], false)
  }

  /** ngx_unescape_uri: what is written, and what is left unread. */
  function Unescape(st: State, text: Text, uri: bool, redirect: bool): (Text, Text)
    decreases |text|
  {
    if text == [] then ([], [])
    else
      var turn := Step(st, text[0], uri, redirect);
      if turn.done then (turn.out, text[1..])
      else
        var (out, rest) := Unescape(turn.next, text[1..], uri, redirect);
        (turn.out + out, rest)
  }

  /** Type 0. */
  function Plain(st: State, text: Text): Text { Unescape(st, text, false, false).0 }

  lemma PlainStep(st: State, c: Byte, rest: Text)
    ensures var turn := Step(st, c, false, false);
      && Plain(st, [c] + rest) == turn.out + Plain(turn.next, rest)
      && (turn.out == [] ==> Plain(st, [c] + rest) == Plain(turn.next, rest))
  {
    var text: Text := [c] + rest;
    assert text[0] == c && text[1..] == rest;
    var out := Plain(Step(st, c, false, false).next, rest);
    assert [] + out == out;
  }

  // ----- what unescaping makes of each piece of a text -----

  lemma DigitValue(c: Byte, v: nat)
    requires v < 16
    ensures Means(c, v) <==> Value(c) == v
  {
    Places(v);
  }

  lemma Stranger(c: Byte)
    requires forall v :: 0 <= v < 16 ==> !Means(c, v)
    ensures Value(c) < 0
  {
    if Value(c) >= 0 { DigitValue(c, Value(c)); }
  }

  lemma UnescapeStep(st: State, c: Byte, rest: Text, uri: bool, redirect: bool)
    ensures var turn := Step(st, c, uri, redirect);
      Unescape(st, [c] + rest, uri, redirect)
        == if turn.done then (turn.out, rest)
           else (turn.out + Unescape(turn.next, rest, uri, redirect).0, Unescape(turn.next, rest, uri, redirect).1)
  {
    var text: Text := [c] + rest;
    assert text[0] == c && text[1..] == rest;
  }

  /** A character that is no percent sign stays; a question mark ends a URI. */
  lemma ReadPlain(c: Byte, rest: Text, uri: bool, redirect: bool)
    requires c != '%'
    ensures Unescape(Usual, [c] + rest, uri, redirect) ==
      if c == '?' && (uri || redirect) then ([c], rest)
      else ([c] + Unescape(Usual, rest, uri, redirect).0, Unescape(Usual, rest, uri, redirect).1)
  {
    UnescapeStep(Usual, c, rest, uri, redirect);
  }

  /** Two digits of either case give the character; an escaped question mark ends a URI, and
      a redirect keeps the escape of whatever is not above the percent sign and below 0x7f. */
  lemma ReadCode(x: Byte, y: Byte, hi: nat, lo: nat, rest: Text, uri: bool, redirect: bool)
    requires Means(x, hi) && Means(y, lo)
    ensures var c: Byte := (16 * hi + lo) as char;
      Unescape(Usual, ['%'] + ([x] + ([y] + rest)), uri, redirect) ==
        if c == '?' && (uri || redirect) then ([c], rest)
        else
          var out, left := Unescape(Usual, rest, uri, redirect).0, Unescape(Usual, rest, uri, redirect).1;
          ((if redirect && (lo < 10 || !uri) && !('%' < c < 0x7f as char) then ['%', x, y] else [c]) + out, left)
  {
    DigitValue(x, hi);
    Skipped('%', Usual, Quoted, [x] + ([y] + rest), uri, redirect);
    Skipped(x, Quoted, State.Second(hi, x), [y] + rest, uri, redirect);
    CodeStep(x, y, hi, lo, uri, redirect);
    UnescapeStep(State.Second(hi, x), y, rest, uri, redirect);
  }

  lemma CodeStep(x: Byte, y: Byte, hi: nat, lo: nat, uri: bool, redirect: bool)
    requires hi < 16 && Means(y, lo)
    ensures var c: Byte := (16 * hi + lo) as char;
      Step(State.Second(hi, x), y, uri, redirect) ==
        if c == '?' && (uri || redirect) then Turn(Usual, [c], true)
        else Turn(Usual, if redirect && (lo < 10 || !uri) && !('%' < c < 0x7f as char) then ['%', x, y] else [c], false)
  {
    DigitValue(y, lo);
    Places(lo);
    assert hi * 16 + lo < 256;
  }

  lemma Skipped(c: Byte, st: State, st': State, rest: Text, uri: bool, redirect: bool)
    requires Step(st, c, uri, redirect) == Turn(st', [], false)
    ensures Unescape(st, [c] + rest, uri, redirect) == Unescape(st', rest, uri, redirect)
  {
    UnescapeStep(st, c, rest, uri, redirect);
    assert [] + Unescape(st', rest, uri, redirect).0 == Unescape(st', rest, uri, redirect).0;
  }

  /** A percent sign before no digit is dropped, and so are a digit after it and what follows
      when that is no digit. */
  lemma ReadBroken(x: Byte, y: Byte, v: nat, rest: Text, uri: bool, redirect: bool)
    ensures (forall v :: 0 <= v < 16 ==> !Means(x, v)) ==>
      Unescape(Usual, ['%'] + ([x] + rest), uri, redirect)
        == ([x] + Unescape(Usual, rest, uri, redirect).0, Unescape(Usual, rest, uri, redirect).1)
    ensures Means(x, v) && (forall v :: 0 <= v < 16 ==> !Means(y, v)) ==>
      Unescape(Usual, ['%'] + ([x] + ([y] + rest)), uri, redirect) == Unescape(Usual, rest, uri, redirect)
  {
    if forall v :: 0 <= v < 16 ==> !Means(x, v) {
      Stranger(x);
      Skipped('%', Usual, Quoted, [x] + rest, uri, redirect);
      UnescapeStep(Quoted, x, rest, uri, redirect);
    } else if Means(x, v) && forall v :: 0 <= v < 16 ==> !Means(y, v) {
      DigitValue(x, v);
      Stranger(y);
      Skipped('%', Usual, Quoted, [x] + ([y] + rest), uri, redirect);
      Skipped(x, Quoted, State.Second(v, x), [y] + rest, uri, redirect);
      Skipped(y, State.Second(v, x), Usual, rest, uri, redirect);
    }
  }

  /** An escape that the end of the text cuts off is dropped. */
  lemma ReadCut(x: Byte, v: nat, uri: bool, redirect: bool)
    requires Means(x, v)
    ensures Unescape(Usual, ['%'], uri, redirect) == ([], []) && Unescape(Usual, ['%', x], uri, redirect) == ([], [])
  {
    DigitValue(x, v);
    assert ['%', x] == ['%'] + ([x] + []) && ['%'] + [] == ['%'];
    Skipped('%', Usual, Quoted, [], uri, redirect);
    Skipped('%', Usual, Quoted, [x] + [], uri, redirect);
    Skipped(x, Quoted, State.Second(v, x), [], uri, redirect);
  }

  // ----- the round trip -----

  lemma HexValue(d: int)
    requires 0 <= d < 16
    ensures Value(Hex(d)) == d && IsHex(Hex(d)) && Hex(d) != '%'
  {
  }

  /** An escaped character is read back. */
  lemma ReadEscaped(c: Byte, rest: Text)
    ensures Plain(Usual, ['%', Hex(c as int / 16), Hex(c as int % 16)] + rest) == [c] + Plain(Usual, rest)
  {
    var n := c as int;
    var h, l := Hex(n / 16), Hex(n % 16);
    HexValue(n / 16);
    HexValue(n % 16);
    assert ['%', h, l] + rest == ['%'] + ([h] + ([l] + rest));
    ReadDigits(n / 16, n % 16, h, l, c, rest);
  }

  lemma ReadDigits(d: int, e: int, h: Byte, l: Byte, c: Byte, rest: Text)
    requires 0 <= d < 16 && 0 <= e < 16 && d * 16 + e == c as int && Value(h) == d && Value(l) == e
    ensures Plain(Usual, ['%'] + ([h] + ([l] + rest))) == [c] + Plain(Usual, rest)
  {
    PlainStep(Usual, '%', [h] + ([l] + rest));
    PlainStep(Quoted, h, [l] + rest);
    ReadSecond(d, e, h, l, c, rest);
  }

  lemma ReadSecond(d: int, e: int, h: Byte, l: Byte, c: Byte, rest: Text)
    requires d * 16 + e == c as int && Value(l) == e >= 0
    ensures Plain(Second(d, h), [l] + rest) == [c] + Plain(Usual, rest)
  {
    PlainStep(Second(d, h), l, rest);
  }

  lemma {:induction false} RoundTrips(t: Type, s: Text)
    requires Escaped(t, '%') || '%' !in s
    ensures Plain(Usual, Escape(t, s)) == s
    decreases |s|
  {
    if s != [] {
      var c, rest := s[0], Escape(t, s[1..]);
      RoundTrips(t, s[1..]);
      if Escaped(t, c) { ReadEscaped(c, rest); } else { PlainStep(Usual, c, rest); }
      assert s == [c] + s[1..];
    }
  }

  // ----- and when it fails -----

  function Percents(s: Text): nat
    decreases |s|
  {
    if s == [] then 0 else (if s[0] == '%' then 1 else 0) + Percents(s[1..])
  }

  /** The characters that only an unescaping can have written, and percent signs. */
  function Special(t: Type, c: Byte): nat { if c == '%' || Escaped(t, c) then 1 else 0 }

  function Specials(t: Type, s: Text): nat
    decreases |s|
  {
    if s == [] then 0 else Special(t, s[0]) + Specials(t, s[1..])
  }

  predicate Clean(t: Type, text: Text) { forall i :: 0 <= i < |text| ==> !Escaped(t, text[i]) }

  /** Every special character written costs a percent sign and two more characters, or two
      percent signs. */
  lemma {:induction false} Shrinks(t: Type, text: Text)
    requires Clean(t, text)
    ensures var out := Plain(Usual, text); |text| - |out| >= 3 * Specials(t, out) - Percents(text)
    decreases |text|
  {
    if text == [] {
    } else if text[0] != '%' {
      var c, rest := text[0], text[1..];
      assert text == [c] + rest;
      Shrinks(t, rest);
      PlainStep(Usual, c, rest);
      OneMore(t, c, Plain(Usual, rest));
    } else if |text| == 1 {
      assert text == ['%'] + [];
      PlainStep(Usual, '%', []);
    } else {
      assert text == ['%'] + text[1..];
      PlainStep(Usual, '%', text[1..]);
      AfterPercent(t, text[1..]);
    }
  }

  lemma OneMore(t: Type, c: Byte, out: Text)
    ensures Specials(t, [c] + out) == Special(t, c) + Specials(t, out) && Percents([c] + out) == (if c == '%' then 1 else 0) + Percents(out)
  {
    assert ([c] + out)[1..] == out;
  }

  lemma {:induction false} AfterPercent(t: Type, text: Text)
    requires Clean(t, text) && text != []
    ensures var out := Plain(Quoted, text); |text| + 1 - |out| >= 3 * Specials(t, out) - Percents(text) - 1
    decreases |text|, 0
  {
    var x, rest := text[0], text[1..];
    assert text == [x] + rest;
    PlainStep(Quoted, x, rest);
    if Value(x) < 0 {
      Shrinks(t, rest);
      OneMore(t, x, Plain(Usual, rest));
    } else if rest != [] {
      AfterDigit(t, Value(x), x, rest);
    }
  }

  lemma {:induction false} AfterDigit(t: Type, d: int, x: Byte, text: Text)
    requires Clean(t, text) && text != [] && 0 <= d < 16
    ensures var out := Plain(Second(d, x), text); |text| + 2 - |out| >= 3 * Specials(t, out) - Percents(text) - 1
    decreases |text|, 0
  {
    var y, rest := text[0], text[1..];
    assert text == [y] + rest;
    PlainStep(Second(d, x), y, rest);
    Shrinks(t, rest);
    if Value(y) >= 0 {
      var c: Byte := ((d * 16 + Value(y)) % 256) as char;
      OneMore(t, c, Plain(Usual, rest));
    }
  }

  lemma {:induction false} EscapeClean(t: Type, s: Text)
    requires !Escaped(t, '%')
    ensures Clean(t, Escape(t, s)) && Percents(Escape(t, s)) == Percents(s) + Count(t, s)
    ensures Specials(t, s) == Percents(s) + Count(t, s)
    decreases |s|
  {
    if s != [] {
      EscapeClean(t, s[1..]);
      WrittenClean(t, s[0], Escape(t, s[1..]));
    }
  }

  lemma WrittenClean(t: Type, c: Byte, rest: Text)
    requires !Escaped(t, '%') && Clean(t, rest)
    ensures Clean(t, Written(t, c) + rest) && Percents(Written(t, c) + rest) == Special(t, c) + Percents(rest)
  {
    if Escaped(t, c) {
      var h, l := Hex(c as int / 16), Hex(c as int % 16);
      HexValue(c as int / 16);
      HexValue(c as int % 16);
      assert Written(t, c) + rest == ['%'] + ([h] + ([l] + rest));
      ThreeMore(t, h, l, rest);
    } else {
      OneMore(t, c, rest);
    }
  }

  /** An escape in front of a text is one more percent sign. */
  lemma ThreeMore(t: Type, h: Byte, l: Byte, rest: Text)
    requires !Escaped(t, '%') && Clean(t, rest) && IsHex(h) && IsHex(l)
    ensures var s := ['%'] + ([h] + ([l] + rest)); Clean(t, s) && Percents(s) == 1 + Percents(rest)
  {
    Tables(t, h);
    Tables(t, l);
    OneMore(t, l, rest);
    OneMore(t, h, [l] + rest);
    OneMore(t, '%', [h] + ([l] + rest));
  }

  lemma {:induction false} NoPercents(s: Text)
    ensures Percents(s) == 0 <==> '%' !in s
    decreases |s|
  {
    if s != [] {
      NoPercents(s[1..]);
      assert s == [s[0]] + s[1..];
    }
  }

  /** Unescaping restores what was escaped exactly when the table escapes the percent sign,
      as all tables but that of NGX_ESCAPE_REFRESH do, or there is none in the text. */
  lemma RoundTrip(t: Type, s: Text)
    ensures Plain(Usual, Escape(t, s)) == s <==> !t.Refresh? || '%' !in s
  {
    Tables(t, '%');
    if !t.Refresh? || '%' !in s {
      RoundTrips(t, s);
    } else {
      EscapeClean(t, s);
      Shrinks(t, Escape(t, s));
      EscapeLength(t, s);
      NoPercents(s);
    }
  }

  // ----- the loops -----

  /** ngx_escape_uri without a destination */
  method CountEscapes(t: Type, src: Text) returns (n: nat)
    ensures n == Count(t, src)
  {
    n := 0;
    var i := 0;
    assert src[0..] == src;
    while i < |src|
      invariant i <= |src| && n + Count(t, src[i..]) == Count(t, src)
    {
      assert src[i..][1..] == src[i + 1..];
      if Escaped(t, src[i]) { n := n + 1; }
      i := i + 1;
    }
  }

  /** ngx_escape_uri with one */
  method EscapeText(t: Type, src: Text) returns (dst: Text)
    ensures dst == Escape(t, src)
  {
    dst := [];
    var i := 0;
    assert src[0..] == src;
    while i < |src|
      invariant i <= |src| && dst + Escape(t, src[i..]) == Escape(t, src)
    {
      assert src[i..][1..] == src[i + 1..];
      Associate(dst, Written(t, src[i]), Escape(t, src[i + 1..]));
      if Escaped(t, src[i]) {
        dst := dst + ['%', Hex(src[i] as int / 16), Hex(src[i] as int % 16)];
      } else {
        dst := dst + [src[i]];
      }
      i := i + 1;
    }
    assert dst + [] == dst;
  }

  lemma Associate(a: Text, b: Text, c: Text)
    ensures a + (b + c) == (a + b) + c
  {
  }

  /** ngx_unescape_uri */
  method UnescapeText(src: Text, uri: bool, redirect: bool) returns (dst: Text, rest: Text)
    ensures (dst, rest) == Unescape(Usual, src, uri, redirect)
  {
    dst := [];
    var state := Usual;
    var s := 0;
    ghost var end := Unescape(Usual, src, uri, redirect);
    assert src[0..] == src && [] + end.0 == end.0;
    while s < |src|
      invariant s <= |src| && end == (dst + Unescape(state, src[s..], uri, redirect).0, Unescape(state, src[s..], uri, redirect).1)
    {
      var ch := src[s];
      assert src[s..][0] == ch && src[s..][1..] == src[s + 1..];
      var turn := Step(state, ch, uri, redirect);
      Associate(dst, turn.out, Unescape(turn.next, src[s + 1..], uri, redirect).0);
      dst := dst + turn.out;
      s := s + 1;
      if turn.done { return dst, src[s..]; }
      state := turn.next;
    }
    assert dst + [] == dst;
    return dst, [];
  }
}
