/**
  The hex format of `bytea` (section 8.4.1 of the PostgreSQL documentation): how the client writes it
  into array elements and COPY lines, and how it reads it from results.
 */
module Bytea {
  import opened Basics
  import opened CopyText

  type Byte = n: nat | n < 256
  type Digit = n: nat | n < 16

  const HEX: string := "0123456789abcdef"

  function Pair(byte: Byte): string {
    [HEX[byte / 16], HEX[byte % 16]]
  }

  function Hex(bytes: seq<Byte>): string {
    if bytes == [] then [] else Pair(bytes[0]) + Hex(bytes[1..])
  }

  /** The text of a `bytea` value in results, and what a statement has to contain. */
  function HexText(bytes: seq<Byte>): string {
    ['\\', 'x'] + Hex(bytes)
  }

  /** `unhex`; there is no digit for the other characters. */
  function Unhex(c: char): Option<Digit> {
    if '0' <= c <= '9' then Some((c - '0') as nat)
    else if 'a' <= c <= 'f' then Some((c - 'a') as nat + 10)
    else None
  }

  /** `( high << 4 ) | low` */
  function ShiftOr(high: Digit, low: Digit): (byte: Byte)
    ensures byte / 16 == high && byte % 16 == low
  {
    var n: nat := high;
    n * 16 + low
  }

  predicate HexDigits(s: string) {
    forall i :: 0 <= i < |s| ==> Unhex(s[i]).Some?
  }

  /** What `unescape_bytea` accepts. */
  predicate IsHexText(s: string) {
    |s| >= 2 && s[0] == '\\' && s[1] == 'x' && |s| % 2 == 0 && HexDigits(s[2..])
  }

  lemma DigitRoundTrip(n: Digit)
    ensures Unhex(HEX[n]) == Some(n)
  {
    assert HEX[0] == '0' && HEX[1] == '1' && HEX[2] == '2' && HEX[3] == '3';
    assert HEX[4] == '4' && HEX[5] == '5' && HEX[6] == '6' && HEX[7] == '7';
    assert HEX[8] == '8' && HEX[9] == '9' && HEX[10] == 'a' && HEX[11] == 'b';
    assert HEX[12] == 'c' && HEX[13] == 'd' && HEX[14] == 'e' && HEX[15] == 'f';
  }

  lemma CharRoundTrip(c: char)
    requires Unhex(c).Some?
    ensures HEX[Unhex(c).value] == c
  {
    DigitRoundTrip(Unhex(c).value);
  }

  /** Character `i` of the digits. */
  lemma {:induction false} HexAt(bytes: seq<Byte>, i: nat)
    requires i < |bytes|
    ensures |Hex(bytes)| == 2 * |bytes|
    ensures Hex(bytes)[2 * i] == HEX[bytes[i] / 16] && Hex(bytes)[2 * i + 1] == HEX[bytes[i] % 16]
  {
    HexLength(bytes);
    if i > 0 {
      HexAt(bytes[1..], i - 1);
    }
  }

  lemma {:induction false} HexLength(bytes: seq<Byte>)
    ensures |Hex(bytes)| == 2 * |bytes|
  {
    if bytes != [] {
      HexLength(bytes[1..]);
    }
  }

  /** Digit `i` of the text stands for half of byte `i / 2`. */
  predicate Decodes(s: string, bytes: seq<Byte>, n: nat)
    requires n <= |bytes|
  {
    && 2 * n <= |s|
    && forall i :: 0 <= i < n ==>
         Unhex(s[2 * i]) == Some(bytes[i] / 16) && Unhex(s[2 * i + 1]) == Some(bytes[i] % 16)
  }

  lemma {:induction false} DecodedAt(s: string, bytes: seq<Byte>, i: nat)
    requires |s| == 2 * |bytes| && i < |bytes| && Decodes(s, bytes, |bytes|)
    ensures |Hex(bytes)| == |s| && s[2 * i] == Hex(bytes)[2 * i] && s[2 * i + 1] == Hex(bytes)[2 * i + 1]
  {
    HexAt(bytes, i);
    assert Unhex(s[2 * i]) == Some(bytes[i] / 16);
    CharRoundTrip(s[2 * i]);
    CharRoundTrip(s[2 * i + 1]);
  }

  lemma {:induction false} DecodedIsHex(s: string, bytes: seq<Byte>)
    requires |s| == 2 * |bytes| && Decodes(s, bytes, |bytes|)
    ensures s == Hex(bytes)
  {
    HexLength(bytes);
    var t := Hex(bytes);
    forall k | 0 <= k < |s| ensures s[k] == t[k] {
      var i := k / 2;
      DecodedAt(s, bytes, i);
      if k != 2 * i {
        assert k == 2 * i + 1;
      }
    }
  }

  lemma {:induction false} HexIsDecoded(bytes: seq<Byte>)
    ensures |Hex(bytes)| == 2 * |bytes| && Decodes(Hex(bytes), bytes, |bytes|)
  {
    HexLength(bytes);
    var s := Hex(bytes);
    forall i | 0 <= i < |bytes|
      ensures Unhex(s[2 * i]) == Some(bytes[i] / 16) && Unhex(s[2 * i + 1]) == Some(bytes[i] % 16)
    {
      HexAt(bytes, i);
      DigitRoundTrip(bytes[i] / 16);
      DigitRoundTrip(bytes[i] % 16);
    }
  }

  lemma {:induction false} HexIsInjective(a: seq<Byte>, b: seq<Byte>)
    requires Hex(a) == Hex(b)
    ensures a == b
  {
    HexIsDecoded(a);
    HexIsDecoded(b);
    forall i | 0 <= i < |a| ensures a[i] == b[i] {
      assert Unhex(Hex(a)[2 * i]) == Some(a[i] / 16) && Unhex(Hex(a)[2 * i + 1]) == Some(a[i] % 16);
    }
  }

  /** The texts that are accepted are those that bytes are written as. */
  lemma {:induction false} DigitsAreHex(s: string) returns (bytes: seq<Byte>)
    requires |s| % 2 == 0 && HexDigits(s)
    ensures s == Hex(bytes)
    decreases |s|
  {
    if s == [] {
      bytes := [];
    } else {
      var rest := DigitsAreHex(s[2..]);
      CharRoundTrip(s[0]);
      CharRoundTrip(s[1]);
      var byte := ShiftOr(Unhex(s[0]).value, Unhex(s[1]).value);
      bytes := [byte] + rest;
      assert bytes[1..] == rest;
      assert s == [s[0], s[1]] + s[2..];
    }
  }

  lemma {:induction false} HexHasDigits(bytes: seq<Byte>)
    ensures |Hex(bytes)| % 2 == 0 && HexDigits(Hex(bytes))
  {
    HexIsDecoded(bytes);
    var s := Hex(bytes);
    forall k | 0 <= k < |s| ensures Unhex(s[k]).Some? {
      assert Unhex(s[2 * (k / 2)]).Some? && Unhex(s[2 * (k / 2) + 1]).Some?;
    }
  }

  lemma IsHexTextIff(s: string)
    ensures IsHexText(s) <==> exists bytes :: s == HexText(bytes)
  {
    if IsHexText(s) {
      var bytes := DigitsAreHex(s[2..]);
      assert s == HexText(bytes);
    }
    forall bytes | s == HexText(bytes) ensures IsHexText(s) {
      HexHasDigits(bytes);
      assert s[2..] == Hex(bytes);
    }
  }

  // ---------- the server ----------

  /** A digit as the server writes it. */
  function ServerDigit(n: Digit): char {
    if n < 10 then ('0' as int + n) as char else ('a' as int + n - 10) as char
  }

  function ServerDigits(bytes: seq<Byte>): string {
    if bytes == [] then []
    else [ServerDigit(bytes[0] / 16), ServerDigit(bytes[0] % 16)] + ServerDigits(bytes[1..])
  }

  /** The hex format on output. */
  function ByteaOut(bytes: seq<Byte>): string { ['\\', 'x'] + ServerDigits(bytes) }

  /** Pairs of digits, in either case, with white space between them. */
  function ReadPairs(s: string): Option<seq<Byte>> {
    if s == [] then Some([])
    else if s[0] == ' ' || s[0] == '\n' || s[0] == '\t' || s[0] == '\r' then ReadPairs(s[1..])
    else if |s| == 1 then None
    else
      match (HexDigit(s[0]), HexDigit(s[1]), ReadPairs(s[2..]))
      case (Some(high), Some(low), Some(bytes)) => Some([(16 * high + low) % 256] + bytes)
      case _ => None
  }

  /** The hex format on input. */
  function ByteaIn(s: string): Option<seq<Byte>> {
    if |s| >= 2 && s[0] == '\\' && s[1] == 'x' then ReadPairs(s[2..]) else None
  }

  /** The client's table has the server's digits, and the server reads them. */
  lemma DigitOfServer(n: Digit)
    ensures HEX[n] == ServerDigit(n) && HexDigit(HEX[n]) == Some(n)
    ensures HEX[n] != ' ' && HEX[n] != '\n' && HEX[n] != '\t' && HEX[n] != '\r'
  {
    DigitRoundTrip(n);
  }

  /** The client writes bytes as the server does. */
  lemma {:induction false} WritesAsServer(bytes: seq<Byte>)
    ensures Hex(bytes) == ServerDigits(bytes) && HexText(bytes) == ByteaOut(bytes)
  {
    if bytes != [] {
      DigitOfServer(bytes[0] / 16);
      DigitOfServer(bytes[0] % 16);
      WritesAsServer(bytes[1..]);
    }
  }

  lemma {:induction false} PairIsRead(byte: Byte, rest: string, bytes: seq<Byte>)
    requires ReadPairs(rest) == Some(bytes)
    ensures ReadPairs(Pair(byte) + rest) == Some([byte] + bytes)
  {
    var s := Pair(byte) + rest;
    DigitOfServer(byte / 16);
    DigitOfServer(byte % 16);
    assert s[0] == HEX[byte / 16] && s[1] == HEX[byte % 16] && s[2..] == rest;
    assert 16 * (byte / 16) + byte % 16 == byte;
  }

  lemma {:induction false} PairsAreRead(bytes: seq<Byte>)
    ensures ReadPairs(Hex(bytes)) == Some(bytes)
  {
    if bytes != [] {
      PairsAreRead(bytes[1..]);
      PairIsRead(bytes[0], Hex(bytes[1..]), bytes[1..]);
      assert [bytes[0]] + bytes[1..] == bytes;
    }
  }

  /** The server has the bytes that the client wrote. */
  lemma ServerReadsBytes(bytes: seq<Byte>)
    ensures ByteaIn(HexText(bytes)) == Some(bytes)
  {
    PairsAreRead(bytes);
    assert HexText(bytes)[2..] == Hex(bytes);
  }

  // ---------- writing ----------

  /**
    `element` and `copy_to`: `data` is made long enough, and then filled from `pos` on. The characters
    are the hex text with one backslash escaped.
   */
  method Element(data: string, bytes: seq<Byte>) returns (r: string)
    ensures r == data + Doubled(bytes)
    ensures r == data + Escape(Client, HexText(bytes))
  {
    var buffer := new char[|data| + 3 + 2 * |bytes|](i => if 0 <= i < |data| then data[i] else NUL);
    var pos := |data|;
    assert buffer[..pos] == data;
    buffer[pos], buffer[pos + 1], buffer[pos + 2] := '\\', '\\', 'x';
    pos := pos + 3;
    assert buffer[..pos] == data + Doubled(bytes[..0]);
    for n := 0 to |bytes|
      invariant pos == |data| + 3 + 2 * n
      invariant buffer[..pos] == data + Doubled(bytes[..n])
    {
      WritePair(buffer, pos, HEX[bytes[n] / 16], HEX[bytes[n] % 16]);
      DoubledOfNext(data, bytes, n);
      pos := pos + 2;
    }
    assert bytes[..|bytes|] == bytes;
    EscapedHex(Client, bytes);
    r := buffer[..pos];
  }

  /** `data[ pos++ ]` for the two digits of a byte. */
  method WritePair(buffer: array<char>, pos: nat, high: char, low: char)
    requires pos + 2 <= buffer.Length
    modifies buffer
    ensures buffer[..pos + 2] == old(buffer[..pos]) + [high, low]
  {
    buffer[pos] := high;
    buffer[pos + 1] := low;
  }

  /** The hex text with its backslash doubled. */
  function Doubled(bytes: seq<Byte>): string {
    ['\\', '\\', 'x'] + Hex(bytes)
  }

  lemma DoubledOfNext(data: string, bytes: seq<Byte>, n: nat)
    requires n < |bytes|
    ensures data + Doubled(bytes[..n + 1]) == data + Doubled(bytes[..n]) + Pair(bytes[n])
  {
    HexOfNext(bytes, n);
  }

  lemma {:induction false} HexOfConcat(a: seq<Byte>, b: seq<Byte>)
    ensures Hex(a + b) == Hex(a) + Hex(b)
  {
    if a == [] {
      assert a + b == b;
    } else {
      HexOfConcat(a[1..], b);
      assert (a + b)[1..] == a[1..] + b && (a + b)[0] == a[0];
      Associative(Pair(a[0]), Hex(a[1..]), Hex(b));
    }
  }

  lemma HexOfNext(bytes: seq<Byte>, n: nat)
    requires n < |bytes|
    ensures Hex(bytes[..n + 1]) == Hex(bytes[..n]) + Pair(bytes[n])
  {
    assert bytes[..n + 1] == bytes[..n] + [bytes[n]];
    HexOfConcat(bytes[..n], [bytes[n]]);
    assert Hex([bytes[n]]) == Pair(bytes[n]) + Hex([]);
  }

  lemma {:induction false} DigitsAreNotEscaped(side: Side, s: string)
    requires HexDigits(s)
    ensures Escape(side, s) == s
  {
    if s != [] {
      assert Unhex(s[0]).Some?;
      forall i | 0 <= i < |s[1..]| ensures Unhex(s[1..][i]).Some? {
        assert Unhex(s[i + 1]).Some?;
      }
      DigitsAreNotEscaped(side, s[1..]);
    }
  }

  lemma {:induction false} EscapeFirst(side: Side, c: char, s: string)
    ensures Escape(side, [c] + s) == Unit(side, c) + Escape(side, s)
  {
    assert ([c] + s)[1..] == s;
  }

  lemma {:induction false} EscapedPrefix(side: Side, digits: string)
    requires Escape(side, digits) == digits
    ensures Escape(side, ['\\', 'x'] + digits) == ['\\', '\\', 'x'] + digits
  {
    EscapeFirst(side, 'x', digits);
    EscapeFirst(side, '\\', ['x'] + digits);
    assert ['\\', 'x'] + digits == ['\\'] + (['x'] + digits);
    assert ['\\', '\\'] + (['x'] + digits) == ['\\', '\\', 'x'] + digits;
  }

  /** Only the backslash of the hex text is escaped, on either side. */
  lemma {:induction false} EscapedHex(side: Side, bytes: seq<Byte>)
    ensures Escape(side, HexText(bytes)) == Doubled(bytes)
  {
    HexHasDigits(bytes);
    DigitsAreNotEscaped(side, Hex(bytes));
    EscapedPrefix(side, Hex(bytes));
  }

  // ---------- reading ----------

  /** `unhex` is the inverse of the table of digits, and throws for all other characters. */
  lemma UnhexIff(c: char)
    ensures Unhex(c).Some? <==> exists n: Digit :: HEX[n] == c
    ensures Unhex(c).Some? ==> HEX[Unhex(c).value] == c
  {
    if Unhex(c).Some? {
      CharRoundTrip(c);
    }
    forall n: Digit | HEX[n] == c ensures Unhex(c).Some? {
      DigitRoundTrip(n);
    }
  }

  /** The first bytes stand for the first digits after the two characters in front. */
  predicate Filled(text: string, bytes: seq<Byte>) {
    && 2 + 2 * |bytes| <= |text|
    && forall i :: 0 <= i < |bytes| ==>
         Unhex(text[2 + 2 * i]) == Some(bytes[i] / 16) && Unhex(text[2 + 2 * i + 1]) == Some(bytes[i] % 16)
  }

  lemma FilledIsText(text: string, bytes: seq<Byte>)
    requires Filled(text, bytes) && |text| == 2 + 2 * |bytes| && text[0] == '\\' && text[1] == 'x'
    ensures HexText(bytes) == text && IsHexText(text)
  {
    var digits := text[2..];
    forall i | 0 <= i < |bytes|
      ensures Unhex(digits[2 * i]) == Some(bytes[i] / 16) && Unhex(digits[2 * i + 1]) == Some(bytes[i] % 16)
    {
      assert digits[2 * i] == text[2 + 2 * i] && digits[2 * i + 1] == text[2 + 2 * i + 1];
    }
    DecodedIsHex(digits, bytes);
    IsHexTextIff(text);
  }

  /**
    `unescape_bytea` of a C string: exactly the hex texts with lowercase digits are accepted, and the
    bytes are those that are written as this text.
   */
  method UnescapeBytea(text: string) returns (r: Option<seq<Byte>>)
    requires NulFree(text)
    ensures r.Some? <==> IsHexText(text)
    ensures r.Some? ==> HexText(r.value) == text
  {
    var value := text + [NUL];
    if value[0] != '\\' || value[1] != 'x' {
      return None;
    }
    var input := |text|;
    if input % 2 == 1 {
      return None;
    }
    var size := input / 2 - 1;
    var nrv := new Byte[size](_ => 0);
    for pos := 0 to size
      invariant Filled(text, nrv[..pos])
    {
      var high := Unhex(value[2 + 2 * pos]);
      if high.None? {
        return None;
      }
      var low := Unhex(value[2 + 2 * pos + 1]);
      if low.None? {
        return None;
      }
      nrv[pos] := ShiftOr(high.value, low.value);
      assert nrv[..pos + 1] == nrv[..pos] + [nrv[pos]];
    }
    FilledIsText(text, nrv[..size]);
    return Some(nrv[..size]);
  }

  // ---------- round trips ----------

  /** What the client reads is what was written, and nothing else is written like it. */
  lemma TextDeterminesBytes(a: seq<Byte>, b: seq<Byte>)
    ensures HexText(a) == HexText(b) <==> a == b
  {
    if HexText(a) == HexText(b) {
      assert HexText(a)[2..] == Hex(a) && HexText(b)[2..] == Hex(b);
      HexIsInjective(a, b);
    }
  }

  /**
    A `bytea` column of a COPY line: the server removes the escape and has the bytes; the field is
    never taken for NULL.
   */
  lemma CopiedBytesArrive(bytes: seq<Byte>)
    ensures FieldValue(Doubled(bytes)) == Some(HexText(bytes)) && IsHexText(HexText(bytes))
    ensures ByteaIn(FieldValue(Doubled(bytes)).value) == Some(bytes)
  {
    EscapedHex(Client, bytes);
    FieldRoundTrip(Client, Some(HexText(bytes)));
    ServerReadsBytes(bytes);
    IsHexTextIff(HexText(bytes));
  }

  /** `result_traits< binary >::from`: the bytes that the server writes like that, or an exception. */
  method From(text: string) returns (r: Option<seq<Byte>>)
    requires NulFree(text)
    ensures forall bytes :: ByteaOut(bytes) == text <==> r == Some(bytes)
  {
    r := UnescapeBytea(text);
    IsHexTextIff(text);
    forall bytes ensures ByteaOut(bytes) == text <==> r == Some(bytes) {
      WritesAsServer(bytes);
      if r.Some? {
        TextDeterminesBytes(bytes, r.value);
      }
    }
  }
}
