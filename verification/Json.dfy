// The text of a log line: Go's JSON strings, and what is left of a byte string once it has gone through them.

module Json {
  import opened Base

  // ---------- UTF-8 ----------

  predicate Between(b: byte, lo: byte, hi: byte) {
    lo <= b <= hi
  }

  // The bounds of the second byte keep out overlong forms, surrogates and numbers behind the last character.
  predicate SecondOk(first: byte, second: byte) {
    if first == 0xE0 then Between(second, 0xA0, 0xBF)
    else if first == 0xED then Between(second, 0x80, 0x9F)
    else if first == 0xF0 then Between(second, 0x90, 0xBF)
    else if first == 0xF4 then Between(second, 0x80, 0x8F)
    else Between(second, 0x80, 0xBF)
  }

  // How many bytes a character that begins with this one has; 0 when none does.
  function Width(first: byte): (w: nat)
    ensures w <= 4
  {
    if first < 0x80 then 1
    else if Between(first, 0xC2, 0xDF) then 2
    else if Between(first, 0xE0, 0xEF) then 3
    else if Between(first, 0xF0, 0xF4) then 4
    else 0
  }

  // The length of the character at the front of the text, or 0 when the first byte belongs to none.
  function RuneLength(s: bytes): (n: nat)
    requires s != []
    ensures n <= |s| && n <= 4
  {
    var w := Width(s[0]);
    if w > |s| || (w >= 2 && !SecondOk(s[0], s[1])) then 0
    else if (w >= 3 && !Between(s[2], 0x80, 0xBF)) || (w == 4 && !Between(s[3], 0x80, 0xBF)) then 0
    else w
  }

  predicate ValidUtf8(s: bytes) {
    s == [] || (RuneLength(s) > 0 && ValidUtf8(s[RuneLength(s)..]))
  }

  // U+FFFD
  const REPLACEMENT: bytes := [0xEF, 0xBF, 0xBD]

  // Every byte that belongs to no character becomes U+FFFD.
  function Repaired(s: bytes): bytes {
    if s == [] then []
    else if RuneLength(s) == 0 then REPLACEMENT + Repaired(s[1..])
    else s[..RuneLength(s)] + Repaired(s[RuneLength(s)..])
  }

  lemma {:induction false} RepairedIsLonger(s: bytes)
    ensures |Repaired(s)| >= |s|
    ensures |Repaired(s)| == |s| <==> ValidUtf8(s)
    ensures ValidUtf8(s) ==> Repaired(s) == s
  {
    hide RuneLength;
    if s != [] {
      var n := RuneLength(s);
      if n == 0 {
        RepairedIsLonger(s[1..]);
      } else {
        RepairedIsLonger(s[n..]);
        assert s[..n] + s[n..] == s;
      }
    }
  }

  // Exactly the valid byte strings come through unchanged.
  lemma RepairedSameIff(s: bytes)
    ensures Repaired(s) == s <==> ValidUtf8(s)
  {
    RepairedIsLonger(s);
  }

  // ---------- Strings in JSON ----------

  const QUOTE: byte := 0x22
  const BACKSLASH: byte := 0x5C

  function HexDigit(v: nat): byte
    requires v < 16
  {
    if v < 10 then '0' as byte + v else 'a' as byte + v - 10
  }

  function Ascii(s: string): (b: bytes)
    requires forall i :: 0 <= i < |s| ==> s[i] < 128 as char
    ensures |b| == |s|
  {
    seq(|s|, i requires 0 <= i < |s| => s[i] as byte)
  }

  // \u and four digits, for a character below U+0100
  function UnicodeEscape(c: byte): (t: bytes)
    ensures |t| == 6
  {
    [BACKSLASH, 'u' as byte, '0' as byte, '0' as byte, HexDigit(c / 16), HexDigit(c % 16)]
  }

  // The letter behind the backslash of a short escape.
  function ShortEscape(c: byte): Option<byte> {
    if c == QUOTE || c == BACKSLASH then Some(c)
    else if c == 8 then Some('b' as byte)
    else if c == 12 then Some('f' as byte)
    else if c == 10 then Some('n' as byte)
    else if c == 13 then Some('r' as byte)
    else if c == 9 then Some('t' as byte)
    else None
  }

  predicate Plain(c: byte) {
    c >= 0x20 && c != '<' as byte && c != '>' as byte && c != '&' as byte
  }

  // U+2028 and U+2029 are escaped, too.
  predicate LineSeparator(rune: bytes) {
    rune == [0xE2, 0x80, 0xA8] || rune == [0xE2, 0x80, 0xA9]
  }

  function Escaped(rune: bytes): (t: bytes)
    requires rune != []
    ensures t != []
  {
    if |rune| == 1 && ShortEscape(rune[0]).Some? then [BACKSLASH, ShortEscape(rune[0]).value]
    else if |rune| == 1 && !Plain(rune[0]) then UnicodeEscape(rune[0])
    else if LineSeparator(rune) then [BACKSLASH] + Ascii("u202") + [rune[2] - 0xA8 + '8' as byte]
    else rune
  }

  function FFFD(): (t: bytes)
    ensures |t| == 6
  {
    [BACKSLASH] + Ascii("ufffd")
  }

  // What the encoder writes between the quotes.
  function Quoted(s: bytes): bytes {
    if s == [] then []
    else if RuneLength(s) == 0 then FFFD() + Quoted(s[1..])
    else Escaped(s[..RuneLength(s)]) + Quoted(s[RuneLength(s)..])
  }

  // ---------- Reading a string back ----------

  function Unescaped(c: byte): Option<byte> {
    if c == QUOTE || c == BACKSLASH || c == '/' as byte then Some(c)
    else if c == 'b' as byte then Some(8)
    else if c == 'f' as byte then Some(12)
    else if c == 'n' as byte then Some(10)
    else if c == 'r' as byte then Some(13)
    else if c == 't' as byte then Some(9)
    else None
  }

  function HexValue(b: byte): Option<nat> {
    if Between(b, '0' as byte, '9' as byte) then Some(b - '0' as byte)
    else if Between(b, 'a' as byte, 'f' as byte) then Some(b - 'a' as byte + 10)
    else if Between(b, 'A' as byte, 'F' as byte) then Some(b - 'A' as byte + 10)
    else None
  }

  function FourDigits(t: bytes): (v: Option<nat>)
    requires |t| == 4
    ensures v.Some? ==> v.value < 0x1_0000
  {
    var a, b, c, d := HexValue(t[0]), HexValue(t[1]), HexValue(t[2]), HexValue(t[3]);
    if a.None? || b.None? || c.None? || d.None? then None
    else Some(((a.value * 16 + b.value) * 16 + c.value) * 16 + d.value)
  }

  // The bytes of a character below U+10000. The encoder writes no surrogates, and one alone stands for U+FFFD.
  function EncodeRune(v: nat): bytes
    requires v < 0x1_0000
  {
    if v < 0x80 then [v]
    else if v < 0x800 then [0xC0 + v / 0x40, 0x80 + v % 0x40]
    else if 0xD800 <= v < 0xE000 then REPLACEMENT
    else [0xE0 + v / 0x1000, 0x80 + v / 0x40 % 0x40, 0x80 + v % 0x40]
  }

  function Prepended(head: bytes, tail: Option<bytes>): Option<bytes> {
    if tail.None? then None else Some(head + tail.value)
  }

  // What the decoder makes of the text between two quotes.
  function Unquoted(t: bytes): Option<bytes> {
    if t == [] then Some([])
    else if t[0] == BACKSLASH then
      if |t| >= 2 && Unescaped(t[1]).Some? then Prepended([Unescaped(t[1]).value], Unquoted(t[2..]))
      else if |t| >= 6 && t[1] == 'u' as byte && FourDigits(t[2..6]).Some?
      then Prepended(EncodeRune(FourDigits(t[2..6]).value), Unquoted(t[6..]))
      else None
    else if t[0] == QUOTE || t[0] < 0x20 then None
    else if RuneLength(t) == 0 then Prepended(REPLACEMENT, Unquoted(t[1..]))
    else Prepended(t[..RuneLength(t)], Unquoted(t[RuneLength(t)..]))
  }

  predicate IsRune(r: bytes) {
    r != [] && RuneLength(r) == |r|
  }

  lemma RuneInFront(r: bytes, rest: bytes)
    requires IsRune(r)
    ensures RuneLength(r + rest) == |r| && (r + rest)[..|r|] == r && (r + rest)[|r|..] == rest
  {}

  lemma FrontIsRune(s: bytes)
    requires s != [] && RuneLength(s) > 0
    ensures IsRune(s[..RuneLength(s)])
  {}

  lemma EscapeReadBack(t: bytes, rest: bytes, v: nat)
    requires |t| == 6 && t[0] == BACKSLASH && t[1] == 'u' as byte && FourDigits(t[2..6]) == Some(v)
    ensures Unquoted(t + rest) == Prepended(EncodeRune(v), Unquoted(rest))
  {
    assert (t + rest)[2..6] == t[2..6] && (t + rest)[6..] == rest;
  }

  lemma SeparatorReadBack(r: bytes, rest: bytes)
    requires LineSeparator(r)
    ensures Unquoted(Escaped(r) + rest) == Prepended(r, Unquoted(rest))
  {
    var t, last := Escaped(r), r[2] - 0xA8 + '8' as byte;
    var v: nat := if r[2] == 0xA8 then 0x2028 else 0x2029;
    assert t == [BACKSLASH, 'u' as byte, '2' as byte, '0' as byte, '2' as byte, last];
    assert t[2..6] == ['2' as byte, '0' as byte, '2' as byte, last];
    EscapeReadBack(t, rest, v);
    assert EncodeRune(v) == r;
  }

  lemma DigitsReadBack(c: byte)
    ensures FourDigits(UnicodeEscape(c)[2..6]) == Some(c)
  {
    var t := UnicodeEscape(c)[2..6];
    assert t == ['0' as byte, '0' as byte, HexDigit(c / 16), HexDigit(c % 16)];
    assert HexValue(t[0]) == Some(0) && HexValue(t[2]) == Some(c / 16) && HexValue(t[3]) == Some(c % 16);
  }

  lemma RuneReadBack(r: bytes, rest: bytes)
    requires IsRune(r)
    ensures Unquoted(Escaped(r) + rest) == Prepended(r, Unquoted(rest))
  {
    var t := Escaped(r);
    if |r| == 1 && ShortEscape(r[0]).Some? {
      assert (t + rest)[2..] == rest && r == [r[0]];
    } else if |r| == 1 && !Plain(r[0]) {
      DigitsReadBack(r[0]);
      EscapeReadBack(t, rest, r[0]);
      assert EncodeRune(r[0]) == r;
    } else if LineSeparator(r) {
      SeparatorReadBack(r, rest);
    } else {
      RuneInFront(r, rest);
    }
  }

  // Decoding an encoded string repairs it, and does nothing else.
  lemma {:induction false} QuoteRoundTrip(s: bytes)
    ensures Unquoted(Quoted(s)) == Some(Repaired(s))
  {
    if s != [] {
      var n := RuneLength(s);
      if n == 0 {
        QuoteRoundTrip(s[1..]);
        EscapeReadBack(FFFD(), Quoted(s[1..]), 0xFFFD);
      } else {
        QuoteRoundTrip(s[n..]);
        FrontIsRune(s);
        RuneReadBack(s[..n], Quoted(s[n..]));
      }
    }
  }

  // A repaired string is encoded in fewer bytes than the escapes that stood for its repairs.
  lemma {:induction false} RepairIsShorter(s: bytes)
    ensures |Quoted(Repaired(s))| <= |Quoted(s)|
    ensures |Quoted(Repaired(s))| == |Quoted(s)| <==> ValidUtf8(s)
  {
    if s != [] {
      var n := RuneLength(s);
      if n == 0 {
        RepairIsShorter(s[1..]);
        QuotedStep(REPLACEMENT, Repaired(s[1..]));
      } else {
        RepairIsShorter(s[n..]);
        FrontIsRune(s);
        QuotedStep(s[..n], Repaired(s[n..]));
      }
    }
  }

  lemma QuotedStep(r: bytes, rest: bytes)
    requires IsRune(r)
    ensures Quoted(r + rest) == Escaped(r) + Quoted(rest)
  {
    RuneInFront(r, rest);
  }

  // ---------- The payload of a log line ----------

  function TypeName(t: EntryType): bytes {
    match t
    case Put => Ascii("PUT")
    case Delete => Ascii("DELETE")
    case Other(name) => name
  }

  // The text that is checksummed; the line itself has the checksum as one more field in front.
  function Marshal(e: Entry): bytes {
    Ascii("{\"key\":\"") + Quoted(e.K) + Ascii("\",\"type\":\"") + Quoted(TypeName(e.Type))
    + Ascii("\",\"value\":\"") + Quoted(e.V) + Ascii("\"}")
  }

  const CHECKSUM_FIELD := 17 // "crc":"xxxxxxxx",

  // bufio.MaxScanTokenSize: a scanner gives up at a line that does not fit with its newline.
  const SCANNER_LIMIT := 65536

  predicate FitsScanner(e: Entry) {
    |Marshal(e)| + CHECKSUM_FIELD < SCANNER_LIMIT
  }

  // What a reader makes of a field.
  function Decoded(s: bytes): bytes {
    match Unquoted(Quoted(s))
    case Some(text) => text
    case None => []
  }

  function Reread(e: Entry): Entry {
    Entry(Decoded(e.K), Decoded(e.V), if e.Type.Other? then Other(Decoded(e.Type.name)) else e.Type)
  }

  lemma DecodedIsRepaired(e: Entry)
    ensures Decoded(e.K) == Repaired(e.K) && Decoded(e.V) == Repaired(e.V)
    ensures Decoded(TypeName(e.Type)) == Repaired(TypeName(e.Type)) == TypeName(Reread(e).Type)
  {
    QuoteRoundTrip(e.K);
    QuoteRoundTrip(e.V);
    QuoteRoundTrip(TypeName(e.Type));
    KnownTypesAreText(e.Type);
  }

  lemma {:induction false} AsciiIsText(s: string)
    requires forall i :: 0 <= i < |s| ==> s[i] < 128 as char
    ensures ValidUtf8(Ascii(s))
  {
    if s != [] {
      AsciiIsText(s[1..]);
      assert RuneLength(Ascii(s)) == 1 && Ascii(s)[1..] == Ascii(s[1..]);
    }
  }

  lemma KnownTypesAreText(t: EntryType)
    ensures !t.Other? ==> Repaired(TypeName(t)) == TypeName(t)
  {
    AsciiIsText("PUT");
    AsciiIsText("DELETE");
    RepairedSameIff(TypeName(t));
  }

  predicate ValidText(e: Entry) {
    ValidUtf8(e.K) && ValidUtf8(e.V) && (e.Type.Other? ==> ValidUtf8(e.Type.name))
  }

  // An entry comes back as it was, and its text has the checksum it was written with, exactly if its strings
  // are valid UTF-8; otherwise the checksum is that of a longer text.
  lemma RereadSameIff(e: Entry)
    ensures Reread(e) == e <==> ValidText(e)
    ensures Marshal(Reread(e)) == Marshal(e) <==> ValidText(e)
  {
    DecodedIsRepaired(e);
    RepairedSameIff(e.K);
    RepairedSameIff(e.V);
    RepairedSameIff(TypeName(e.Type));
    KnownTypesAreText(e.Type);
    RepairIsShorter(e.K);
    RepairIsShorter(e.V);
    RepairIsShorter(TypeName(e.Type));
  }

  // ---------- The text, byte by byte ----------

  const HEX: bytes := [0x30, 0x31, 0x32, 0x33, 0x34, 0x35, 0x36, 0x37, 0x38, 0x39, 0x61, 0x62, 0x63, 0x64, 0x65, 0x66]

  // One ASCII character: quote, backslash and five control characters have escapes of their own, the other control
  // characters and < > & are written by number, and all others stand for themselves.
  lemma AsciiText(c: byte)
    requires c < 0x80
    ensures Quoted([c]) ==
            if c == 0x22 then [0x5C, 0x22] else if c == 0x5C then [0x5C, 0x5C]
            else if c == 8 then [0x5C, 0x62] else if c == 12 then [0x5C, 0x66] else if c == 10 then [0x5C, 0x6E]
            else if c == 13 then [0x5C, 0x72] else if c == 9 then [0x5C, 0x74]
            else if c < 0x20 || c == 0x3C || c == 0x3E || c == 0x26
            then [0x5C, 0x75, 0x30, 0x30, HEX[c / 16], HEX[c % 16]]
            else [c]
  {
    assert [c][..1] == [c] && Quoted([c][1..]) == [];
    assert Quoted([c]) == Escaped([c]) + [];
  }

  // A longer character stands for itself, but for the two line separators.
  lemma LongText(r: bytes)
    requires IsRune(r) && |r| > 1
    ensures Quoted(r) == if r == [0xE2, 0x80, 0xA8] then [0x5C, 0x75, 0x32, 0x30, 0x32, 0x38]
                         else if r == [0xE2, 0x80, 0xA9] then [0x5C, 0x75, 0x32, 0x30, 0x32, 0x39] else r
  {
    hide RuneLength;
    assert r[..|r|] == r && Quoted(r[|r|..]) == [];
    assert Quoted(r) == Escaped(r) + [];
  }

  // A byte of no character is written as the number of U+FFFD.
  lemma BrokenText(s: bytes)
    requires s != [] && RuneLength(s) == 0
    ensures Quoted(s) == [0x5C, 0x75, 0x66, 0x66, 0x66, 0x64] + Quoted(s[1..])
  {
    hide RuneLength;
    assert FFFD() == [0x5C, 0x75, 0x66, 0x66, 0x66, 0x64];
  }

  // And so on, one character after the other.
  lemma TextGoesOn(r: bytes, rest: bytes)
    requires IsRune(r)
    ensures Quoted(r + rest) == Quoted(r) + Quoted(rest)
  {
    hide RuneLength, Escaped;
    assert Quoted([]) == [];
    QuotedStep(r, rest);
    QuotedStep(r, []);
    hide Quoted;
    assert r + [] == r;
  }

  predicate Scalar(c: int) {
    0 <= c < 0x11_0000 && !(0xD800 <= c < 0xE000)
  }

  function Utf8(c: nat): bytes
    requires Scalar(c)
  {
    if c < 0x80 then [c]
    else if c < 0x800 then [0xC0 + c / 0x40, 0x80 + c % 0x40]
    else if c < 0x1_0000 then [0xE0 + c / 0x1000, 0x80 + c / 0x40 % 0x40, 0x80 + c % 0x40]
    else [0xF0 + c / 0x4_0000, 0x80 + c / 0x1000 % 0x40, 0x80 + c / 0x40 % 0x40, 0x80 + c % 0x40]
  }

  // The number that the bytes of a character stand for.
  function ScalarOf(r: bytes): int
    requires 1 <= |r| <= 4
  {
    if |r| == 1 then r[0] as int
    else if |r| == 2 then (r[0] as int - 0xC0) * 0x40 + (r[1] as int - 0x80)
    else if |r| == 3 then ((r[0] as int - 0xE0) * 0x40 + (r[1] as int - 0x80)) * 0x40 + (r[2] as int - 0x80)
    else (((r[0] as int - 0xF0) * 0x40 + (r[1] as int - 0x80)) * 0x40 + (r[2] as int - 0x80)) * 0x40
         + (r[3] as int - 0x80)
  }

  // What counts as a character are exactly the encodings of numbers below 0x110000 that are no surrogates.
  lemma RuneIsScalar(r: bytes)
    ensures IsRune(r) <==> exists c :: Scalar(c) && r == Utf8(c)
  {
    if IsRune(r) {
      RuneHasScalar(r);
    }
    forall c | Scalar(c) && r == Utf8(c) ensures IsRune(r) { ScalarIsRune(c); }
  }

  lemma RuneHasScalar(r: bytes)
    requires IsRune(r)
    ensures Scalar(ScalarOf(r)) && r == Utf8(ScalarOf(r))
  {
    RuneBytes(r);
    hide IsRune;
    if |r| == 4 {
      DigitsOf(r[0] as int - 0xF0, r[1] as int - 0x80, r[2] as int - 0x80, r[3] as int - 0x80);
    } else if |r| == 3 {
      DigitsOf(0, r[0] as int - 0xE0, r[1] as int - 0x80, r[2] as int - 0x80);
    }
  }

  lemma RuneBytes(r: bytes)
    requires IsRune(r)
    ensures 1 <= |r| <= 4 && (forall i :: 1 <= i < |r| ==> 0x80 <= r[i] < 0xC0)
    ensures |r| == 1 ==> r[0] < 0x80
    ensures |r| == 2 ==> 0xC2 <= r[0] < 0xE0
    ensures |r| == 3 ==> 0xE0 <= r[0] < 0xF0 && (r[0] == 0xE0 ==> r[1] >= 0xA0) && (r[0] == 0xED ==> r[1] < 0xA0)
    ensures |r| == 4 ==> 0xF0 <= r[0] < 0xF5 && (r[0] == 0xF0 ==> r[1] >= 0x90) && (r[0] == 0xF4 ==> r[1] < 0x90)
  {}

  lemma DigitsOf(a: int, b: int, c: int, d: int)
    requires 0 <= b < 0x40 && 0 <= c < 0x40 && 0 <= d < 0x40
    ensures var v := ((a * 0x40 + b) * 0x40 + c) * 0x40 + d;
      v / 0x4_0000 == a && v / 0x1000 == a * 0x40 + b && v / 0x1000 % 0x40 == b && v / 0x40 % 0x40 == c && v % 0x40 == d
  {}

  lemma ScalarIsRune(c: nat)
    requires Scalar(c)
    ensures IsRune(Utf8(c))
  {}

  // {"key":"
  const KEY_FIELD: bytes := [0x7B, 0x22, 0x6B, 0x65, 0x79, 0x22, 0x3A, 0x22]
  // ","type":"PUT","value":"
  const PUT_FIELDS: bytes := [0x22, 0x2C, 0x22, 0x74, 0x79, 0x70, 0x65, 0x22, 0x3A, 0x22] + [0x50, 0x55, 0x54]
                             + [0x22, 0x2C, 0x22, 0x76, 0x61, 0x6C, 0x75, 0x65, 0x22, 0x3A, 0x22]
  // ","type":"DELETE","value":"
  const DELETE_FIELDS: bytes := [0x22, 0x2C, 0x22, 0x74, 0x79, 0x70, 0x65, 0x22, 0x3A, 0x22]
                                + [0x44, 0x45, 0x4C, 0x45, 0x54, 0x45]
                                + [0x22, 0x2C, 0x22, 0x76, 0x61, 0x6C, 0x75, 0x65, 0x22, 0x3A, 0x22]
  // "}
  const END: bytes := [0x22, 0x7D]

  // The payload of a put and of a delete.
  lemma PayloadText(key: bytes, value: bytes)
    ensures Marshal(Entry(key, value, Put)) == KEY_FIELD + Quoted(key) + PUT_FIELDS + Quoted(value) + END
    ensures Marshal(Entry(key, [], Delete)) == KEY_FIELD + Quoted(key) + DELETE_FIELDS + END
  {
    KeyPiece();
    TypePieces();
    ValuePieces();
    hide Ascii, Quoted;
    var type_, value_ := Ascii("\",\"type\":\""), Ascii("\",\"value\":\"");
    Regrouped(KEY_FIELD, Quoted(key), type_, Ascii("PUT"), value_, Quoted(value), END);
    Regrouped(KEY_FIELD, Quoted(key), type_, Ascii("DELETE"), value_, [], END);
  }

  lemma KeyPiece()
    ensures Ascii("{\"key\":\"") == KEY_FIELD && Ascii("\"}") == END
  {}

  lemma TypePieces()
    ensures Quoted(Ascii("PUT")) == Ascii("PUT") == [0x50, 0x55, 0x54]
    ensures Quoted(Ascii("DELETE")) == Ascii("DELETE") == [0x44, 0x45, 0x4C, 0x45, 0x54, 0x45]
  {
    hide Quoted;
    PlainText("PUT");
    PlainText("DELETE");
  }

  lemma ValuePieces()
    ensures Ascii("\",\"type\":\"") == [0x22, 0x2C, 0x22, 0x74, 0x79, 0x70, 0x65, 0x22, 0x3A, 0x22]
    ensures Ascii("\",\"value\":\"") == [0x22, 0x2C, 0x22, 0x76, 0x61, 0x6C, 0x75, 0x65, 0x22, 0x3A, 0x22]
    ensures Quoted([]) == []
  {}

  lemma Regrouped(a: bytes, k: bytes, b: bytes, t: bytes, c: bytes, v: bytes, d: bytes)
    ensures a + k + b + t + c + v + d == a + k + (b + t + c) + v + d
    ensures v == [] ==> a + k + b + t + c + v + d == a + k + (b + t + c) + d
  {
    assert b + t + c == b + (t + c) && a + k + b + t + c == a + k + (b + t + c);
  }

  // Letters stand for themselves.
  lemma {:induction false} PlainText(s: string)
    requires forall i :: 0 <= i < |s| ==> 'A' <= s[i] <= 'Z'
    ensures Quoted(Ascii(s)) == Ascii(s)
  {
    if s != [] {
      PlainText(s[1..]);
      AsciiText(s[0] as byte);
      TextGoesOn([s[0] as byte], Ascii(s[1..]));
      assert Ascii(s) == [s[0] as byte] + Ascii(s[1..]);
    }
  }

  // The whole line has the checksum, eight digits, as one more field in front.
  function LineText(crc: bytes, e: Entry): bytes {
    Ascii("{\"crc\":\"") + crc + Ascii("\",") + Marshal(e)[1..]
  }

  // A line is read if it fits a buffer of 64 KiB with its newline.
  lemma FitsIff(crc: bytes, e: Entry)
    requires |crc| == 8
    ensures FitsScanner(e) <==> |LineText(crc, e)| + 1 <= 0x1_0000
  {}
}
