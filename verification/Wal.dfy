// The write-ahead log: what is appended, what a restart reads back, and what a torn line does.

module Wals {
  import opened Base
  import opened Json

  // CRC-32 of a text, printed; only its being a function matters here.
  type LineChecksum = bytes -> bytes

  // One line of the file, as a reader finds it: a JSON object with a checksum and a payload, text that is no such
  // object, or a line that does not fit the scanner's buffer.
  datatype Line = Line(crc: bytes, payload: Entry) | Garbage | TooLong

  // The file; when open, its last line is not yet terminated by a newline.
  datatype WalFile = WalFile(lines: seq<Line>, open: bool)

  predicate Good(sum: LineChecksum, line: Line) {
    line.Line? && sum(Marshal(line.payload)) == line.crc
  }

  predicate AllGood(sum: LineChecksum, lines: seq<Line>) {
    forall i :: 0 <= i < |lines| ==> Good(sum, lines[i])
  }

  // The line written for an entry: the checksum is that of the text, the payload what a reader makes of it.
  function NewWALEntry(sum: LineChecksum, e: Entry): Line {
    if FitsScanner(e) then Line(sum(Marshal(e)), Reread(e)) else TooLong
  }

  // An entry that the log can give back: valid UTF-8 in all its strings, and short enough for the scanner.
  predicate Loggable(e: Entry) {
    ValidText(e) && FitsScanner(e)
  }

  // Appended text continues an unterminated line, and the two together are no JSON object.
  function Appended(file: WalFile, line: Line): WalFile {
    if file.open && file.lines != [] then WalFile(file.lines[..|file.lines| - 1] + [Garbage], false)
    else WalFile(file.lines + [line], false)
  }

  // A crash in the middle of an append leaves part of the text without a newline: a fragment, or the whole object.
  function Torn(file: WalFile, line: Line, whole: bool): WalFile {
    var after := Appended(file, if whole then line else Garbage);
    WalFile(after.lines, true)
  }

  // The payloads of the lines before the first bad one.
  function Readable(sum: LineChecksum, lines: seq<Line>): (entries: seq<Entry>)
    ensures |entries| <= |lines|
  {
    if lines == [] || !Good(sum, lines[0]) then [] else [lines[0].payload] + Readable(sum, lines[1..])
  }

  // One line: scanned, unmarshalled, and checked against its checksum.
  method ReadLine(sum: LineChecksum, line: Line) returns (r: Result<Entry>)
    ensures r.Ok? <==> Good(sum, line)
    ensures r.Ok? ==> r.value == line.payload
  {
    if line.TooLong? {
      return Err(LineTooLong);
    }
    if line.Garbage? {
      return Err(MalformedLine);
    }
    if sum(Marshal(line.payload)) != line.crc {
      return Err(CrcMismatch);
    }
    return Ok(line.payload);
  }

  // wal.getAll; the engine goes on with the entries read before an error.
  method GetAll(sum: LineChecksum, file: WalFile) returns (entries: seq<Entry>, err: Option<Error>)
    ensures entries == Readable(sum, file.lines)
    ensures err.None? <==> AllGood(sum, file.lines)
  {
    hide Good;
    entries := [];
    for i := 0 to |file.lines|
      invariant AllGood(sum, file.lines[..i])
      invariant entries + Readable(sum, file.lines[i..]) == Readable(sum, file.lines)
    {
      assert file.lines[i..][0] == file.lines[i] && file.lines[i..][1..] == file.lines[i + 1..];
      var read := ReadLine(sum, file.lines[i]);
      if read.Err? {
        return entries, Some(read.error);
      }
      entries := entries + [read.value];
      assert file.lines[..i + 1] == file.lines[..i] + [file.lines[i]];
    }
    assert file.lines[..|file.lines|] == file.lines;
    return entries, None;
  }

  lemma {:induction false} ReadableGood(sum: LineChecksum, lines: seq<Line>)
    ensures |Readable(sum, lines)| == |lines| <==> AllGood(sum, lines)
  {
    if lines != [] && Good(sum, lines[0]) {
      ReadableGood(sum, lines[1..]);
      assert AllGood(sum, lines) <==> AllGood(sum, lines[1..]) by {
        if AllGood(sum, lines[1..]) {
          forall i | 0 <= i < |lines| ensures Good(sum, lines[i]) {
            assert i > 0 ==> lines[i] == lines[1..][i - 1];
          }
        }
      }
    }
  }

  lemma {:induction false} ReadablePrefix(sum: LineChecksum, lines: seq<Line>, more: seq<Line>)
    ensures Readable(sum, lines + more) ==
            if AllGood(sum, lines) then Readable(sum, lines) + Readable(sum, more) else Readable(sum, lines)
  {
    hide Good;
    if lines == [] {
      assert lines + more == more;
    } else {
      assert (lines + more)[1..] == lines[1..] + more;
      ReadablePrefix(sum, lines[1..], more);
      if Good(sum, lines[0]) && AllGood(sum, lines[1..]) {
        forall i | 0 <= i < |lines| ensures Good(sum, lines[i]) {
          assert i > 0 ==> lines[i] == lines[1..][i - 1];
        }
      }
    }
  }

  lemma LoggableIsGood(sum: LineChecksum, e: Entry)
    ensures Readable(sum, [NewWALEntry(sum, e)]) == [e] <==> Loggable(e)
    ensures Loggable(e) ==> Good(sum, NewWALEntry(sum, e))
  {
    RereadSameIff(e);
    var line := NewWALEntry(sum, e);
    var read := Readable(sum, [line]);
    assert [line][1..] == [] && read == if Good(sum, line) then [line.payload] else [];
    if Good(sum, line) {
      assert read[0] == Reread(e);
    }
  }

  // Valid UTF-8, and a line that fits 64 KiB with its newline, whatever its checksum.
  lemma LoggableIff(e: Entry)
    ensures Loggable(e) <==> ValidText(e) && forall crc: bytes :: |crc| == 8 ==> |LineText(crc, e)| + 1 <= 0x1_0000
  {
    var zeros: bytes := [0x30, 0x30, 0x30, 0x30, 0x30, 0x30, 0x30, 0x30];
    FitsIff(zeros, e);
    forall crc: bytes | |crc| == 8 ensures FitsScanner(e) <==> |LineText(crc, e)| + 1 <= 0x1_0000 { FitsIff(crc, e); }
  }

  // Exactly when: an append will be read back behind everything before it if and only if the file ends with a
  // newline and holds no bad line, and the entry is valid UTF-8 and short enough for the scanner.
  lemma AppendIsReadBackIff(sum: LineChecksum, file: WalFile, e: Entry)
    requires file.open ==> file.lines != []
    ensures var after := Appended(file, NewWALEntry(sum, e));
            Readable(sum, after.lines) == Readable(sum, file.lines) + [e]
            <==> !file.open && AllGood(sum, file.lines) && Loggable(e)
    ensures Loggable(e) <==> ValidText(e) && forall crc: bytes :: |crc| == 8 ==> |LineText(crc, e)| + 1 <= 0x1_0000
  {
    LoggableIff(e);
    hide Good, Loggable, NewWALEntry;
    var line := NewWALEntry(sum, e);
    ReadableGood(sum, file.lines);
    if file.open {
      var init := file.lines[..|file.lines| - 1];
      BehindGarbage(sum, init, file.lines[|file.lines| - 1]);
      assert file.lines == init + [file.lines[|file.lines| - 1]];
    } else {
      ReadablePrefix(sum, file.lines, [line]);
      LoggableIsGood(sum, e);
      SuffixSame(Readable(sum, file.lines), Readable(sum, [line]), [e]);
    }
  }

  lemma SuffixSame(a: seq<Entry>, b: seq<Entry>, c: seq<Entry>)
    ensures a + b == a + c <==> b == c
  {
    assert (a + b)[|a|..] == b && (a + c)[|a|..] == c;
  }

  lemma BehindGarbage(sum: LineChecksum, init: seq<Line>, last: Line)
    ensures |Readable(sum, init + [Garbage])| <= |Readable(sum, init + [last])|
  {
    ReadablePrefix(sum, init, [Garbage]);
    ReadablePrefix(sum, init, [last]);
    assert Readable(sum, [Garbage]) == [];
  }

  // A line whose checksum no longer fits its payload, or that is too long, hides everything behind it.
  lemma UnreadableLineHidesTheRest(sum: LineChecksum, file: WalFile, e: Entry, later: seq<Line>)
    requires !file.open && (!FitsScanner(e) || sum(Marshal(e)) != sum(Marshal(Reread(e))))
    ensures Readable(sum, Appended(file, NewWALEntry(sum, e)).lines + later) == Readable(sum, file.lines)
    ensures !AllGood(sum, Appended(file, NewWALEntry(sum, e)).lines + later)
  {
    var line := NewWALEntry(sum, e);
    assert file.lines + [line] + later == file.lines + ([line] + later);
    assert Readable(sum, [line] + later) == [];
    ReadablePrefix(sum, file.lines, [line] + later);
    assert (file.lines + [line] + later)[|file.lines|] == line;
  }

  // For example: a value of the one byte 0xFF, which begins no character, is written as an escape and read back as
  // U+FFFD. The texts differ, so but for a collision of checksums the write and all later ones are lost.
  lemma InvalidByteIsLost(sum: LineChecksum, file: WalFile, key: bytes)
    requires !file.open && AllGood(sum, file.lines)
    ensures var e := Entry(key, [0xFF], Put);
            && !Loggable(e) && Reread(e).V == REPLACEMENT && Marshal(e) != Marshal(Reread(e))
            && Readable(sum, Appended(file, NewWALEntry(sum, e)).lines) != Readable(sum, file.lines) + [e]
  {
    var e := Entry(key, [0xFF], Put);
    assert Repaired([0xFF]) == REPLACEMENT + Repaired([]);
    DecodedIsRepaired(e);
    RereadSameIff(e);
    AppendIsReadBackIff(sum, file, e);
  }

  // A log written only by completed appends.
  function Written(sum: LineChecksum, entries: seq<Entry>): (file: WalFile)
    ensures !file.open
  {
    if entries == [] then WalFile([], false)
    else Appended(Written(sum, entries[..|entries| - 1]), NewWALEntry(sum, entries[|entries| - 1]))
  }

  lemma WrittenSnoc(sum: LineChecksum, entries: seq<Entry>)
    requires entries != []
    ensures Written(sum, entries).lines ==
            Written(sum, entries[..|entries| - 1]).lines + [NewWALEntry(sum, entries[|entries| - 1])]
  {}

  predicate AllLoggable(entries: seq<Entry>) {
    forall i :: 0 <= i < |entries| ==> Loggable(entries[i])
  }

  // It is read back in full and in order exactly if every entry comes through.
  lemma {:induction false} LogRoundTrip(sum: LineChecksum, entries: seq<Entry>)
    ensures Readable(sum, Written(sum, entries).lines) == entries <==> AllLoggable(entries)
    ensures AllLoggable(entries) ==> AllGood(sum, Written(sum, entries).lines)
    ensures |Written(sum, entries).lines| == |entries|
  {
    hide *;
    if entries == [] {
      NothingWritten(sum);
    } else {
      var init, last := entries[..|entries| - 1], entries[|entries| - 1];
      LogRoundTrip(sum, init);
      WrittenSnoc(sum, entries);
      RoundTripStep(sum, Written(sum, init).lines, NewWALEntry(sum, last), init, last);
      AllLoggableSnoc(entries);
      assert entries == init + [last];
    }
  }

  lemma NothingWritten(sum: LineChecksum)
    ensures Written(sum, []).lines == [] && Readable(sum, []) == []
    ensures AllGood(sum, []) && AllLoggable([])
  {}

  lemma RoundTripStep(sum: LineChecksum, lines: seq<Line>, line: Line, init: seq<Entry>, last: Entry)
    requires |lines| == |init| && line == NewWALEntry(sum, last)
    requires Readable(sum, lines) == init <==> AllLoggable(init)
    requires AllLoggable(init) ==> AllGood(sum, lines)
    ensures Readable(sum, lines + [line]) == init + [last] <==> AllLoggable(init) && Loggable(last)
    ensures AllLoggable(init) && Loggable(last) ==> AllGood(sum, lines + [line])
  {
    hide Good, NewWALEntry, Loggable;
    ReadableGood(sum, lines);
    ReadablePrefix(sum, lines, [line]);
    LoggableIsGood(sum, last);
    if AllGood(sum, lines) {
      PiecesSame(Readable(sum, lines), Readable(sum, [line]), init, [last]);
    }
  }

  lemma AllLoggableSnoc(entries: seq<Entry>)
    requires entries != []
    ensures AllLoggable(entries) <==> AllLoggable(entries[..|entries| - 1]) && Loggable(entries[|entries| - 1])
  {
    hide Loggable;
  }

  lemma PiecesSame(a: seq<Entry>, b: seq<Entry>, c: seq<Entry>, d: seq<Entry>)
    requires |a| == |c|
    ensures a + b == c + d <==> a == c && b == d
  {
    assert (a + b)[..|a|] == a && (a + b)[|a|..] == b && (c + d)[..|a|] == c && (c + d)[|a|..] == d;
  }

  // A single crash in the middle of an append loses nothing that was appended before: the restart reads all
  // completed entries, and the torn one as well if its text was complete.
  lemma TornTailReadsTheRest(sum: LineChecksum, file: WalFile, e: Entry, whole: bool)
    requires !file.open && AllGood(sum, file.lines) && (whole ==> Loggable(e))
    ensures Readable(sum, Torn(file, NewWALEntry(sum, e), whole).lines)
         == Readable(sum, file.lines) + (if whole then [e] else [])
  {
    ReadablePrefix(sum, file.lines, [if whole then NewWALEntry(sum, e) else Garbage]);
    LoggableIsGood(sum, e);
  }

  // But the log is not repaired: a write completed after that restart is lost at the next one, and takes
  // the torn write with it.
  lemma WriteBehindTornTailIsLost(sum: LineChecksum, file: WalFile, e: Entry, whole: bool, later: Entry)
    requires !file.open && AllGood(sum, file.lines)
    ensures var torn := Torn(file, NewWALEntry(sum, e), whole);
            Readable(sum, Appended(torn, NewWALEntry(sum, later)).lines) == Readable(sum, file.lines)
  {
    var torn := Torn(file, NewWALEntry(sum, e), whole);
    assert torn.lines[..|torn.lines| - 1] == file.lines;
    ReadablePrefix(sum, file.lines, [Garbage]);
    assert Readable(sum, file.lines) + [] == Readable(sum, file.lines);
  }
}
