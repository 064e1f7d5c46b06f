// The manifest text: which tables each level consists of, and the key ranges of level 1.

module Manifests {
  import opened Base
  import opened Naming
  import Bloom

  datatype KeyRange = KeyRange(min: bytes, max: bytes)

  datatype SstableLevel = SstableLevel(
    level: nat,
    tables: seq<bytes>,
    bloomFilters: map<bytes, Bloom.Filter>,
    keyRanges: map<bytes, KeyRange>)

  const NEWLINE: byte := 10
  const TAB: byte := 9
  const QUOTE: byte := 0x22

  // strconv.Quote and strconv.Unquote, of which only this is used: they are inverse, and a quoted
  // string is delimited by quotes and contains no raw tab or newline.
  datatype Quoting = Quoting(quote: bytes -> bytes, unquote: bytes -> Option<bytes>)
  {
    ghost predicate Lawful() {
      forall s: bytes ::
        && unquote(quote(s)) == Some(s)
        && |quote(s)| >= 2 && quote(s)[|quote(s)| - 1] == QUOTE
        && NEWLINE !in quote(s) && TAB !in quote(s)
    }
  }

  // ---------- Lines ----------

  function IndexOf(s: bytes, b: byte): (i: nat)
    ensures i <= |s| && b !in s[..i] && (i < |s| ==> s[i] == b)
  {
    if s == [] || s[0] == b then 0
    else
      var i := IndexOf(s[1..], b);
      assert s[..i + 1] == [s[0]] + s[1..][..i];
      i + 1
  }

  lemma {:induction false} IndexOfIs(s: bytes, b: byte, i: nat)
    requires i <= |s| && b !in s[..i] && (i < |s| ==> s[i] == b)
    ensures IndexOf(s, b) == i
  {
    if i > 0 {
      assert s[0] == s[..i][0];
      assert s[1..][..i - 1] == s[..i][1..];
      IndexOfIs(s[1..], b, i - 1);
    }
  }

  // The scanner's lines: the text between newlines, without an empty last one.
  function SplitLines(text: bytes): seq<bytes>
    decreases |text|
  {
    var i := IndexOf(text, NEWLINE);
    if text == [] then []
    else if i == |text| then [text]
    else [text[..i]] + SplitLines(text[i + 1..])
  }

  function JoinLines(lines: seq<bytes>): bytes {
    if lines == [] then [] else lines[0] + [NEWLINE] + JoinLines(lines[1..])
  }

  lemma {:induction false} SplitJoined(lines: seq<bytes>)
    requires forall i :: 0 <= i < |lines| ==> NEWLINE !in lines[i]
    ensures SplitLines(JoinLines(lines)) == lines
  {
    if lines != [] {
      var text, first := JoinLines(lines), lines[0];
      assert text[..|first|] == first;
      IndexOfIs(text, NEWLINE, |first|);
      assert text[|first| + 1..] == JoinLines(lines[1..]);
      SplitJoined(lines[1..]);
    }
  }

  lemma {:induction false} JoinAppend(a: seq<bytes>, b: seq<bytes>)
    ensures JoinLines(a + b) == JoinLines(a) + JoinLines(b)
  {
    if a == [] {
      assert a + b == b;
    } else {
      assert (a + b)[1..] == a[1..] + b;
      JoinAppend(a[1..], b);
    }
  }

  predicate IsSpace(b: byte) {
    b == 0x20 || 9 <= b <= 13
  }

  function TrimLeft(s: bytes): bytes {
    if s != [] && IsSpace(s[0]) then TrimLeft(s[1..]) else s
  }

  function TrimEnd(s: bytes): bytes {
    if s != [] && IsSpace(s[|s| - 1]) then TrimEnd(s[..|s| - 1]) else s
  }

  function TrimSpace(s: bytes): bytes {
    TrimEnd(TrimLeft(s))
  }

  // ---------- Printing ----------

  const OPEN: bytes := ['[' as byte, 'L' as byte]
  const CLOSE: bytes := [']' as byte]

  function HeaderLine(level: nat): bytes {
    OPEN + Decimal(level) + CLOSE
  }

  function TableLine(q: Quoting, l: SstableLevel, table: bytes): bytes {
    if l.level == 1 && table in l.keyRanges then
      table + [TAB] + q.quote(l.keyRanges[table].min) + [TAB] + q.quote(l.keyRanges[table].max)
    else table
  }

  function TableLines(q: Quoting, l: SstableLevel, n: nat): (lines: seq<bytes>)
    requires n <= |l.tables|
    ensures |lines| == n
  {
    seq(n, i requires 0 <= i < n => TableLine(q, l, l.tables[i]))
  }

  function LevelLines(q: Quoting, l: SstableLevel): seq<bytes> {
    [HeaderLine(l.level)] + TableLines(q, l, |l.tables|) + [[]]
  }

  function ManifestLines(q: Quoting, levels: seq<SstableLevel>): seq<bytes> {
    if levels == [] then [] else ManifestLines(q, levels[..|levels| - 1]) + LevelLines(q, levels[|levels| - 1])
  }

  // The text that rewriteManifestFromLevels writes, for levels already in order.
  method PrintManifest(q: Quoting, levels: seq<SstableLevel>) returns (text: bytes)
    ensures text == ManifestText(q, levels)
    ensures text == JoinLines(ManifestLines(q, levels))
  {
    LinesAreText(q, levels);
    text := [];
    for i := 0 to |levels|
      invariant text == JoinLines(ManifestLines(q, levels[..i]))
    {
      var l := levels[i];
      var part := PrintLevel(q, l);
      assert levels[..i + 1][..i] == levels[..i];
      JoinAppend(ManifestLines(q, levels[..i]), LevelLines(q, l));
      text := text + part;
    }
    assert levels[..|levels|] == levels;
  }

  method PrintLevel(q: Quoting, l: SstableLevel) returns (text: bytes)
    ensures text == JoinLines(LevelLines(q, l))
  {
    text := HeaderLine(l.level) + [NEWLINE];
    assert JoinLines([HeaderLine(l.level)]) == text;
    for j := 0 to |l.tables|
      invariant text == JoinLines([HeaderLine(l.level)] + TableLines(q, l, j))
    {
      var line := TableLine(q, l, l.tables[j]);
      assert [HeaderLine(l.level)] + TableLines(q, l, j + 1) == [HeaderLine(l.level)] + TableLines(q, l, j) + [line];
      JoinAppend([HeaderLine(l.level)] + TableLines(q, l, j), [line]);
      assert JoinLines([line]) == line + [NEWLINE];
      text := text + line + [NEWLINE];
    }
    var blank: bytes := [];
    JoinAppend([HeaderLine(l.level)] + TableLines(q, l, |l.tables|), [blank]);
    assert JoinLines([blank]) == [NEWLINE];
    text := text + [NEWLINE];
  }

  // ---------- The text, byte by byte ----------

  // One table: its name; or its name, a tab, its first key quoted, a tab, its last key quoted. Then a newline.
  function TableText(q: Quoting, l: SstableLevel, table: bytes): bytes {
    if l.level == 1 && table in l.keyRanges then
      table + [9] + q.quote(l.keyRanges[table].min) + [9] + q.quote(l.keyRanges[table].max) + [10]
    else table + [10]
  }

  function TablesText(q: Quoting, l: SstableLevel, n: nat): bytes
    requires n <= |l.tables|
  {
    if n == 0 then [] else TablesText(q, l, n - 1) + TableText(q, l, l.tables[n - 1])
  }

  // One level: [L, its number, ], a newline, its tables, and a blank line.
  function LevelText(q: Quoting, l: SstableLevel): bytes {
    [0x5B, 0x4C] + Decimal(l.level) + [0x5D, 10] + TablesText(q, l, |l.tables|) + [10]
  }

  function ManifestText(q: Quoting, levels: seq<SstableLevel>): bytes {
    if levels == [] then []
    else ManifestText(q, levels[..|levels| - 1]) + LevelText(q, levels[|levels| - 1])
  }

  lemma {:induction false} TablesPrinted(q: Quoting, l: SstableLevel, n: nat)
    requires n <= |l.tables|
    ensures JoinLines(TableLines(q, l, n)) == TablesText(q, l, n)
  {
    if n > 0 {
      var line := TableLine(q, l, l.tables[n - 1]);
      TablesPrinted(q, l, n - 1);
      assert TableLines(q, l, n) == TableLines(q, l, n - 1) + [line];
      JoinAppend(TableLines(q, l, n - 1), [line]);
      assert JoinLines([line]) == line + [NEWLINE] == TableText(q, l, l.tables[n - 1]);
    }
  }

  lemma LevelPrinted(q: Quoting, l: SstableLevel)
    ensures JoinLines(LevelLines(q, l)) == LevelText(q, l)
  {
    var header, tables := HeaderLine(l.level), TableLines(q, l, |l.tables|);
    var blank: bytes := [];
    TablesPrinted(q, l, |l.tables|);
    JoinAppend([header], tables);
    JoinAppend([header] + tables, [blank]);
    assert JoinLines([blank]) == [10] && JoinLines([header]) == header + [10];
    assert header + [10] == [0x5B, 0x4C] + Decimal(l.level) + [0x5D, 10];
  }

  // The lines, joined, are this text.
  lemma {:induction false} LinesAreText(q: Quoting, levels: seq<SstableLevel>)
    ensures JoinLines(ManifestLines(q, levels)) == ManifestText(q, levels)
  {
    if levels != [] {
      var init, l := levels[..|levels| - 1], levels[|levels| - 1];
      LinesAreText(q, init);
      LevelPrinted(q, l);
      JoinAppend(ManifestLines(q, init), LevelLines(q, l));
    }
  }

  // ---------- Parsing ----------

  // ^\[L[0-9]+\]$
  predicate IsHeader(line: bytes) {
    HasPrefix(line, OPEN) && HasSuffix(line, CLOSE) && |line| >= 3 && AllDigits(line[2..|line| - 1])
  }

  datatype ParsedLine = ParsedLine(table: bytes, range: Option<KeyRange>)

  function ParseManifestTable(q: Quoting, line: bytes, level: nat): Result<ParsedLine> {
    if level != 1 || TAB !in line then Ok(ParsedLine(line, None))
    else
      var i := IndexOf(line, TAB);
      var rest := line[i + 1..];
      var j := IndexOf(rest, TAB);
      if j == |rest| || TAB in rest[j + 1..] || i == 0 then Err(InvalidManifest)
      else
        var min, max := q.unquote(rest[..j]), q.unquote(rest[j + 1..]);
        if min.None? || max.None? || Less(max.value, min.value) then Err(InvalidManifest)
        else Ok(ParsedLine(line[..i], Some(KeyRange(min.value, max.value))))
  }

  // The parser's variables: finished levels and the level being read, if any.
  datatype ParseState = ParseState(levels: seq<SstableLevel>, current: Option<SstableLevel>)
  {
    function Finished(): seq<SstableLevel> {
      if current.Some? then levels + [current.value] else levels
    }
  }

  function ParseLine(q: Quoting, s: ParseState, raw: bytes): Result<ParseState> {
    var line := TrimSpace(raw);
    if line == [] then Ok(s)
    else if IsHeader(line) then
      var number := Atoi(line[2..|line| - 1]);
      if number.None? || number.value < 0 then Err(InvalidManifest)
      else Ok(ParseState(s.Finished(), Some(SstableLevel(number.value, [], map[], map[]))))
    else if s.current.None? then Ok(s)
    else
      var l := s.current.value;
      var parsed := ParseManifestTable(q, line, l.level);
      if parsed.Err? then Err(parsed.error)
      else
        var p := parsed.value;
        var ranges := if p.range.Some? then l.keyRanges[p.table := p.range.value] else l.keyRanges;
        Ok(s.(current := Some(l.(tables := l.tables + [p.table], keyRanges := ranges))))
  }

  function ParseLines(q: Quoting, lines: seq<bytes>): Result<ParseState> {
    if lines == [] then Ok(ParseState([], None))
    else
      var before := ParseLines(q, lines[..|lines| - 1]);
      if before.Err? then before else ParseLine(q, before.value, lines[|lines| - 1])
  }

  function ParseManifest(q: Quoting, text: bytes): Result<seq<SstableLevel>> {
    var s := ParseLines(q, SplitLines(text));
    if s.Err? then Err(s.error) else Ok(s.value.Finished())
  }

  lemma {:induction false} ParseErrorStays(q: Quoting, lines: seq<bytes>, i: nat)
    requires i <= |lines| && ParseLines(q, lines[..i]).Err?
    ensures ParseLines(q, lines) == ParseLines(q, lines[..i])
  {
    if i == |lines| {
      assert lines[..i] == lines;
    } else {
      assert lines[..|lines| - 1][..i] == lines[..i];
      ParseErrorStays(q, lines[..|lines| - 1], i);
    }
  }

  // ---------- The text read back ----------

  // A name that stands for itself on a line: every sst-<number>.db does.
  predicate PlainName(t: bytes) {
    && t != [] && !IsSpace(t[0]) && !IsSpace(t[|t| - 1])
    && 10 !in t && 9 !in t && (|t| >= 2 ==> t[..2] != [0x5B, 0x4C])
  }

  predicate Ranged(l: SstableLevel, table: bytes) {
    l.level == 1 && table in l.keyRanges
  }

  ghost predicate Printable(l: SstableLevel) {
    && l.level <= MAX_INT
    && (forall i :: 0 <= i < |l.tables| ==> PlainName(l.tables[i]))
    && (forall i :: 0 <= i < |l.tables| && Ranged(l, l.tables[i]) ==>
         !Less(l.keyRanges[l.tables[i]].max, l.keyRanges[l.tables[i]].min))
  }

  // What the text keeps of a level: names in order, and at level 1 the ranges of the listed tables.
  function RangesOf(l: SstableLevel, n: nat): map<bytes, KeyRange>
    requires n <= |l.tables|
  {
    map t | t in l.keyRanges && Ranged(l, t) && t in l.tables[..n] :: l.keyRanges[t]
  }

  function Kept(l: SstableLevel): SstableLevel {
    SstableLevel(l.level, l.tables, map[], RangesOf(l, |l.tables|))
  }

  function KeptAll(levels: seq<SstableLevel>): (r: seq<SstableLevel>)
    ensures |r| == |levels| && forall i :: 0 <= i < |r| ==> r[i] == Kept(levels[i])
  {
    seq(|levels|, i requires 0 <= i < |levels| => Kept(levels[i]))
  }

  // Three fields without tabs are split where they were joined.
  lemma FieldsSplit(t: bytes, a: bytes, b: bytes)
    requires TAB !in t && TAB !in a
    ensures var line := t + [TAB] + a + [TAB] + b;
            && TAB in line && IndexOf(line, TAB) == |t| && line[..|t|] == t
            && var rest := line[|t| + 1..];
               IndexOf(rest, TAB) == |a| && |a| < |rest| && rest[..|a|] == a && rest[|a| + 1..] == b
  {
    var line := t + [TAB] + a + [TAB] + b;
    assert line[..|t|] == t && line[|t|] == TAB;
    IndexOfIs(line, TAB, |t|);
    var rest := line[|t| + 1..];
    assert rest == a + [TAB] + b;
    assert rest[..|a|] == a && rest[|a|] == TAB && rest[|a| + 1..] == b;
    IndexOfIs(rest, TAB, |a|);
  }

  // A line that begins with a plain name and ends with a quote is no header, and is not trimmed.
  lemma QuotedLine(t: bytes, rest: bytes)
    requires PlainName(t) && rest != [] && rest[|rest| - 1] == QUOTE
    ensures TrimSpace(t + rest) == t + rest && !IsHeader(t + rest)
  {
    var line := t + rest;
    assert line[0] == t[0] && line[|line| - 1] == QUOTE && line[|line| - 1..] == [QUOTE];
  }

  // A line with a range is read back as its table and range exactly when the range is not inverted.
  lemma RangeLineRoundTrip(q: Quoting, t: bytes, r: KeyRange)
    requires q.Lawful() && PlainName(t)
    ensures var line := t + [TAB] + q.quote(r.min) + [TAB] + q.quote(r.max);
            && TrimSpace(line) == line && !IsHeader(line) && NEWLINE !in line
            && ParseManifestTable(q, line, 1) ==
               if Less(r.max, r.min) then Err(InvalidManifest) else Ok(ParsedLine(t, Some(r)))
  {
    hide IsHeader, TrimSpace, ParseManifestTable, Less;
    var a, b := q.quote(r.min), q.quote(r.max);
    assert t + [TAB] + a + [TAB] + b == t + ([TAB] + a + [TAB] + b);
    QuotedLine(t, [TAB] + a + [TAB] + b);
    FieldsParsed(q, t, a, b, r);
  }

  lemma FieldsParsed(q: Quoting, t: bytes, a: bytes, b: bytes, r: KeyRange)
    requires t != [] && TAB !in t && TAB !in a && TAB !in b
    requires q.unquote(a) == Some(r.min) && q.unquote(b) == Some(r.max)
    ensures ParseManifestTable(q, t + [TAB] + a + [TAB] + b, 1) ==
            if Less(r.max, r.min) then Err(InvalidManifest) else Ok(ParsedLine(t, Some(r)))
  {
    FieldsSplit(t, a, b);
    hide IndexOf, Less;
  }

  lemma TableLineRoundTrip(q: Quoting, l: SstableLevel, i: nat)
    requires q.Lawful() && Printable(l) && i < |l.tables|
    ensures var line, t := TableLine(q, l, l.tables[i]), l.tables[i];
            && TrimSpace(line) == line && line != [] && !IsHeader(line) && NEWLINE !in line
            && ParseManifestTable(q, line, l.level) ==
               Ok(ParsedLine(t, if Ranged(l, t) then Some(l.keyRanges[t]) else None))
  {
    var t := l.tables[i];
    assert PlainName(t);
    if Ranged(l, t) {
      RangeLineRoundTrip(q, t, l.keyRanges[t]);
    }
  }

  lemma HeaderRoundTrip(q: Quoting, level: nat)
    requires level <= MAX_INT
    ensures var line := HeaderLine(level);
            && TrimSpace(line) == line && IsHeader(line) && Atoi(line[2..|line| - 1]) == Some(level) && NEWLINE !in line
  {
    var line := HeaderLine(level);
    assert line[..2] == OPEN && line[|line| - 1..] == CLOSE && line[2..|line| - 1] == Decimal(level);
    AtoiDecimal(level);
  }

  lemma ParseSnoc(q: Quoting, lines: seq<bytes>, line: bytes)
    requires ParseLines(q, lines).Ok?
    ensures ParseLines(q, lines + [line]) == ParseLine(q, ParseLines(q, lines).value, line)
  {
    assert (lines + [line])[..|lines|] == lines;
  }

  // The level as it is known after its first n table lines.
  function LevelSoFar(l: SstableLevel, n: nat): SstableLevel
    requires n <= |l.tables|
  {
    SstableLevel(l.level, l.tables[..n], map[], RangesOf(l, n))
  }

  lemma HeaderParsed(q: Quoting, s: ParseState, l: SstableLevel)
    requires l.level <= MAX_INT
    ensures ParseLine(q, s, HeaderLine(l.level)) == Ok(ParseState(s.Finished(), Some(LevelSoFar(l, 0))))
  {
    HeaderRoundTrip(q, l.level);
    assert RangesOf(l, 0) == map[];
  }

  lemma TableParsed(q: Quoting, done: seq<SstableLevel>, l: SstableLevel, n: nat)
    requires q.Lawful() && Printable(l) && n < |l.tables|
    ensures ParseLine(q, ParseState(done, Some(LevelSoFar(l, n))), TableLine(q, l, l.tables[n])) ==
            Ok(ParseState(done, Some(LevelSoFar(l, n + 1))))
  {
    TableLineRoundTrip(q, l, n);
    RangesSnoc(l, n);
  }

  // Reading n table lines behind a header rebuilds the first n tables of the level.
  lemma {:induction false} LevelReadBack(q: Quoting, before: seq<bytes>, l: SstableLevel, n: nat)
    requires q.Lawful() && Printable(l) && n <= |l.tables|
    requires ParseLines(q, before).Ok?
    ensures ParseLines(q, before + ([HeaderLine(l.level)] + TableLines(q, l, n))) ==
            Ok(ParseState(ParseLines(q, before).value.Finished(), Some(LevelSoFar(l, n))))
  {
    hide ParseLine, ParseLines, ParseState.Finished, LevelSoFar, HeaderLine, TableLine;
    var done := ParseLines(q, before).value.Finished();
    var lines := before + ([HeaderLine(l.level)] + TableLines(q, l, n));
    if n == 0 {
      HeaderParsed(q, ParseLines(q, before).value, l);
      ParseSnoc(q, before, HeaderLine(l.level));
      assert lines == before + [HeaderLine(l.level)];
    } else {
      LevelReadBack(q, before, l, n - 1);
      var shorter := before + ([HeaderLine(l.level)] + TableLines(q, l, n - 1));
      TableParsed(q, done, l, n - 1);
      ParseSnoc(q, shorter, TableLine(q, l, l.tables[n - 1]));
      assert lines == shorter + [TableLine(q, l, l.tables[n - 1])];
    }
  }

  lemma RangesSnoc(l: SstableLevel, n: nat)
    requires n < |l.tables|
    ensures l.tables[..n] + [l.tables[n]] == l.tables[..n + 1]
    ensures RangesOf(l, n + 1) ==
            if Ranged(l, l.tables[n]) then RangesOf(l, n)[l.tables[n] := l.keyRanges[l.tables[n]]] else RangesOf(l, n)
  {
    assert l.tables[..n] + [l.tables[n]] == l.tables[..n + 1];
  }

  // Lines in front of the first header say nothing.
  ghost predicate NoHeaders(lines: seq<bytes>) {
    forall i :: 0 <= i < |lines| ==> !IsHeader(TrimSpace(lines[i])) && 10 !in lines[i]
  }

  lemma {:induction false} NothingSaid(q: Quoting, lines: seq<bytes>)
    requires NoHeaders(lines)
    ensures ParseLines(q, lines) == Ok(ParseState([], None))
  {
    if lines != [] {
      NothingSaid(q, lines[..|lines| - 1]);
    }
  }

  lemma BlankParsed(q: Quoting, s: ParseState)
    ensures ParseLine(q, s, []) == Ok(s)
  {}

  lemma {:induction false} LinesReadBack(q: Quoting, before: seq<bytes>, levels: seq<SstableLevel>)
    requires q.Lawful() && NoHeaders(before) && forall i :: 0 <= i < |levels| ==> Printable(levels[i])
    ensures ParseLines(q, before + ManifestLines(q, levels)).Ok?
    ensures ParseLines(q, before + ManifestLines(q, levels)).value.Finished() == KeptAll(levels)
  {
    hide TableLines, HeaderLine, Printable, ParseLine, ParseLines;
    if levels == [] {
      NothingSaid(q, before);
      assert before + ManifestLines(q, levels) == before;
    } else {
      var init, l := levels[..|levels| - 1], levels[|levels| - 1];
      LinesReadBack(q, before, init);
      var lines := before + ManifestLines(q, init);
      LevelReadBack(q, lines, l, |l.tables|);
      var more := [HeaderLine(l.level)] + TableLines(q, l, |l.tables|);
      ParseSnoc(q, lines + more, []);
      BlankParsed(q, ParseLines(q, lines + more).value);
      assert before + ManifestLines(q, levels) == lines + more + [[]];
      assert LevelSoFar(l, |l.tables|) == Kept(l);
      assert KeptAll(levels) == KeptAll(init) + [Kept(l)];
    }
  }

  lemma {:induction false} NoNewlines(q: Quoting, levels: seq<SstableLevel>)
    requires q.Lawful() && forall i :: 0 <= i < |levels| ==> Printable(levels[i])
    ensures forall line :: line in ManifestLines(q, levels) ==> NEWLINE !in line
  {
    if levels != [] {
      var l := levels[|levels| - 1];
      NoNewlines(q, levels[..|levels| - 1]);
      HeaderRoundTrip(q, l.level);
      forall i | 0 <= i < |l.tables| ensures NEWLINE !in TableLine(q, l, l.tables[i]) {
        TableLineRoundTrip(q, l, i);
      }
    }
  }

  // The same levels in order, the same tables in order, and the same level-1 ranges, for arbitrary keys.
  lemma ManifestRoundTrip(q: Quoting, levels: seq<SstableLevel>)
    requires q.Lawful() && forall i :: 0 <= i < |levels| ==> Printable(levels[i])
    ensures ParseManifest(q, JoinLines(ManifestLines(q, levels))) == Ok(KeptAll(levels))
  {
    TextReadBack(q, [], levels);
    LinesAreText(q, levels);
    assert JoinLines([]) + ManifestText(q, levels) == ManifestText(q, levels);
  }

  // The literal text of any levels is read as these levels, whatever stands in front of its first header.
  lemma TextReadBack(q: Quoting, before: seq<bytes>, levels: seq<SstableLevel>)
    requires q.Lawful() && NoHeaders(before) && forall i :: 0 <= i < |levels| ==> Printable(levels[i])
    ensures ParseManifest(q, JoinLines(before) + ManifestText(q, levels)) == Ok(KeptAll(levels))
  {
    NoNewlines(q, levels);
    SplitJoined(before + ManifestLines(q, levels));
    JoinAppend(before, ManifestLines(q, levels));
    LinesAreText(q, levels);
    LinesReadBack(q, before, levels);
  }

  ghost predicate AllPrintable(levels: seq<SstableLevel>) {
    forall i :: 0 <= i < |levels| ==> Printable(levels[i])
  }

  lemma TextsRead(q: Quoting, text: bytes)
    ensures forall levels :: q.Lawful() && AllPrintable(levels) && text == ManifestText(q, levels) ==>
              ParseManifest(q, text) == Ok(KeptAll(levels))
    ensures forall before, levels ::
              q.Lawful() && NoHeaders(before) && AllPrintable(levels)
              && text == JoinLines(before) + ManifestText(q, levels) ==>
                ParseManifest(q, text) == Ok(KeptAll(levels))
  {
    forall before, levels | q.Lawful() && NoHeaders(before) && AllPrintable(levels)
                            && text == JoinLines(before) + ManifestText(q, levels)
      ensures ParseManifest(q, text) == Ok(KeptAll(levels))
    {
      TextReadBack(q, before, levels);
    }
    assert NoHeaders([]) && forall levels :: JoinLines([]) + ManifestText(q, levels) == ManifestText(q, levels);
  }

  // getAllSSTables, on the text of the manifest.
  method GetAllSSTables(q: Quoting, text: bytes) returns (r: Result<seq<SstableLevel>>)
    ensures forall levels :: q.Lawful() && AllPrintable(levels) && text == ManifestText(q, levels) ==>
              r == Ok(KeptAll(levels))
    ensures forall before, levels ::
              q.Lawful() && NoHeaders(before) && AllPrintable(levels)
              && text == JoinLines(before) + ManifestText(q, levels) ==>
                r == Ok(KeptAll(levels))
    ensures r == ParseManifest(q, text)
  {
    TextsRead(q, text);
    hide ManifestText, AllPrintable, NoHeaders, SplitLines, JoinLines, ParseLine;
    var lines := SplitLines(text);
    var levels: seq<SstableLevel>, current: Option<SstableLevel> := [], None;
    for i := 0 to |lines|
      invariant ParseLines(q, lines[..i]) == Ok(ParseState(levels, current))
    {
      assert lines[..i + 1][..i] == lines[..i];
      var next := ParseLine(q, ParseState(levels, current), lines[i]);
      if next.Err? {
        ParseErrorStays(q, lines, i + 1);
        return Err(next.error);
      }
      levels, current := next.value.levels, next.value.current;
    }
    assert lines[..|lines|] == lines;
    return Ok(if current.Some? then levels + [current.value] else levels);
  }

  // ---------- Which lines are what ----------

  // A header is [L, at least one digit and nothing else, ].
  lemma HeaderIff(line: bytes)
    ensures IsHeader(line) <==>
            exists digits: bytes :: digits != [] && (forall i :: 0 <= i < |digits| ==> 48 <= digits[i] <= 57)
                                    && line == [0x5B, 0x4C] + digits + [0x5D]
  {
    if IsHeader(line) {
      var digits := line[2..|line| - 1];
      assert line[..2] == [0x5B, 0x4C] && line[|line| - 1..] == [0x5D];
      assert line == [0x5B, 0x4C] + digits + [0x5D];
      forall i | 0 <= i < |digits| ensures 48 <= digits[i] <= 57 { assert IsDigit(digits[i]); }
    }
    forall digits: bytes | digits != [] && (forall i :: 0 <= i < |digits| ==> 48 <= digits[i] <= 57)
                           && line == [0x5B, 0x4C] + digits + [0x5D]
      ensures IsHeader(line)
    {
      assert line[..2] == [0x5B, 0x4C] && line[|line| - 1..] == [0x5D] && line[2..|line| - 1] == digits;
    }
  }

  // The three fields of a line with a range.
  ghost predicate RangeLine(q: Quoting, line: bytes, table: bytes, a: bytes, b: bytes, range: KeyRange) {
    && line == table + [9] + a + [9] + b && table != [] && 9 !in table && 9 !in a && 9 !in b
    && q.unquote(a) == Some(range.min) && q.unquote(b) == Some(range.max) && !BytewiseLess(range.max, range.min)
  }

  // A line of level 1 that holds a tab is accepted exactly if it has three fields, the first one not empty, the
  // others quoted keys in order.
  lemma RangeLineIff(q: Quoting, line: bytes, p: ParsedLine)
    requires 9 in line
    ensures ParseManifestTable(q, line, 1) == Ok(p) <==>
            p.range.Some? && exists a, b :: RangeLine(q, line, p.table, a, b, p.range.value)
  {
    if ParseManifestTable(q, line, 1).Ok? {
      var a, b := RangeFields(q, line);
    }
    forall a, b | p.range.Some? && RangeLine(q, line, p.table, a, b, p.range.value)
      ensures ParseManifestTable(q, line, 1) == Ok(p)
    {
      RangeAccepted(q, line, p.table, a, b, p.range.value);
    }
    hide ParseManifestTable, RangeLine;
  }

  lemma RangeFields(q: Quoting, line: bytes) returns (a: bytes, b: bytes)
    requires 9 in line && ParseManifestTable(q, line, 1).Ok?
    ensures var p := ParseManifestTable(q, line, 1).value;
            p.range.Some? && RangeLine(q, line, p.table, a, b, p.range.value)
  {
    hide IndexOf, Less;
    var p, i := ParseManifestTable(q, line, 1).value, IndexOf(line, TAB);
    CutAt(line, i);
    var rest := line[i + 1..];
    var j := IndexOf(rest, TAB);
    CutAt(rest, j);
    a, b := rest[..j], rest[j + 1..];
    FieldsJoined(line[..i], a, b);
    LessIsBytewise(p.range.value.max, p.range.value.min);
    hide BytewiseLess;
  }

  lemma CutAt(s: bytes, i: nat)
    requires i < |s|
    ensures s == s[..i] + [s[i]] + s[i + 1..]
  {}

  lemma FieldsJoined(t: bytes, a: bytes, b: bytes)
    ensures t + [9] + (a + [9] + b) == t + [9] + a + [9] + b
  {}

  lemma RangeAccepted(q: Quoting, line: bytes, table: bytes, a: bytes, b: bytes, range: KeyRange)
    requires RangeLine(q, line, table, a, b, range)
    ensures ParseManifestTable(q, line, 1) == Ok(ParsedLine(table, Some(range)))
  {
    FieldsSplit(table, a, b);
    LessIsBytewise(range.max, range.min);
    hide BytewiseLess;
  }

  // Space, tab, newline, vertical tab, form feed and carriage return.
  predicate White(b: byte) {
    b == 0x20 || b == 9 || b == 10 || b == 11 || b == 12 || b == 13
  }

  // What is left of a line is all of it but white space at both ends.
  lemma {:induction false} TrimmedIs(s: bytes)
    ensures var t := TrimSpace(s);
            && (t != [] ==> !White(t[0]) && !White(t[|t| - 1]))
            && exists i, j :: 0 <= i <= j <= |s| && t == s[i..j]
                              && (forall k :: 0 <= k < i || j <= k < |s| ==> White(s[k]))
  {
    var left := TrimLeft(s);
    TrimmedLeft(s);
    TrimmedEnd(left);
    var i, t := |s| - |left|, TrimEnd(left);
    assert t == s[i..i + |t|];
    forall k | i + |t| <= k < |s| ensures IsSpace(s[k]) { assert s[k] == left[k - i]; }
  }

  lemma {:induction false} TrimmedLeft(s: bytes)
    ensures var t := TrimLeft(s);
            && |t| <= |s| && t == s[|s| - |t|..] && (t != [] ==> !IsSpace(t[0]))
            && forall k :: 0 <= k < |s| - |t| ==> IsSpace(s[k])
  {
    if s != [] && IsSpace(s[0]) {
      TrimmedLeft(s[1..]);
      assert forall k :: 1 <= k < |s| ==> s[k] == s[1..][k - 1];
    }
  }

  lemma {:induction false} TrimmedEnd(s: bytes)
    ensures var t := TrimEnd(s);
            && t <= s && (t != [] ==> !IsSpace(t[|t| - 1])) && forall k :: |t| <= k < |s| ==> IsSpace(s[k])
  {
    if s != [] && IsSpace(s[|s| - 1]) {
      TrimmedEnd(s[..|s| - 1]);
    }
  }
}
