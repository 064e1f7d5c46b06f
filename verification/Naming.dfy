// Table names: sst-<number>.db, and how the next number is chosen.

module Naming {
  import opened Base

  const PREFIX: bytes := ['s' as byte, 's' as byte, 't' as byte, '-' as byte]
  const EXT: bytes := ['.' as byte, 'd' as byte, 'b' as byte]
  const MAX_INT: nat := 0x7FFF_FFFF_FFFF_FFFF

  // ---------- Decimal numbers ----------

  predicate IsDigit(b: byte) {
    '0' as byte <= b <= '9' as byte
  }

  // %d of a number that is not negative
  function Decimal(n: nat): (s: bytes)
    ensures s != [] && forall i :: 0 <= i < |s| ==> IsDigit(s[i])
  {
    if n < 10 then ['0' as byte + n] else Decimal(n / 10) + ['0' as byte + n % 10]
  }

  function DigitsValue(s: bytes): nat
    requires forall i :: 0 <= i < |s| ==> IsDigit(s[i])
  {
    if s == [] then 0
    else
      assert IsDigit(s[|s| - 1]);
      10 * DigitsValue(s[..|s| - 1]) + (s[|s| - 1] - '0' as byte)
  }

  predicate AllDigits(s: bytes) {
    s != [] && forall i :: 0 <= i < |s| ==> IsDigit(s[i])
  }

  // strconv.Atoi: an optional sign, then digits; a number that does not fit is an error.
  function Atoi(s: bytes): Option<int> {
    var signed := s != [] && (s[0] == '+' as byte || s[0] == '-' as byte);
    var digits := if signed then s[1..] else s;
    if !AllDigits(digits) then None
    else
      var v: int := DigitsValue(digits);
      if s[0] == '-' as byte then (if v <= MAX_INT + 1 then Some(-v) else None)
      else (if v <= MAX_INT then Some(v) else None)
  }

  lemma {:induction false} DecimalValue(n: nat)
    ensures DigitsValue(Decimal(n)) == n
  {
    if n >= 10 {
      DecimalValue(n / 10);
      assert Decimal(n)[..|Decimal(n)| - 1] == Decimal(n / 10);
    } else {
      assert Decimal(n)[..0] == [];
    }
  }

  // Printing and parsing a number are inverse.
  lemma AtoiDecimal(n: nat)
    requires n <= 0x7FFF_FFFF_FFFF_FFFF
    ensures Atoi(Decimal(n)) == Some(n)
  {
    DecimalValue(n);
    assert IsDigit(Decimal(n)[0]);
  }

  // A number may have a sign, and must fit 64 bits with it.
  lemma AtoiIs(digits: bytes)
    requires AllDigits(digits)
    ensures Atoi(digits) == Atoi([0x2B] + digits)
            == if DigitsValue(digits) <= 0x7FFF_FFFF_FFFF_FFFF then Some(DigitsValue(digits)) else None
    ensures Atoi([0x2D] + digits)
            == if DigitsValue(digits) <= 0x8000_0000_0000_0000 then Some(0 - DigitsValue(digits) as int) else None
    ensures Atoi([]) == None
  {
    assert IsDigit(digits[0]) && ([0x2B] + digits)[1..] == digits && ([0x2D] + digits)[1..] == digits;
  }

  // ---------- Digits, one by one ----------

  function Pow10(n: nat): (p: nat)
    ensures p > 0
  {
    if n == 0 then 1 else 10 * Pow10(n - 1)
  }

  lemma DividedTwice(v: nat, p: nat)
    requires p > 0
    ensures v / 10 / p == v / (10 * p)
  {
    var q, r := v / 10 / p, v / 10 % p;
    assert v / 10 == p * q + r;
    assert v == (10 * p) * q + (10 * r + v % 10);
    QuotientIs(v, 10 * p, q, 10 * r + v % 10);
  }

  lemma QuotientIs(v: nat, d: nat, q: nat, r: nat)
    requires d > 0 && v == d * q + r && r < d
    ensures v / d == q
  {
    assert v == d * (v / d) + v % d;
    assert d * (v / d - q) == r - v % d;
    Multiples(d, v / d - q);
  }

  lemma Multiples(d: nat, k: int)
    ensures k >= 1 ==> d * k >= d
    ensures k <= -1 ==> d * k + d <= 0
  {}

  // A printed number has the digits of its decimal places, the last one first, and no zero in front.
  lemma {:induction false} DecimalDigits(n: nat, k: nat)
    ensures k < |Decimal(n)| ==> Decimal(n)[|Decimal(n)| - 1 - k] == 48 + n / Pow10(k) % 10
    ensures n < Pow10(|Decimal(n)|) && (n >= 10 ==> Decimal(n)[0] != 48)
  {
    var d := Decimal(n);
    if n >= 10 {
      DecimalDigits(n / 10, if k > 0 then k - 1 else 0);
      if 0 < k < |d| {
        DividedTwice(n, Pow10(k - 1));
        assert d[|d| - 1 - k] == Decimal(n / 10)[|Decimal(n / 10)| - 1 - (k - 1)];
      }
      assert Pow10(|d|) == 10 * Pow10(|d| - 1);
      if n < 100 {
        assert d[0] == Decimal(n / 10)[0] == 48 + n / 10;
      }
    }
  }

  // So has a number that is parsed, whatever zeros it has in front.
  lemma {:induction false} ValueDigits(s: bytes, k: nat)
    requires forall i :: 0 <= i < |s| ==> IsDigit(s[i])
    ensures k < |s| ==> DigitsValue(s) / Pow10(k) % 10 == s[|s| - 1 - k] - 48
    ensures DigitsValue(s) < Pow10(|s|)
  {
    if s != [] {
      var init, last := s[..|s| - 1], s[|s| - 1];
      assert IsDigit(last);
      ValueDigits(init, if k > 0 then k - 1 else 0);
      assert DigitsValue(s) / 10 == DigitsValue(init);
      if 0 < k < |s| {
        DividedTwice(DigitsValue(s), Pow10(k - 1));
      }
    }
  }

  // ---------- Names ----------

  function TableName(n: nat): bytes {
    PREFIX + Decimal(n) + EXT
  }

  predicate HasPrefix(s: bytes, p: bytes) {
    |p| <= |s| && s[..|p|] == p
  }

  predicate HasSuffix(s: bytes, e: bytes) {
    |e| <= |s| && s[|s| - |e|..] == e
  }

  function TrimPrefix(s: bytes, p: bytes): bytes {
    if HasPrefix(s, p) then s[|p|..] else s
  }

  function TrimSuffix(s: bytes, e: bytes): bytes {
    if HasSuffix(s, e) then s[..|s| - |e|] else s
  }

  // getSSTableIndex: 0 for everything that is not a table name with a positive number.
  function TableIndex(table: bytes): (idx: nat) {
    if !HasPrefix(table, PREFIX) || !HasSuffix(table, EXT) then 0
    else
      var number := Atoi(TrimSuffix(TrimPrefix(table, PREFIX), EXT));
      if number.None? || number.value <= 0 then 0 else number.value
  }

  lemma TableIndexOfName(n: nat)
    requires 1 <= n <= MAX_INT
    ensures TableIndex(TableName(n)) == n
  {
    var name := TableName(n);
    assert name[..|PREFIX|] == PREFIX && name[|name| - |EXT|..] == EXT;
    var rest := name[|PREFIX|..];
    assert rest == Decimal(n) + EXT && rest[|rest| - |EXT|..] == EXT && rest[..|rest| - |EXT|] == Decimal(n);
    AtoiDecimal(n);
  }

  // The names that have a number are sst-, the number, .db; a generated one has its digits.
  lemma NameIs(t: bytes, n: nat)
    ensures TableName(n) == [0x73, 0x73, 0x74, 0x2D] + Decimal(n) + [0x2E, 0x64, 0x62]
    ensures n >= 1 ==>
              (TableIndex(t) == n <==>
                exists d :: t == [0x73, 0x73, 0x74, 0x2D] + d + [0x2E, 0x64, 0x62] && Atoi(d) == Some(n))
  {
    forall d | t == [0x73, 0x73, 0x74, 0x2D] + d + [0x2E, 0x64, 0x62]
      ensures HasPrefix(t, PREFIX) && HasSuffix(t, EXT) && TrimSuffix(TrimPrefix(t, PREFIX), EXT) == d
    {
      assert t[4..] == d + EXT && (d + EXT)[|d|..] == EXT && (d + EXT)[..|d|] == d;
    }
    if n >= 1 && TableIndex(t) == n {
      var d := TrimSuffix(TrimPrefix(t, PREFIX), EXT);
      assert t[..4] == PREFIX && t[|t| - 3..] == EXT;
      assert t[3] == 0x2D && t[|t| - 3] == 0x2E;
      assert t == [0x73, 0x73, 0x74, 0x2D] + t[4..|t| - 3] + [0x2E, 0x64, 0x62] && t[4..|t| - 3] == d;
    }
  }

  // The largest number in use, or 0.
  function MaxIndex(tables: seq<bytes>): nat {
    if tables == [] then 0
    else
      var m, idx := MaxIndex(tables[..|tables| - 1]), TableIndex(tables[|tables| - 1]);
      if idx > m then idx else m
  }

  // The name of the next level-0 table.
  function NextName(tables: seq<bytes>): bytes {
    TableName(MaxIndex(tables) + 1)
  }

  // getNextSSTableIndex: one more than the largest number in use.
  method GetNextSSTableIndex(tables: seq<bytes>) returns (next: nat)
    ensures next == MaxIndex(tables) + 1 && forall t :: t in tables ==> TableIndex(t) < next
    ensures next > 1 ==> exists t :: t in tables && TableIndex(t) == next - 1
  {
    var maxIdx := 0;
    for i := 0 to |tables|
      invariant maxIdx == MaxIndex(tables[..i]) && forall t :: t in tables[..i] ==> TableIndex(t) <= maxIdx
      invariant maxIdx > 0 ==> exists t :: t in tables[..i] && TableIndex(t) == maxIdx
    {
      assert tables[..i + 1][..i] == tables[..i];
      assert tables[..i + 1] == tables[..i] + [tables[i]];
      if TableIndex(tables[i]) > maxIdx {
        maxIdx := TableIndex(tables[i]);
        assert tables[i] in tables[..i + 1];
      }
    }
    assert tables[..|tables|] == tables;
    return maxIdx + 1;
  }

  lemma {:induction false} MaxIndexIsMax(tables: seq<bytes>, t: bytes)
    requires t in tables
    ensures TableIndex(t) <= MaxIndex(tables)
  {
    if t != tables[|tables| - 1] {
      MaxIndexIsMax(tables[..|tables| - 1], t);
    }
  }

  // A name numbered above every table in use is new.
  lemma FreshName(tables: seq<bytes>)
    requires MaxIndex(tables) < MAX_INT
    ensures NextName(tables) !in tables
  {
    TableIndexOfName(MaxIndex(tables) + 1);
    if NextName(tables) in tables {
      MaxIndexIsMax(tables, NextName(tables));
    }
  }

  // Different numbers give different names.
  lemma NamesDiffer(m: nat, n: nat)
    requires TableName(m) == TableName(n)
    ensures m == n
  {
    DecimalValue(m);
    DecimalValue(n);
    assert TableName(m)[|PREFIX|..|TableName(m)| - |EXT|] == Decimal(m);
    assert TableName(n)[|PREFIX|..|TableName(n)| - |EXT|] == Decimal(n);
  }
}
