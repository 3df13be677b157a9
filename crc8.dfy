/** Table-driven CRC-8 (firmware/common/src/crc8.rs).

    `GenerateLookup` builds the 256-entry table by running every byte value
    through eight shift/XOR steps of polynomial division; `CalcCrc8` folds the
    table over a byte sequence starting from 0. Both are proved against the
    specification functions `Table` and `Crc`, about which the lemmas below
    state the properties of the code: the zero entry, the known entries and
    check value for polynomial 0x07, the fold law, that for an odd polynomial
    (0x07 and 0x85 both are) the table is injective, and hence that a change
    confined to one byte always changes the checksum. */
module Crc8 {
  import opened Primitives

  /** One step of the inner loop: shift left by one (dropping the top bit) and
      XOR in the polynomial when the bit shifted out was set. */
  function Step(value: u8, polynomial: u8): u8 {
    if value & 0x80 != 0 then (value << 1) ^ polynomial else value << 1
  }

  /** `value` after `n` steps of the inner loop. */
  function Shift(value: u8, polynomial: u8, n: nat): u8
    decreases n
  {
    if n == 0 then value else Step(Shift(value, polynomial, n - 1), polynomial)
  }

  /** The lookup table for `polynomial`: entry `i` is `i` after eight steps. */
  function Table(polynomial: u8): (t: seq<u8>)
    ensures |t| == 256
  {
    seq(256, i requires 0 <= i < 256 => Shift(i as u8, polynomial, 8))
  }

  /** The table entry at `index`: a `u8` index is always inside the 256 entries. */
  function Lookup(table: seq<u8>, index: u8): u8
    requires |table| == 256
  {
    table[index as int]
  }

  /** One step of the checksum loop: the state XOR the next byte, looked up. */
  function Fold(state: u8, b: u8, lookup: seq<u8>): u8
    requires |lookup| == 256
  {
    Lookup(lookup, state ^ b)
  }

  /** The checksum of `bytes` with table `lookup`: a left fold of `Fold` from 0. */
  function Crc(bytes: seq<u8>, lookup: seq<u8>): u8
    requires |lookup| == 256
    decreases |bytes|
  {
    if bytes == [] then 0
    else Fold(Crc(bytes[..|bytes| - 1], lookup), bytes[|bytes| - 1], lookup)
  }

  /** `generate_lookup`: the nested loops of the source, writing the table in place. */
  method GenerateLookup(polynomial: u8) returns (table: array<u8>)
    ensures fresh(table)
    ensures table.Length == 256
    ensures table[..] == Table(polynomial)
  {
    table := new u8[256](_ => 0);
    var i := 0;
    while i < 256
      invariant 0 <= i <= 256
      invariant forall k :: 0 <= k < i ==> table[k] == Shift(k as u8, polynomial, 8)
    {
      var value := i as u8;
      var bit := 0;
      while bit < 8
        invariant 0 <= bit <= 8
        invariant value == Shift(i as u8, polynomial, bit)
      {
        if value & 0x80 != 0 {
          value := value << 1;
          value := value ^ polynomial;
        } else {
          value := value << 1;
        }
        bit := bit + 1;
      }
      table[i] := value;
      i := i + 1;
    }
    assert forall k :: 0 <= k < 256 ==> table[..][k] == Table(polynomial)[k];
  }

  /** `calc_crc8`: the checksum loop over a table held in an array. */
  method CalcCrc8(bytes: seq<u8>, lookup: array<u8>) returns (crc: u8)
    requires lookup.Length == 256
    ensures crc == Crc(bytes, lookup[..])
  {
    crc := 0;
    var i := 0;
    while i < |bytes|
      invariant 0 <= i <= |bytes|
      invariant crc == Crc(bytes[..i], lookup[..])
    {
      assert bytes[..i + 1][..i] == bytes[..i];
      crc := lookup[(crc ^ bytes[i]) as int];
      i := i + 1;
    }
    assert bytes[..i] == bytes;
  }

  /** The checksum of nothing is 0. */
  lemma CrcEmpty(lookup: seq<u8>)
    requires |lookup| == 256
    ensures Crc([], lookup) == 0
  {
  }

  /** The fold law: appending one byte performs one table lookup. */
  lemma CrcAppend(bytes: seq<u8>, b: u8, lookup: seq<u8>)
    requires |lookup| == 256
    ensures Crc(bytes + [b], lookup) == Fold(Crc(bytes, lookup), b, lookup)
  {
    assert (bytes + [b])[..|bytes|] == bytes;
  }

  /** The fold law on a prefix of a fixed message. */
  lemma CrcPrefix(bytes: seq<u8>, k: nat, lookup: seq<u8>)
    requires |lookup| == 256 && k < |bytes|
    ensures Crc(bytes[..k + 1], lookup) == Fold(Crc(bytes[..k], lookup), bytes[k], lookup)
  {
    assert bytes[..k + 1][..k] == bytes[..k];
  }

  /** Zero stays zero through any number of steps. */
  lemma {:induction false} ShiftZero(polynomial: u8, n: nat)
    ensures Shift(0, polynomial, n) == 0
  {
    if n > 0 {
      ShiftZero(polynomial, n - 1);
    }
  }

  /** Entry 0 of every table is 0: 0 never has its top bit set. */
  lemma TableZero(polynomial: u8)
    ensures Table(polynomial)[0] == 0
  {
    ShiftZero(polynomial, 8);
  }

  /** Two bytes XORed with the same byte stay distinct exactly when they were. */
  lemma XorCancel(x: u8, y: u8, c: u8)
    ensures x ^ c == y ^ c <==> x == y
  {
  }

  /** One step of the inner loop, written out: with an odd polynomial, the low
      bit of the result records the top bit that was shifted out, so the step
      can be undone. */
  lemma StepBodyInjective(a: u8, b: u8, polynomial: u8)
    requires polynomial & 1 == 1
    requires (if a & 0x80 != 0 then (a << 1) ^ polynomial else a << 1)
          == (if b & 0x80 != 0 then (b << 1) ^ polynomial else b << 1)
    ensures a == b
  {
  }

  /** With an odd polynomial one step loses no information. */
  lemma StepInjective(a: u8, b: u8, polynomial: u8)
    requires polynomial & 1 == 1
    requires Step(a, polynomial) == Step(b, polynomial)
    ensures a == b
  {
    StepBodyInjective(a, b, polynomial);
  }

  /** With an odd polynomial, any number of steps loses no information. */
  lemma {:induction false} ShiftInjective(a: u8, b: u8, polynomial: u8, n: nat)
    requires polynomial & 1 == 1
    requires Shift(a, polynomial, n) == Shift(b, polynomial, n)
    ensures a == b
  {
    if n > 0 {
      StepInjective(Shift(a, polynomial, n - 1), Shift(b, polynomial, n - 1), polynomial);
      ShiftInjective(a, b, polynomial, n - 1);
    }
  }

  /** A table in which no two indexes share an entry. */
  ghost predicate Injective(table: seq<u8>)
    requires |table| == 256
  {
    forall x: u8, y: u8 :: Lookup(table, x) == Lookup(table, y) ==> x == y
  }

  /** With an odd polynomial (0x07 and 0x85 both are) the table is injective:
      its 256 entries are the 256 byte values, each once. */
  lemma TableInjective(polynomial: u8)
    requires polynomial & 1 == 1
    ensures Injective(Table(polynomial))
  {
    forall x: u8, y: u8 | Lookup(Table(polynomial), x) == Lookup(Table(polynomial), y)
      ensures x == y
    {
      ShiftInjective(x, y, polynomial, 8);
    }
  }

  /** Under an injective table one step keeps apart states that differ in
      exactly one of the old state and the byte. */
  lemma FoldSeparates(table: seq<u8>, s1: u8, b1: u8, s2: u8, b2: u8)
    requires |table| == 256 && Injective(table)
    requires (s1 == s2 && b1 != b2) || (s1 != s2 && b1 == b2)
    ensures Fold(s1, b1, table) != Fold(s2, b2, table)
  {
    if s1 == s2 {
      XorCancel(b1, b2, s1);
    } else {
      XorCancel(s1, s2, b1);
    }
  }

  /** With an injective table, two messages of the same length that differ in
      exactly byte `k` have different checksums: the states differ right
      after byte `k`, and each later step keeps them apart. */
  lemma {:induction false} CrcSeparates(a: seq<u8>, b: seq<u8>, k: nat, table: seq<u8>)
    requires |table| == 256 && Injective(table)
    requires |a| == |b| && k < |a| && a[k] != b[k]
    requires forall i :: 0 <= i < |a| && i != k ==> a[i] == b[i]
    ensures Crc(a, table) != Crc(b, table)
    decreases |a|
  {
    var n := |a| - 1;
    if n == k {
      assert a[..n] == b[..n];
    } else {
      CrcSeparates(a[..n], b[..n], k, table);
    }
    FoldSeparates(table, Crc(a[..n], table), a[n], Crc(b[..n], table), b[n]);
  }

  /** With an odd polynomial (0x07 and 0x85 both are), two messages of the
      same length that differ in exactly one byte have different checksums:
      any corruption confined to one byte changes the checksum. */
  lemma SingleByteChangeDetected(a: seq<u8>, b: seq<u8>, k: nat, polynomial: u8)
    requires polynomial & 1 == 1
    requires |a| == |b| && k < |a| && a[k] != b[k]
    requires forall i :: 0 <= i < |a| && i != k ==> a[i] == b[i]
    ensures Crc(a, Table(polynomial)) != Crc(b, Table(polynomial))
  {
    TableInjective(polynomial);
    CrcSeparates(a, b, k, Table(polynomial));
  }

  /** The table entries the source's unit test checks for polynomial 0x07. */
  lemma KnownEntries()
    ensures Table(0x07)[0] == 0x00
    ensures Table(0x07)[8] == 0x38
    ensures Table(0x07)[16] == 0x70
    ensures Table(0x07)[255] == 0xf3
  {
  }

  /* The nine entries of the 0x07 table that the check string visits, one
     lemma each so that each table computation stays small. */
  lemma Entry31() ensures Table(0x07)[0x31] == 0x97 { }
  lemma EntryA5() ensures Table(0x07)[0xa5] == 0x72 { }
  lemma Entry41() ensures Table(0x07)[0x41] == 0xc0 { }
  lemma EntryF4() ensures Table(0x07)[0xf4] == 0xc2 { }
  lemma EntryF7() ensures Table(0x07)[0xf7] == 0xcb { }
  lemma EntryFD() ensures Table(0x07)[0xfd] == 0xfd { }
  lemma EntryCA() ensures Table(0x07)[0xca] == 0x78 { }
  lemma Entry40() ensures Table(0x07)[0x40] == 0xc7 { }
  lemma EntryFE() ensures Table(0x07)[0xfe] == 0xf4 { }

  /** The check string "123456789". */
  const CHECK_STRING: seq<u8> := [0x31, 0x32, 0x33, 0x34, 0x35, 0x36, 0x37, 0x38, 0x39]

  lemma CheckStringFold1(t: seq<u8>)
    requires |t| == 256
    requires t[0x31] == 0x97 && t[0xa5] == 0x72 && t[0x41] == 0xc0
    ensures Crc(CHECK_STRING[..3], t) == 0xc0
  {
    CrcPrefix(CHECK_STRING, 0, t);
    CrcPrefix(CHECK_STRING, 1, t);
    CrcPrefix(CHECK_STRING, 2, t);
  }

  lemma CheckStringFold2(t: seq<u8>)
    requires |t| == 256 && Crc(CHECK_STRING[..3], t) == 0xc0
    requires t[0xf4] == 0xc2 && t[0xf7] == 0xcb && t[0xfd] == 0xfd
    ensures Crc(CHECK_STRING[..6], t) == 0xfd
  {
    CrcPrefix(CHECK_STRING, 3, t);
    CrcPrefix(CHECK_STRING, 4, t);
    CrcPrefix(CHECK_STRING, 5, t);
  }

  lemma CheckStringFold3(t: seq<u8>)
    requires |t| == 256 && Crc(CHECK_STRING[..6], t) == 0xfd
    requires t[0xca] == 0x78 && t[0x40] == 0xc7 && t[0xfe] == 0xf4
    ensures Crc(CHECK_STRING, t) == 0xf4
  {
    CrcPrefix(CHECK_STRING, 6, t);
    CrcPrefix(CHECK_STRING, 7, t);
    CrcPrefix(CHECK_STRING, 8, t);
    assert CHECK_STRING[..9] == CHECK_STRING;
  }

  /** The CRC-8/SMBUS check value: "123456789" with polynomial 0x07 gives 0xf4. */
  lemma CheckValue()
    ensures Crc([0x31, 0x32, 0x33, 0x34, 0x35, 0x36, 0x37, 0x38, 0x39], Table(0x07)) == 0xf4
  {
    var t := Table(0x07);
    Entry31();
    EntryA5();
    Entry41();
    EntryF4();
    EntryF7();
    EntryFD();
    EntryCA();
    Entry40();
    EntryFE();
    CheckStringFold1(t);
    CheckStringFold2(t);
    CheckStringFold3(t);
  }
}
