/** The on-chain contract: one cell's covenant, in Script's own arithmetic, and its refinement of the automaton. */
module Covenant {
  import opened Wrappers
  import opened Automaton

  /** The readonly fields baked into one cell's locking script. */
  datatype Constants = Constants(left: Probe, centre: Probe, right: Probe, rowBytes: int, rule: int)

  /** Which byte to read, and what to divide it by to bring the wanted bit to position 0. */
  datatype Probe = Probe(byteIndex: int, div: int)

  // ---- Script numbers -------------------------------------------------------

  function LittleEndian(s: seq<bv8>): nat {
    if s == [] then 0 else s[0] as int + 256 * LittleEndian(s[1..])
  }

  /** Little-endian sign-magnitude: the high bit of the last byte is the sign. */
  function Bin2Num(s: seq<bv8>): int {
    if s == [] then 0
    else
      var last := |s| - 1;
      if s[last] & 0x80 == 0 then LittleEndian(s) else -(LittleEndian(s[last := s[last] & 0x7f]) as int)
  }

  /** Script division and remainder truncate toward zero. */
  function Div(a: int, b: int): int
    requires b != 0
  {
    if a >= 0 then a / b else -((-a) / b)
  }

  function Rem(a: int, b: int): int
    requires b != 0
  {
    a - b * Div(a, b)
  }

  /** One bit out of a row: cut a byte, pad it positive, shift it down by division.
      None is the script failing on a cut outside the row. */
  function BitAt(row: Row, p: Probe): Option<int> {
    if p.byteIndex < 0 || p.byteIndex >= |row| || p.div == 0 then None
    else Some(Rem(Div(Bin2Num(row[p.byteIndex..p.byteIndex + 1] + [0]), p.div), 2))
  }

  /** Whether the contract's assertions all hold when it carries row and is handed next. */
  predicate Accepts(k: Constants, row: Row, next: Row) {
    && |next| == k.rowBytes
    && var l := BitAt(row, k.left);
    var c := BitAt(row, k.centre);
    var r := BitAt(row, k.right);
    && l.Some? && c.Some? && r.Some?
    && var pow := (1 + 15 * l.value) * (1 + 3 * c.value) * (1 + r.value);
    && pow != 0
    && BitAt(next, k.centre) == Some(Rem(Div(k.rule, pow), 2))
  }

  /** The contract object: Step checks one bit and then carries the whole row it was handed. */
  class Cell {
    const k: Constants
    var row: Row

    constructor (k: Constants, row: Row)
      ensures this.k == k && this.row == row
    {
      this.k, this.row := k, row;
    }

    method Step(nextRow: Row) returns (ok: bool)
      modifies this
      ensures ok == Accepts(k, old(row), nextRow)
      ensures row == if ok then nextRow else old(row)
    {
      ok := false;
      if |nextRow| != k.rowBytes { return; }
      var l := BitAt(row, k.left);
      var c := BitAt(row, k.centre);
      var r := BitAt(row, k.right);
      if l.None? || c.None? || r.None? { return; }
      var pow := (1 + 15 * l.value) * (1 + 3 * c.value) * (1 + r.value);
      if pow == 0 { return; }
      var next := Rem(Div(k.rule, pow), 2);
      if BitAt(nextRow, k.centre) != Some(next) { return; }
      row := nextRow;
      ok := true;
    }
  }

  /** The constants cell i of an n-cell ring is bound with; the ring wrap lives entirely here. */
  function CtorArgs(n: nat, rule: Rule, i: int, row: Row): Option<Constants> {
    if i < 0 || i >= n || Cells(row) != n then None
    else
      var l, r := LeftIndex(n, i), RightIndex(n, i);
      Some(Constants(ProbeOf(l), ProbeOf(i), ProbeOf(r), n / 8, rule as int))
  }

  function ProbeOf(j: nat): Probe {
    Probe(j / 8, Mask(j % 8) as int)
  }

  // ---- the refinement -------------------------------------------------------

  /** The zero pad is what makes a byte read as 0..255. */
  lemma PaddedByte(b: bv8)
    ensures Bin2Num([b] + [0]) == b as int
  {
    var s: seq<bv8> := [b] + [0];
    assert s == [b, 0] && s[1..] == [0] && s[1..][1..] == [];
    assert LittleEndian(s[1..]) == 0;
  }

  /** Without it, the upper half of the bytes would read as negative numbers. */
  lemma UnpaddedByte(b: bv8)
    ensures Bin2Num([b]) == if b as int < 128 then b as int else 128 - b as int
  {
    var s: seq<bv8> := [b];
    assert s[0 := s[0] & 0x7f] == [b & 0x7f];
    OneByte(b);
    OneByte(b & 0x7f);
    HighBit(b);
  }

  lemma OneByte(b: bv8)
    ensures LittleEndian([b]) == b as int
  {
    assert [b][1..] == [];
  }

  lemma HighBit(b: bv8)
    ensures b & 0x80 == 0 <==> b as int < 128
    ensures (b & 0x7f) as int == if b as int < 128 then b as int else b as int - 128
  {}

  /** Division by Script truncates: the quotient is the same for a number and its opposite, and the remainder
      has the number's sign. */
  lemma ScriptTruncates(a: int, b: nat)
    requires b > 0
    ensures Div(-a, b) == -Div(a, b) && Rem(-a, b) == -Rem(a, b)
    ensures a >= 0 ==> 0 <= Rem(a, b) < b && b * Div(a, b) <= a
  {}

  lemma ShiftedBy1(b: bv8)
    ensures (b as int / 1) % 2 == 1 <==> b & 1 != 0
  {}

  lemma ShiftedBy2(b: bv8)
    ensures (b as int / 2) % 2 == 1 <==> b & 2 != 0
  {}

  lemma ShiftedBy4(b: bv8)
    ensures (b as int / 4) % 2 == 1 <==> b & 4 != 0
  {}

  lemma ShiftedBy8(b: bv8)
    ensures (b as int / 8) % 2 == 1 <==> b & 8 != 0
  {}

  lemma ShiftedBy16(b: bv8)
    ensures (b as int / 16) % 2 == 1 <==> b & 16 != 0
  {}

  lemma ShiftedBy32(b: bv8)
    ensures (b as int / 32) % 2 == 1 <==> b & 32 != 0
  {}

  lemma ShiftedBy64(b: bv8)
    ensures (b as int / 64) % 2 == 1 <==> b & 64 != 0
  {}

  lemma ShiftedBy128(b: bv8)
    ensures (b as int / 128) % 2 == 1 <==> b & 128 != 0
  {}

  /** Dividing by 1 << k brings bit k down to position 0. */
  lemma ShiftedBit(b: bv8, k: nat)
    requires k < 8
    ensures (b as int / Mask(k) as int) % 2 == Num(Bit(b, k))
  {
    ShiftedBy1(b);
    ShiftedBy2(b);
    ShiftedBy4(b);
    ShiftedBy8(b);
    ShiftedBy16(b);
    ShiftedBy32(b);
    ShiftedBy64(b);
    ShiftedBy128(b);
  }

  /** On a byte, Script's truncating arithmetic is the ordinary kind. */
  lemma TruncationIsFloor(v: nat, d: nat)
    requires d > 0
    ensures Rem(Div(v, d), 2) == (v / d) % 2
  {
    var q := v / d;
    assert q >= 0 && Div(v, d) == q && Div(q, 2) == q / 2;
  }

  lemma MaskPositive(k: nat)
    requires k < 8
    ensures Mask(k) as int > 0
  {}

  lemma ByteProbe(b: bv8, k: nat)
    requires k < 8
    ensures Mask(k) as int > 0 && Rem(Div(b as int, Mask(k) as int), 2) == Num(Bit(b, k))
  {
    MaskPositive(k);
    ShiftedBit(b, k);
    TruncationIsFloor(b as int, Mask(k) as int);
  }

  lemma BitAtReadsCell(row: Row, j: nat)
    requires j < Cells(row)
    ensures BitAt(row, ProbeOf(j)) == Some(Num(Get(row, j)))
  {
    var b, k := row[j / 8], j % 8;
    assert row[j / 8..j / 8 + 1] == [b];
    PaddedByte(b);
    ByteProbe(b, k);
  }

  lemma PowIsMask(l: bool, c: bool, r: bool)
    ensures (1 + 15 * Num(l)) * (1 + 3 * Num(c)) * (1 + Num(r)) == Mask(4 * Num(l) + 2 * Num(c) + Num(r)) as int
  {
    if l {} else {}
    if c {} else {}
    if r {} else {}
  }

  /** The branchless power is exactly 2^(4l + 2c + r). */
  lemma RuleLookup(rule: Rule, l: bool, c: bool, r: bool)
    ensures var pow := (1 + 15 * Num(l)) * (1 + 3 * Num(c)) * (1 + Num(r));
            pow > 0 && Rem(Div(rule as int, pow), 2) == Num(Next(rule, l, c, r))
  {
    PowIsMask(l, c, r);
    ByteProbe(rule, 4 * Num(l) + 2 * Num(c) + Num(r));
  }

  lemma AcceptsFromBits(k: Constants, rule: Rule, row: Row, next: Row, l: bool, c: bool, r: bool, bit: bool)
    requires k.rule == rule as int
    requires BitAt(row, k.left) == Some(Num(l))
    requires BitAt(row, k.centre) == Some(Num(c))
    requires BitAt(row, k.right) == Some(Num(r))
    requires |next| == k.rowBytes ==> BitAt(next, k.centre) == Some(Num(bit))
    ensures Accepts(k, row, next) <==> |next| == k.rowBytes && bit == Next(rule, l, c, r)
  {
    RuleLookup(rule, l, c, r);
  }

  /** The six baked constants read exactly the three cells of the neighbourhood. */
  lemma BoundNeighbourhood(n: nat, rule: Rule, i: nat, row: Row)
    requires i < n == Cells(row)
    ensures var args := CtorArgs(n, rule, i, row);
            && args.Some? && args.value.rule == rule as int && args.value.rowBytes == |row|
            && BitAt(row, args.value.left) == Some(Num(Get(row, LeftIndex(n, i))))
            && BitAt(row, args.value.centre) == Some(Num(Get(row, i)))
            && BitAt(row, args.value.right) == Some(Num(Get(row, RightIndex(n, i))))
            && args.value.centre == ProbeOf(i)
  {
    BitAtReadsCell(row, LeftIndex(n, i));
    BitAtReadsCell(row, i);
    BitAtReadsCell(row, RightIndex(n, i));
  }

  /** Cell i's contract accepts exactly the rows of the right length whose bit i is the rule's. */
  lemma CovenantChecksItsBit(n: nat, rule: Rule, i: nat, row: Row, next: Row)
    requires i < n == Cells(row)
    ensures CtorArgs(n, rule, i, row).Some?
    ensures Accepts(CtorArgs(n, rule, i, row).value, row, next)
       <==> |next| == |row| && Get(next, i) == Successor(rule, row, i)
  {
    BoundNeighbourhood(n, rule, i, row);
    var k := CtorArgs(n, rule, i, row).value;
    var l, c, r := Get(row, LeftIndex(n, i)), Get(row, i), Get(row, RightIndex(n, i));
    if |next| == |row| {
      BitAtReadsCell(next, i);
      AcceptsFromBits(k, rule, row, next, l, c, r, Get(next, i));
    }
  }

  ghost predicate RingAccepts(n: nat, rule: Rule, row: Row, next: Row)
    requires Cells(row) == n
  {
    forall i: nat :: i < n ==> Accepts(CtorArgs(n, rule, i, row).value, row, next)
  }

  lemma RingChecksEveryBit(n: nat, rule: Rule, row: Row, next: Row)
    requires 0 < n == Cells(row)
    ensures RingAccepts(n, rule, row, next) <==> IsStep(rule, row, next)
  {
    forall i: nat | i < n
      ensures Accepts(CtorArgs(n, rule, i, row).value, row, next)
         <==> |next| == |row| && Get(next, i) == Successor(rule, row, i)
    {
      CovenantChecksItsBit(n, rule, i, row, next);
    }
    if RingAccepts(n, rule, row, next) {
      assert Accepts(CtorArgs(n, rule, 0, row).value, row, next);
    }
  }

  /** All N contracts accept one and the same next row iff it is the automaton's next row. */
  lemma CovenantRefinesAutomaton(n: nat, rule: Rule, row: Row, next: Row)
    requires 0 < n == Cells(row)
    ensures RingAccepts(n, rule, row, next) <==> next == StepRow(rule, row)
  {
    RingChecksEveryBit(n, rule, row, next);
    StepUnique(rule, row, next);
  }

  /** The automaton in integer arithmetic, ring and all: the bit a cell gets is the rule divided by 16 if
      the cell above it is alive, by 4 if it is itself, and by 2 if the cell below it is. */
  lemma StepInArithmetic(rule: Rule, row: Row, i: nat)
    requires i < Cells(row)
    ensures var n := Cells(row);
            var above, below := (i + 1) % n, (i + n - 1) % n;
            var pow := (if Get(row, above) then 16 else 1) * (if Get(row, i) then 4 else 1) * (if Get(row, below) then 2 else 1);
            Get(StepRow(rule, row), i) <==> (rule as int / pow) % 2 == 1
  {
    var n := Cells(row);
    Around(n, i);
    var l, c, r := Get(row, LeftIndex(n, i)), Get(row, i), Get(row, RightIndex(n, i));
    assert Get(StepRow(rule, row), i) == Successor(rule, row, i);
    RuleLookup(rule, l, c, r);
    var pow := (1 + 15 * Num(l)) * (1 + 3 * Num(c)) * (1 + Num(r));
    TruncationIsFloor(rule as int, pow);
    assert pow == (if l then 16 else 1) * (if c then 4 else 1) * (if r then 2 else 1);
  }

  lemma Around(n: nat, i: nat)
    requires i < n
    ensures LeftIndex(n, i) == (i + 1) % n && RightIndex(n, i) == (i + n - 1) % n
  {
    AfterIsLeft(n, i);
    AfterIsLeft(n, RightIndex(n, i));
    Around1(n, i);
  }

  lemma Around1(n: nat, i: nat)
    requires i < n
    ensures (i + n - 1) % n == if i == 0 then n - 1 else i - 1
  {}

  /** No contract looks at any other cell's bit: this is the gap the audit exists to close. */
  lemma OtherBitsUnchecked(n: nat, rule: Rule, i: nat, row: Row, next: Row, other: Row)
    requires i < n == Cells(row)
    requires |other| == |next| == |row| && Get(other, i) == Get(next, i)
    ensures Accepts(CtorArgs(n, rule, i, row).value, row, other)
       <==> Accepts(CtorArgs(n, rule, i, row).value, row, next)
  {
    CovenantChecksItsBit(n, rule, i, row, next);
    CovenantChecksItsBit(n, rule, i, row, other);
  }
}
