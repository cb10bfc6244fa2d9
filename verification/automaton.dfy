/** An elementary cellular automaton on a ring: the reference the chain is driven from. */
module Automaton {
  /** One bit per cell: cell i lives in byte i/8 at bit i%8, least significant first. */
  type Row = seq<bv8>

  /** A Wolfram rule number. */
  type Rule = bv8

  function Num(b: bool): (n: nat)
    ensures n <= 1
  {
    if b then 1 else 0
  }

  /** 1 << k. */
  function Mask(k: nat): bv8
    requires k < 8
  {
    if k == 0 then 1 else if k == 1 then 2 else if k == 2 then 4 else if k == 3 then 8
    else if k == 4 then 16 else if k == 5 then 32 else if k == 6 then 64 else 128
  }

  predicate Bit(b: bv8, k: nat)
    requires k < 8
  {
    b & Mask(k) != 0
  }

  /** Bit 4l + 2c + r of the rule number is the transition function. */
  predicate Next(rule: Rule, l: bool, c: bool, r: bool) {
    Bit(rule, 4 * Num(l) + 2 * Num(c) + Num(r))
  }

  function Cells(row: Row): nat {
    8 * |row|
  }

  predicate Get(row: Row, i: nat)
    requires i < Cells(row)
  {
    Bit(row[i / 8], i % 8)
  }

  /** Left is the next-higher index; cell n-1 wraps to cell 0. */
  function LeftIndex(n: nat, i: nat): (j: nat)
    requires i < n
    ensures j < n
  {
    (i + 1) % n
  }

  /** Right is the next-lower index; cell 0 wraps to cell n-1. */
  function RightIndex(n: nat, i: nat): (j: nat)
    requires i < n
    ensures j < n
    ensures LeftIndex(n, j) == i
  {
    if i == 0 then n - 1 else i - 1
  }

  function SetBit(b: bv8, k: nat, alive: bool): bv8
    requires k < 8
  {
    if alive then b | Mask(k) else b & !Mask(k)
  }

  function Set(row: Row, i: nat, alive: bool): Row
    requires i < Cells(row)
  {
    row[i / 8 := SetBit(row[i / 8], i % 8, alive)]
  }

  lemma MaskRaises(b: bv8, i: nat, j: nat)
    requires i < 8 && j < 8
    ensures Bit(b | Mask(i), j) == (i == j || Bit(b, j))
  {}

  lemma MaskClears(b: bv8, i: nat, j: nat)
    requires i < 8 && j < 8
    ensures Bit(b & !Mask(i), j) == (i != j && Bit(b, j))
  {}

  lemma SetBitGet(b: bv8, i: nat, j: nat, alive: bool)
    requires i < 8 && j < 8
    ensures Bit(SetBit(b, i, alive), j) == if i == j then alive else Bit(b, j)
  {
    if alive { MaskRaises(b, i, j); } else { MaskClears(b, i, j); }
  }

  lemma SameCell(i: nat, j: nat)
    ensures i / 8 == j / 8 && i % 8 == j % 8 <==> i == j
  {}

  /** Setting one cell, either way, changes that cell and no other. */
  lemma SetGet(row: Row, i: nat, alive: bool, j: nat)
    requires i < Cells(row) && j < Cells(row)
    ensures Get(Set(row, i, alive), j) == if i == j then alive else Get(row, j)
  {
    SameCell(i, j);
    SetBitGet(row[i / 8], i % 8, j % 8, alive);
    assert Set(row, i, alive)[j / 8] == if i / 8 == j / 8 then SetBit(row[i / 8], i % 8, alive) else row[j / 8];
  }

  /** The bit the rule assigns to cell i. */
  predicate Successor(rule: Rule, row: Row, i: nat)
    requires i < Cells(row)
  {
    var n := Cells(row);
    Next(rule, Get(row, LeftIndex(n, i)), Get(row, i), Get(row, RightIndex(n, i)))
  }

  /** What one generation means: same ring, every cell the rule's output. */
  ghost predicate IsStep(rule: Rule, row: Row, next: Row) {
    && |next| == |row|
    && forall i: nat :: i < Cells(row) ==> Get(next, i) == Successor(rule, row, i)
  }

  function SuccessorBits(rule: Rule, row: Row): (bits: seq<bool>)
    ensures |bits| == Cells(row) && |bits| % 8 == 0
  {
    seq(Cells(row), i requires 0 <= i < Cells(row) => Successor(rule, row, i))
  }

  /** The first n bits packed into bytes, the rest left dead. */
  function Pack(bits: seq<bool>, n: nat): (row: Row)
    requires |bits| % 8 == 0 && n <= |bits|
    ensures Cells(row) == |bits|
  {
    if n == 0 then seq(|bits| / 8, _ => 0)
    else if bits[n - 1] then Set(Pack(bits, n - 1), n - 1, true)
    else Pack(bits, n - 1)
  }

  lemma {:induction false} PackGet(bits: seq<bool>, n: nat, j: nat)
    requires |bits| % 8 == 0 && n <= |bits| && j < |bits|
    ensures Get(Pack(bits, n), j) == (j < n && bits[j])
  {
    if n == 0 {
      assert Pack(bits, n)[j / 8] == 0;
    } else {
      PackGet(bits, n - 1, j);
      if bits[n - 1] {
        SetGet(Pack(bits, n - 1), n - 1, true, j);
      }
    }
  }

  function StepRow(rule: Rule, row: Row): (next: Row)
    ensures IsStep(rule, row, next)
  {
    var bits := SuccessorBits(rule, row);
    assert IsStep(rule, row, Pack(bits, |bits|)) by {
      forall i: nat | i < Cells(row) ensures Get(Pack(bits, |bits|), i) == Successor(rule, row, i) {
        PackGet(bits, |bits|, i);
      }
    }
    Pack(bits, |bits|)
  }

  lemma PackNext(bits: seq<bool>, n: nat)
    requires |bits| % 8 == 0 && n < |bits|
    ensures Pack(bits, n + 1) == if bits[n] then Set(Pack(bits, n), n, true) else Pack(bits, n)
  {}

  /** Set changes one cell of a row in place. */
  method SetCell(row: array<bv8>, i: nat, alive: bool)
    requires i < 8 * row.Length
    modifies row
    ensures row[..] == Set(old(row[..]), i, alive)
  {
    if alive {
      row[i / 8] := row[i / 8] | Mask(i % 8);
      assert row[..] == Set(old(row[..]), i, true);
      return;
    }
    row[i / 8] := row[i / 8] & !Mask(i % 8);
    assert row[..] == Set(old(row[..]), i, false);
  }

  /** One turn of Step's loop: brings cell i to life if it is to live. */
  method FillBit(rule: Rule, row: Row, out: array<bv8>, i: nat)
    requires i < Cells(row) && out[..] == Pack(SuccessorBits(rule, row), i)
    modifies out
    ensures out[..] == Pack(SuccessorBits(rule, row), i + 1)
  {
    PackNext(SuccessorBits(rule, row), i);
    assert out.Length == |out[..]|;
    var alive := DecideCell(rule, row, i);
    if alive { SetCell(out, i, true); }
  }

  method AllDead(bytes: nat, ghost bits: seq<bool>) returns (out: array<bv8>)
    requires |bits| == 8 * bytes
    ensures fresh(out) && out[..] == Pack(bits, 0)
  {
    out := new bv8[bytes](_ => 0);
    assert out[..] == Pack(bits, 0);
  }

  /** Step advances the whole row by one generation, filling a fresh row bit by bit. */
  method Step(rule: Rule, row: Row) returns (next: Row)
    ensures next == StepRow(rule, row)
  {
    var out := AllDead(|row|, SuccessorBits(rule, row));
    var i := 0;
    while i < Cells(row)
      invariant i <= Cells(row) && out[..] == Pack(SuccessorBits(rule, row), i)
    {
      FillBit(rule, row, out, i);
      i := i + 1;
    }
    next := out[..];
    StepIsPacked(rule, row);
  }

  lemma StepIsPacked(rule: Rule, row: Row)
    ensures StepRow(rule, row) == Pack(SuccessorBits(rule, row), Cells(row))
  {}

  /** The neighbourhood read and rule lookup in the body of Step's loop. */
  method DecideCell(rule: Rule, row: Row, i: nat) returns (alive: bool)
    requires i < Cells(row)
    ensures alive == SuccessorBits(rule, row)[i]
  {
    var n := Cells(row);
    var l, c, r := false, false, false;
    if Get(row, LeftIndex(n, i)) { l := true; }
    if Get(row, i) { c := true; }
    if Get(row, RightIndex(n, i)) { r := true; }
    alive := Next(rule, l, c, r);
  }

  lemma ByteExtensionality(a: bv8, b: bv8)
    requires forall k: nat :: k < 8 ==> Bit(a, k) == Bit(b, k)
    ensures a == b
  {
    assert Bit(a, 0) == Bit(b, 0) && Bit(a, 1) == Bit(b, 1) && Bit(a, 2) == Bit(b, 2) && Bit(a, 3) == Bit(b, 3);
    assert Bit(a, 4) == Bit(b, 4) && Bit(a, 5) == Bit(b, 5) && Bit(a, 6) == Bit(b, 6) && Bit(a, 7) == Bit(b, 7);
  }

  /** A row is determined by its bits, so IsStep has at most one solution. */
  lemma RowExtensionality(a: Row, b: Row)
    requires |a| == |b|
    requires forall i: nat :: i < Cells(a) ==> Get(a, i) == Get(b, i)
    ensures a == b
  {
    forall j | 0 <= j < |a| ensures a[j] == b[j] {
      forall k: nat | k < 8 ensures Bit(a[j], k) == Bit(b[j], k) {
        var i := 8 * j + k;
        assert i / 8 == j && i % 8 == k;
        assert Get(a, i) == Get(b, i);
      }
      ByteExtensionality(a[j], b[j]);
    }
  }

  lemma StepUnique(rule: Rule, row: Row, next: Row)
    ensures IsStep(rule, row, next) <==> next == StepRow(rule, row)
  {
    if IsStep(rule, row, next) {
      RowExtensionality(next, StepRow(rule, row));
    }
  }

  // ---- which way is left ----------------------------------------------------------

  lemma CopiesRight(l: bool, c: bool, r: bool)
    ensures Next(170, l, c, r) == r
  {
    if l {} else {}
    if c {} else {}
    if r {} else {}
  }

  lemma CopiesLeft(l: bool, c: bool, r: bool)
    ensures Next(240, l, c, r) == l
  {
    if l {} else {}
    if c {} else {}
    if r {} else {}
  }

  /** The cell after i in the row, round the ring, is the one to its left. */
  lemma AfterIsLeft(n: nat, i: nat)
    requires i < n
    ensures var after := if i == n - 1 then 0 else i + 1; LeftIndex(n, i) == after && RightIndex(n, after) == i
  {}

  /** The direction of the ring, and its wrap: a rule that copies the cell to the right moves every cell up
      one place, and one that copies the cell to the left moves it back down. */
  lemma StepShifts(row: Row, i: nat)
    requires i < Cells(row)
    ensures var after := if i == Cells(row) - 1 then 0 else i + 1;
            Get(StepRow(170, row), after) == Get(row, i) && Get(StepRow(240, row), i) == Get(row, after)
  {
    var after := if i == Cells(row) - 1 then 0 else i + 1;
    AfterIsLeft(Cells(row), i);
    ShiftsUp(row, after);
    ShiftsDown(row, i);
  }

  lemma ShiftsUp(row: Row, i: nat)
    requires i < Cells(row)
    ensures Get(StepRow(170, row), i) == Get(row, RightIndex(Cells(row), i))
  {
    assert Get(StepRow(170, row), i) == Successor(170, row, i);
    CopiesRight(Get(row, LeftIndex(Cells(row), i)), Get(row, i), Get(row, RightIndex(Cells(row), i)));
  }

  lemma ShiftsDown(row: Row, i: nat)
    requires i < Cells(row)
    ensures Get(StepRow(240, row), i) == Get(row, LeftIndex(Cells(row), i))
  {
    assert Get(StepRow(240, row), i) == Successor(240, row, i);
    CopiesLeft(Get(row, LeftIndex(Cells(row), i)), Get(row, i), Get(row, RightIndex(Cells(row), i)));
  }

  /** The rule the chain runs, for the eight neighbourhoods. */
  lemma Rule110(l: bool, c: bool, r: bool)
    ensures Next(110, l, c, r) <==> (c || r) && !(l && c && r)
  {
    if l {} else {}
    if c {} else {}
    if r {} else {}
  }

  /** A cell alive with nothing alive beside it lives on and brings the next-higher cell to life, and a
      cell with nothing alive in reach stays dead: from one cell the pattern grows upward, round the ring. */
  lemma Rule110GrowsUpward(row: Row, i: nat, k: nat)
    requires i < Cells(row) && k < Cells(row)
    requires forall j: nat :: j < Cells(row) ==> Get(row, j) == (j == i)
    ensures Get(StepRow(110, row), k) <==> k == i || k == if i == Cells(row) - 1 then 0 else i + 1
  {
    var n := Cells(row);
    AfterIsLeft(n, i);
    AfterIsLeft(n, k);
    assert Get(StepRow(110, row), k) == Successor(110, row, k);
    Rule110(Get(row, LeftIndex(n, k)), Get(row, k), Get(row, RightIndex(n, k)));
  }

  /** The row generation g of a run from seed carries. */
  function RowAt(rule: Rule, seed: Row, g: nat): (row: Row)
    ensures |row| == |seed|
  {
    if g == 0 then seed else StepRow(rule, RowAt(rule, seed, g - 1))
  }
}
