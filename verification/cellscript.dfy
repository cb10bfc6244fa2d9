/** Cell locking scripts: a compiled code part, OP_RETURN, then the row as state. */
module CellScript {
  import opened Wrappers
  import opened Automaton

  type Script = seq<bv8>

  const OP_RETURN: bv8 := 0x6a

  /** The contract bound for a ring. codes[i] is the code part the compiler produced for cell i,
      and push is the encoding the compiler puts between OP_RETURN and a row of this ring's length. */
  datatype Compiled = Compiled(cells: nat, rule: Rule, codes: seq<Script>, push: Script) {
    predicate Valid() {
      cells > 0 && cells % 8 == 0 && |codes| == cells
    }

    predicate RowFits(row: Row) {
      Cells(row) == cells
    }

    function StateSuffix(row: Row): Script {
      [OP_RETURN] + push + row
    }

    function LockingScript(i: int, row: Row): Option<Script>
      requires Valid()
    {
      if i < 0 || i >= cells || !RowFits(row) then None
      else Some(codes[i] + StateSuffix(row))
    }

    /** No two cells share a code part, so a script can be attributed to one. */
    ghost predicate DistinctCodes() {
      forall i, j :: 0 <= i < j < |codes| ==> codes[i] != codes[j]
    }
  }

  /** What a locking script says it is: which cell it verifies and the row it carries. */
  datatype Binding = Binding(cell: int, row: Row)

  /** The bindings a script decodes to: cell's own script for row, with a code part there to match. */
  ghost predicate Encodes(c: Compiled, b: Binding, s: Script)
    requires c.Valid()
  {
    && c.DistinctCodes()
    && c.LockingScript(b.cell, b.row) == Some(s)
    && c.codes[b.cell] != []
  }

  /** A ring of whole bytes has rows; and a cell's script is its code, OP_RETURN, and at its end the row. */
  lemma ScriptLayout(c: Compiled, i: nat, row: Row)
    requires c.Valid() && i < c.cells
    ensures c.RowFits(seq(c.cells / 8, _ => 0))
    ensures c.LockingScript(i, row).Some? <==> 8 * |row| == c.cells
    ensures c.LockingScript(i, row).Some? ==>
              var s, code := c.LockingScript(i, row).value, c.codes[i];
              && |s| == |code| + 1 + |c.push| + |row| && s[..|code|] == code && s[|code|] == 0x6a
              && s[|code| + 1..|s| - |row|] == c.push && s[|s| - |row|..] == row
  {}

  lemma LockingScriptInjective(c: Compiled, a: Binding, b: Binding)
    requires c.Valid() && c.DistinctCodes()
    requires c.LockingScript(a.cell, a.row).Some?
    requires c.LockingScript(a.cell, a.row) == c.LockingScript(b.cell, b.row)
    ensures a == b
  {
    var s := c.LockingScript(a.cell, a.row).value;
    var tail := 1 + |c.push| + |a.row|;
    assert s[..|s| - tail] == c.codes[a.cell] && s[..|s| - tail] == c.codes[b.cell];
    assert s[|s| - |a.row|..] == a.row && s[|s| - |a.row|..] == b.row;
  }

  ghost function Decoded(c: Compiled, s: Script): (r: Option<Binding>)
    requires c.Valid()
    ensures forall b :: r == Some(b) <==> Encodes(c, b, s)
  {
    if b :| Encodes(c, b, s) then
      assert forall a | Encodes(c, a, s) :: a == b by {
        forall a | Encodes(c, a, s) ensures a == b { LockingScriptInjective(c, a, b); }
      }
      Some(b)
    else None
  }

  ghost predicate IsBindingIndex(c: Compiled, n: nat, index: map<Script, int>)
    requires n <= |c.codes|
  {
    && (forall i :: 0 <= i < n ==> c.codes[i] in index && index[c.codes[i]] == i)
    && (forall code :: code in index ==> 0 <= index[code] < n && c.codes[index[code]] == code)
  }

  /** Maps every cell's code part back to the cell, refusing to build an ambiguous table. */
  method BindingIndex(c: Compiled) returns (r: Option<map<Script, int>>)
    requires c.Valid()
    ensures r.Some? <==> forall i, j :: 0 <= i < |c.codes| && 0 <= j < |c.codes| && c.codes[i] == c.codes[j] ==> i == j
    ensures r.Some? <==> c.DistinctCodes()
    ensures r.Some? ==> IsBindingIndex(c, c.cells, r.value)
  {
    var index: map<Script, int> := map[];
    var cell := 0;
    while cell < c.cells
      invariant 0 <= cell <= c.cells
      invariant IsBindingIndex(c, cell, index)
    {
      var code := c.codes[cell];
      if code in index {
        assert c.codes[index[code]] == c.codes[cell];
        return None;
      }
      index := index[code := cell];
      cell := cell + 1;
    }
    r := Some(index);
  }

  /** Decode recovers the binding a script encodes by splitting it, looking the code part up, and
      rebuilding the whole script: it answers Some exactly for the scripts LockingScript makes. */
  method Decode(c: Compiled, s: Script) returns (r: Option<Binding>)
    requires c.Valid()
    ensures r == Decoded(c, s)
  {
    var found := BindingIndex(c);
    if found.None? { return None; }
    var index := found.value;
    var rowBytes := c.cells / 8;
    var suffix := |c.StateSuffix(seq(rowBytes, _ => 0))|;
    ghost var made := Decoded(c, s);
    if |s| <= suffix { return None; }
    var split := |s| - suffix;
    if made.Some? {
      var b := made.value;
      assert s[..split] == c.codes[b.cell] && s[split] == OP_RETURN && s[|s| - rowBytes..] == b.row;
    }
    if s[split] != OP_RETURN { return None; }
    var row := s[|s| - rowBytes..];
    if s[..split] !in index { return None; }
    var cell := index[s[..split]];
    var want := c.LockingScript(cell, row);
    if want != Some(s) { return None; }
    assert Encodes(c, Binding(cell, row), s);
    r := Some(Binding(cell, row));
  }

  /** Every binding of a ring whose code parts are distinct and non-empty round-trips. */
  lemma DecodeInvertsLockingScript(c: Compiled, i: nat, row: Row)
    requires c.Valid() && c.DistinctCodes() && i < c.cells && c.RowFits(row)
    ensures Decoded(c, c.LockingScript(i, row).value) == Some(Binding(i, row)) <==> c.codes[i] != []
  {
    assert Encodes(c, Binding(i, row), c.LockingScript(i, row).value) <==> c.codes[i] != [];
  }
}
