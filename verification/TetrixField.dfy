/** The Tetris field: 20 rows of 10 cells, 0 for empty, and in-place clearing of
    full rows by a two-pointer scan. */
module TetrixField {
  const ROWS := 20
  const COLS := 10

  type Row = seq<int>

  ghost predicate Shaped(f: seq<Row>) {
    |f| == ROWS && Wide(f)
  }

  ghost predicate Wide(f: seq<Row>) {
    forall r | 0 <= r < |f| :: |f[r]| == COLS
  }

  // ----- counting -----

  /** Non-zero cells of a row. */
  function RowFilled(row: Row): (n: nat)
    ensures n <= |row|
  {
    if row == [] then 0 else (if row[0] != 0 then 1 else 0) + RowFilled(row[1..])
  }

  function Filled(f: seq<Row>): nat {
    if f == [] then 0 else RowFilled(f[0]) + Filled(f[1..])
  }

  predicate Full(row: Row) {
    forall c | 0 <= c < |row| :: row[c] != 0
  }

  function FullCount(f: seq<Row>): (n: nat)
    ensures n <= |f|
  {
    if f == [] then 0 else (if Full(f[0]) then 1 else 0) + FullCount(f[1..])
  }

  /** A row is full exactly if its count is its length. */
  lemma {:induction false} FullIsCount(row: Row)
    ensures Full(row) <==> RowFilled(row) == |row|
  {
    if row != [] {
      FullIsCount(row[1..]);
      assert row == [row[0]] + row[1..];
      if Full(row[1..]) && row[0] != 0 {
        assert forall c | 0 < c < |row| :: row[c] == row[1..][c - 1];
      }
    }
  }

  // ----- what clearing means -----

  /** The rows that are not full, in order. */
  function Survivors(f: seq<Row>): (s: seq<Row>)
    ensures |s| + FullCount(f) == |f|
  {
    if f == [] then [] else (if Full(f[0]) then [] else [f[0]]) + Survivors(f[1..])
  }

  function ZeroRow(): (row: Row)
    ensures |row| == COLS && forall c | 0 <= c < COLS :: row[c] == 0
  {
    seq(COLS, _ => 0)
  }

  function ZeroRows(n: nat): (s: seq<Row>)
    ensures |s| == n && forall r | 0 <= r < n :: s[r] == ZeroRow()
  {
    seq(n, _ => ZeroRow())
  }

  /** Empty rows on top of the survivors. */
  function Cleared(f: seq<Row>): (s: seq<Row>)
    ensures |s| == |f|
  {
    ZeroRows(FullCount(f)) + Survivors(f)
  }

  lemma {:induction false} SurvivorsNotFull(f: seq<Row>)
    requires Wide(f)
    ensures Wide(Survivors(f)) && forall r | 0 <= r < |Survivors(f)| :: !Full(Survivors(f)[r])
  {
    if f != [] {
      SurvivorsNotFull(f[1..]);
    }
  }

  lemma {:induction false} NoneFull(f: seq<Row>)
    requires forall r | 0 <= r < |f| :: !Full(f[r])
    ensures FullCount(f) == 0 && Survivors(f) == f
  {
    if f != [] {
      NoneFull(f[1..]);
    }
  }

  lemma ClearedShape(f: seq<Row>)
    requires Wide(f)
    ensures Wide(Cleared(f)) && forall r | 0 <= r < |f| :: !Full(Cleared(f)[r])
  {
    SurvivorsNotFull(f);
    assert ZeroRow()[0] == 0;
  }

  /** A second clearing finds nothing to clear. */
  lemma ClearTwice(f: seq<Row>)
    requires Wide(f)
    ensures FullCount(Cleared(f)) == 0 && Cleared(Cleared(f)) == Cleared(f)
  {
    ClearedShape(f);
    NoneFull(Cleared(f));
    assert ZeroRows(0) == [];
  }

  /** Where a row that stays is found among those that stay. */
  lemma {:induction false} SurvivorAt(f: seq<Row>, r: nat)
    requires r < |f| && !Full(f[r])
    ensures FullCount(f[..r]) <= r && r - FullCount(f[..r]) < |Survivors(f)|
    ensures Survivors(f)[r - FullCount(f[..r])] == f[r]
    decreases r
  {
    if r == 0 {
      assert f[..0] == [];
    } else {
      SurvivorAt(f[1..], r - 1);
      assert f[..r][1..] == f[1..][..r - 1];
    }
  }

  /** A row that is not full comes down by the number of full rows below it, and the
      rows on top are empty, one for each full row. */
  lemma ClearDrops(f: seq<Row>, r: nat)
    requires r < |f|
    ensures r < FullCount(f) ==> Cleared(f)[r] == ZeroRow()
    ensures !Full(f[r]) ==> r + FullCount(f[r + 1..]) < |f| && Cleared(f)[r + FullCount(f[r + 1..])] == f[r]
  {
    hide FullCount, Survivors, Full;
    if !Full(f[r]) {
      SurvivorAt(f, r);
      FullAround(f, r);
    }
  }

  lemma FullAround(f: seq<Row>, r: nat)
    requires r < |f| && !Full(f[r])
    ensures FullCount(f) == FullCount(f[..r]) + FullCount(f[r + 1..])
  {
    hide Full;
    var rest := f[r..];
    assert f == f[..r] + rest && rest[1..] == f[r + 1..] && rest[0] == f[r];
    FilledConcat(f[..r], rest);
  }

  // ----- conservation of cells -----

  lemma {:induction false} FilledConcat(a: seq<Row>, b: seq<Row>)
    ensures Filled(a + b) == Filled(a) + Filled(b)
    ensures FullCount(a + b) == FullCount(a) + FullCount(b)
  {
    if a == [] {
      assert a + b == b;
    } else {
      assert (a + b)[1..] == a[1..] + b;
      FilledConcat(a[1..], b);
    }
  }

  lemma {:induction false} RowZeros(n: nat)
    ensures RowFilled(seq(n, _ => 0)) == 0
  {
    if n > 0 {
      assert seq(n, _ => 0)[1..] == seq(n - 1, _ => 0);
      RowZeros(n - 1);
    }
  }

  lemma {:induction false} FilledZeros(n: nat)
    ensures Filled(ZeroRows(n)) == 0
  {
    if n > 0 {
      RowZeros(COLS);
      assert ZeroRow() == seq(COLS, _ => 0);
      assert ZeroRows(n)[1..] == ZeroRows(n - 1);
      FilledZeros(n - 1);
    }
  }

  lemma {:induction false} FilledSurvivors(f: seq<Row>)
    requires Wide(f)
    ensures Filled(Survivors(f)) + COLS * FullCount(f) == Filled(f)
  {
    if f != [] {
      FilledSurvivors(f[1..]);
      FullIsCount(f[0]);
      if !Full(f[0]) {
        assert ([f[0]] + Survivors(f[1..]))[1..] == Survivors(f[1..]);
      } else {
        assert [] + Survivors(f[1..]) == Survivors(f[1..]);
      }
    }
  }

  /** Each cleared row takes ten cells with it; nothing else is lost. */
  lemma ClearConserves(f: seq<Row>)
    requires Wide(f)
    ensures Filled(Cleared(f)) + COLS * FullCount(f) == Filled(f)
  {
    FilledConcat(ZeroRows(FullCount(f)), Survivors(f));
    FilledZeros(FullCount(f));
    FilledSurvivors(f);
  }

  // ----- one row replaced -----

  function One(b: bool): nat {
    if b then 1 else 0
  }

  lemma {:induction false} ReplaceRow(f: seq<Row>, r: nat, row: Row)
    requires r < |f|
    ensures Filled(f[r := row]) == Filled(f) - RowFilled(f[r]) + RowFilled(row)
    ensures FullCount(f[r := row]) == FullCount(f) - One(Full(f[r])) + One(Full(row))
  {
    if r > 0 {
      assert f[r := row][1..] == f[1..][r - 1 := row];
      ReplaceRow(f[1..], r - 1, row);
    } else {
      assert f[0 := row][1..] == f[1..];
    }
  }

  lemma {:induction false} ReplaceCell(row: Row, c: nat, v: int)
    requires c < |row|
    ensures RowFilled(row[c := v]) == RowFilled(row) - One(row[c] != 0) + One(v != 0)
  {
    if c > 0 {
      assert row[c := v][1..] == row[1..][c - 1 := v];
      ReplaceCell(row[1..], c - 1, v);
    } else {
      assert row[0 := v][1..] == row[1..];
    }
  }

  // ----- the field in memory -----

  ghost predicate Sized(rows: seq<array<int>>) {
    |rows| == ROWS && forall r | 0 <= r < |rows| :: rows[r].Length == COLS
  }

  /** Rows are separate arrays: writing one leaves the others. */
  ghost predicate Apart(rows: seq<array<int>>) {
    Sized(rows) && forall a, b | 0 <= a < b < |rows| :: rows[a] != rows[b]
  }

  ghost function Cells(rows: seq<array<int>>): (f: seq<Row>)
    reads rows
    ensures |f| == |rows| && forall r | 0 <= r < |rows| :: f[r] == rows[r][..]
  {
    seq(|rows|, r requires 0 <= r < |rows| reads rows => rows[r][..])
  }

  method IsFull(row: array<int>) returns (full: bool)
    ensures full == Full(row[..])
  {
    full := true;
    var c := 0;
    while c < row.Length
      invariant 0 <= c <= row.Length && full
      invariant forall k | 0 <= k < c :: row[k] != 0
    {
      if row[c] == 0 {
        assert row[..][c] == 0;
        return false;
      }
      c := c + 1;
    }
  }

  method CopyRow(src: array<int>, dst: array<int>)
    requires src.Length == dst.Length
    modifies dst
    ensures dst[..] == old(src[..])
  {
    var c := 0;
    while c < src.Length
      invariant 0 <= c <= src.Length && src[..] == old(src[..])
      invariant forall k | 0 <= k < c :: dst[k] == src[k]
    {
      dst[c] := src[c];
      c := c + 1;
    }
  }

  method FillZero(dst: array<int>)
    requires dst.Length == COLS
    modifies dst
    ensures dst[..] == ZeroRow()
  {
    var c := 0;
    while c < COLS
      invariant 0 <= c <= COLS
      invariant forall k | 0 <= k < c :: dst[k] == 0
    {
      dst[c] := 0;
      c := c + 1;
    }
  }

  /** Survivors of the rows from `read` on, one more row considered. */
  lemma SurvivorsStep(f: seq<Row>, read: nat)
    requires read < |f|
    ensures Survivors(f[read..]) == (if Full(f[read]) then [] else [f[read]]) + Survivors(f[read + 1..])
    ensures FullCount(f[read..]) == One(Full(f[read])) + FullCount(f[read + 1..])
  {
    assert f[read..][1..] == f[read + 1..];
  }

  /** Writing one row array changes that row of the field only. */
  lemma OneRowWritten(rows: seq<array<int>>, was: seq<Row>, w: nat)
    requires Apart(rows) && |was| == ROWS && w < ROWS
    requires forall r | 0 <= r < ROWS && r != w :: rows[r][..] == was[r]
    ensures Cells(rows) == was[w := rows[w][..]]
  {
  }

  method MoveRow(rows: seq<array<int>>, read: nat, write: nat)
    requires Apart(rows) && read < ROWS && write < ROWS
    modifies rows
    ensures Cells(rows) == old(Cells(rows)[write := Cells(rows)[read]])
  {
    if read != write {
      ghost var was := Cells(rows);
      CopyRow(rows[read], rows[write]);
      OneRowWritten(rows, was, write);
    } else {
      assert Cells(rows)[write := Cells(rows)[write]] == Cells(rows);
    }
  }

  method ZeroAt(rows: seq<array<int>>, i: nat)
    requires Apart(rows) && i < ROWS
    modifies rows
    ensures Cells(rows) == old(Cells(rows))[i := ZeroRow()]
  {
    ghost var was := Cells(rows);
    FillZero(rows[i]);
    OneRowWritten(rows, was, i);
  }

  /** Where the scan is: rows up to `read` untouched, the survivors of the rows
      after it packed below `write`. */
  ghost predicate Packed(was: seq<Row>, now: seq<Row>, read: int, write: int) {
    && |was| == |now| == ROWS && -1 <= read <= write < ROWS
    && write - read == FullCount(was[read + 1..])
    && now[..read + 1] == was[..read + 1]
    && now[write + 1..] == Survivors(was[read + 1..])
  }

  lemma PackedStart(was: seq<Row>)
    requires |was| == ROWS
    ensures Packed(was, was, ROWS - 1, ROWS - 1)
  {
    assert was[ROWS..] == [];
  }

  lemma PackedStep(was: seq<Row>, now: seq<Row>, read: int, write: int)
    requires Packed(was, now, read, write) && read >= 0
    ensures now[read] == was[read]
    ensures Full(was[read]) ==> Packed(was, now, read - 1, write)
    ensures !Full(was[read]) ==> Packed(was, now[write := was[read]], read - 1, write - 1)
  {
    hide Full, Survivors, FullCount;
    SurvivorsStep(was, read);
    assert now[read] == now[..read + 1][read] == was[..read + 1][read];
    assert now[..read] == now[..read + 1][..read] == was[..read + 1][..read] == was[..read];
    var next := now[write := was[read]];
    assert next[write..] == [was[read]] + now[write + 1..];
    assert next[..read] == now[..read];
  }

  lemma PackedEnd(was: seq<Row>, now: seq<Row>, write: int)
    requires Packed(was, now, -1, write)
    ensures write + 1 == FullCount(was) && now[write + 1..] == Survivors(was)
  {
    assert was[0..] == was;
  }

  /** The two-pointer scan: survivors packed at the bottom. */
  method Pack(rows: seq<array<int>>) returns (cleared: nat)
    requires Apart(rows)
    modifies rows
    ensures cleared == FullCount(old(Cells(rows))) <= ROWS
    ensures Cells(rows)[cleared..] == Survivors(old(Cells(rows)))
  {
    hide Full, Cells, Packed;
    ghost var was := Cells(rows);
    var write := ROWS - 1;
    var read := ROWS - 1;
    PackedStart(was);
    while read >= 0
      invariant -1 <= read <= write < ROWS
      invariant Packed(was, Cells(rows), read, write)
      decreases read
    {
      PackedStep(was, Cells(rows), read, write);
      var full := IsFull(rows[read]);
      if !full {
        MoveRow(rows, read, write);
        write := write - 1;
      }
      read := read - 1;
      assert read <= write by { PackedBounds(was, Cells(rows), read, write); }
    }
    PackedEnd(was, Cells(rows), write);
    cleared := write + 1;
  }

  lemma PackedBounds(was: seq<Row>, now: seq<Row>, read: int, write: int)
    requires Packed(was, now, read, write)
    ensures -1 <= read <= write < ROWS
  {
  }

  method ClearRows(rows: seq<array<int>>) returns (cleared: nat)
    requires Apart(rows)
    modifies rows
    ensures Cells(rows) == Cleared(old(Cells(rows)))
    ensures cleared == FullCount(old(Cells(rows)))
  {
    hide Full, Survivors, FullCount, Cells;
    ghost var was := Cells(rows);
    cleared := Pack(rows);
    var i := 0;
    while i < cleared
      invariant 0 <= i <= cleared
      invariant Cells(rows)[..i] == ZeroRows(i)
      invariant Cells(rows)[cleared..] == Survivors(was)
    {
      ghost var now := Cells(rows);
      ZeroAt(rows, i);
      assert Cells(rows)[..i + 1] == now[..i] + [ZeroRow()];
      assert Cells(rows)[cleared..] == now[cleared..];
      i := i + 1;
    }
    assert Cells(rows) == Cells(rows)[..cleared] + Cells(rows)[cleared..];
  }
}
