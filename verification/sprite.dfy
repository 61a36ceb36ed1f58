/**
  The DXYN sprite drawing of `Emu::exec`.  `DrawRows`/`DrawRow` follow the
  code's nested loop over rows and columns, toggling one screen cell per set
  sprite bit and accumulating the collision flag.  `Covered` is the
  independent, closed-form description of which cells the sprite touches;
  the contracts of the loop functions prove that the loop toggles exactly
  the covered cells and reports a collision exactly when one of them was on.
 */
module Sprite {
  import opened Machine
  import Bits

  /** Width of a sprite row in pixels. */
  const SpriteW: nat := 8

  /** Bit `j` of a sprite row, counted from the most significant (leftmost) pixel. */
  function SpriteBit(row: Byte, j: nat): bool
    requires j < SpriteW
  {
    Bits.Bit(row, SpriteW - 1 - j)
  }

  /**
    Screen column and row of sprite pixel (i, j).  The coordinate sums are u8
    additions; as in a release build they wrap modulo 256 before being
    reduced modulo the screen size.
   */
  function Column(vx: Byte, j: nat): nat { ((vx + j) % 0x100) % ScreenW }
  function Line(vy: Byte, i: nat): nat { ((vy + i) % 0x100) % ScreenH }

  /** Row-major cell index of sprite pixel (i, j) drawn at (vx, vy). */
  function CellOf(vx: Byte, vy: Byte, i: nat, j: nat): nat {
    Column(vx, j) + Line(vy, i) * ScreenW
  }

  /** The sprite column and row that would land on cell `c`: the inverse of `CellOf`. */
  function ColOffset(vx: Byte, c: nat): nat { (c % ScreenW - vx) % ScreenW }
  function RowOffset(vy: Byte, c: nat): nat { (c / ScreenW - vy) % ScreenH }

  /** Because 64 and 32 divide 256, the wrapped coordinates are plain toroidal ones. */
  lemma WrapIsToroidal(vx: Byte, vy: Byte, i: nat, j: nat)
    ensures Column(vx, j) == (vx + j) % 64
    ensures Line(vy, i) == (vy + i) % 32
  {
    var a, b := vx + j, vy + i;
    assert a == 0x100 * (a / 0x100) + a % 0x100;
    Shift64(a % 0x100, 4 * (a / 0x100));
    assert b == 0x100 * (b / 0x100) + b % 0x100;
    Shift32(b % 0x100, 8 * (b / 0x100));
  }

  /** Adding a multiple of the modulus does not change a remainder. */
  lemma Shift64(r: int, t: int)
    ensures (64 * t + r) % 64 == r % 64
  {
  }

  lemma Shift32(r: int, t: int)
    ensures (32 * t + r) % 32 == r % 32
  {
  }

  /** A pixel position on the screen and its offset within the sprite determine each other. */
  lemma CellOffsets(vx: Byte, vy: Byte, i: nat, j: nat)
    requires i < 32 && j < 64
    ensures CellOf(vx, vy, i, j) < ScreenSize
    ensures ColOffset(vx, CellOf(vx, vy, i, j)) == j
    ensures RowOffset(vy, CellOf(vx, vy, i, j)) == i
  {
    WrapIsToroidal(vx, vy, i, j);
    var col, line := (vx + j) % 64, (vy + i) % 32;
    var c := col + line * 64;
    assert c % 64 == col && c / 64 == line;
    assert (col - vx) % 64 == j by {
      Shift64(j, -((vx + j) / 64));
    }
    assert (line - vy) % 32 == i by {
      Shift32(i, -((vy + i) / 32));
    }
  }

  lemma OffsetsCell(vx: Byte, vy: Byte, c: nat)
    requires c < ScreenSize
    ensures ColOffset(vx, c) < 64 && RowOffset(vy, c) < 32
    ensures CellOf(vx, vy, RowOffset(vy, c), ColOffset(vx, c)) == c
  {
    var j, i := ColOffset(vx, c), RowOffset(vy, c);
    WrapIsToroidal(vx, vy, i, j);
    ColumnInverse(vx, c % 64);
    LineInverse(vy, c / 64);
  }

  /** Undoing the horizontal offset lands back on column `col`. */
  lemma ColumnInverse(vx: Byte, col: nat)
    requires col < 64
    ensures (vx + (col - vx) % 64) % 64 == col
  {
    var q := (col - vx) / 64;
    assert col - vx == 64 * q + (col - vx) % 64;
    Shift64(col, -q);
  }

  /** Undoing the vertical offset lands back on line `line`. */
  lemma LineInverse(vy: Byte, line: nat)
    requires line < 32
    ensures (vy + (line - vy) % 32) % 32 == line
  {
    var p := (line - vy) / 32;
    assert line - vy == 32 * p + (line - vy) % 32;
    Shift32(line, -p);
  }

  /** Cell `c` is touched by a set bit of row `i` at a column at or after `j`. */
  predicate RowHit(vx: Byte, vy: Byte, i: nat, bits: Byte, j: nat, c: nat) {
    && RowOffset(vy, c) == i
    && j <= ColOffset(vx, c) < SpriteW
    && SpriteBit(bits, ColOffset(vx, c))
  }

  /** Cell `c` is touched by a set bit of one of the rows from `i` on. */
  predicate RowsHit(vx: Byte, vy: Byte, rows: seq<Byte>, i: nat, c: nat) {
    && i <= RowOffset(vy, c) < |rows|
    && ColOffset(vx, c) < SpriteW
    && SpriteBit(rows[RowOffset(vy, c)], ColOffset(vx, c))
  }

  /** Cell `c` is one the sprite `rows` drawn at (vx, vy) toggles. */
  predicate Covered(vx: Byte, vy: Byte, rows: seq<Byte>, c: nat) {
    RowsHit(vx, vy, rows, 0, c)
  }

  /** Some cell satisfying `RowHit` is on. */
  predicate RowCollides(screen: seq<bool>, vx: Byte, vy: Byte, i: nat, bits: Byte, j: nat) {
    exists c :: 0 <= c < |screen| && RowHit(vx, vy, i, bits, j, c) && screen[c]
  }

  /** Some cell satisfying `RowsHit` is on. */
  predicate RowsCollide(screen: seq<bool>, vx: Byte, vy: Byte, rows: seq<Byte>, i: nat) {
    exists c :: 0 <= c < |screen| && RowsHit(vx, vy, rows, i, c) && screen[c]
  }

  /** The inner loop: columns `j` to 7 of sprite row `i`. */
  function DrawRow(screen: seq<bool>, flipped: bool, vx: Byte, vy: Byte, i: nat, bits: Byte, j: nat): (r: (seq<bool>, bool))
    requires |screen| == ScreenSize && i < 32 && j <= SpriteW
    ensures |r.0| == ScreenSize
    ensures forall c :: 0 <= c < ScreenSize ==> r.0[c] == (screen[c] != RowHit(vx, vy, i, bits, j, c))
    ensures r.1 == (flipped || RowCollides(screen, vx, vy, i, bits, j))
    decreases SpriteW - j
  {
    if j == SpriteW then
      (screen, flipped)
    else if SpriteBit(bits, j) then
      var idx := CellOf(vx, vy, i, j);
      CellOffsets(vx, vy, i, j);
      var toggled := screen[idx := !screen[idx]];
      var r := DrawRow(toggled, flipped || screen[idx], vx, vy, i, bits, j + 1);
      DrawRowToggle(screen, vx, vy, i, bits, j);
      r
    else
      DrawRowSkip(screen, vx, vy, i, bits, j);
      DrawRow(screen, flipped, vx, vy, i, bits, j + 1)
  }

  /** A clear sprite bit touches nothing. */
  lemma DrawRowSkip(screen: seq<bool>, vx: Byte, vy: Byte, i: nat, bits: Byte, j: nat)
    requires |screen| == ScreenSize && i < 32 && j < SpriteW && !SpriteBit(bits, j)
    ensures forall c :: RowHit(vx, vy, i, bits, j, c) == RowHit(vx, vy, i, bits, j + 1, c)
    ensures RowCollides(screen, vx, vy, i, bits, j) == RowCollides(screen, vx, vy, i, bits, j + 1)
  {
  }

  /** A set sprite bit touches exactly its own cell, which no later column of the row touches. */
  lemma DrawRowToggle(screen: seq<bool>, vx: Byte, vy: Byte, i: nat, bits: Byte, j: nat)
    requires |screen| == ScreenSize && i < 32 && j < SpriteW && SpriteBit(bits, j)
    ensures CellOf(vx, vy, i, j) < ScreenSize
    ensures var idx := CellOf(vx, vy, i, j);
      && !RowHit(vx, vy, i, bits, j + 1, idx)
      && RowHit(vx, vy, i, bits, j, idx)
      && (forall c :: 0 <= c < ScreenSize && c != idx ==>
            RowHit(vx, vy, i, bits, j, c) == RowHit(vx, vy, i, bits, j + 1, c))
      && (RowCollides(screen, vx, vy, i, bits, j) ==
            (screen[idx] || RowCollides(screen[idx := !screen[idx]], vx, vy, i, bits, j + 1)))
  {
    var idx := CellOf(vx, vy, i, j);
    CellOffsets(vx, vy, i, j);
    forall c | 0 <= c < ScreenSize && c != idx
      ensures RowHit(vx, vy, i, bits, j, c) == RowHit(vx, vy, i, bits, j + 1, c)
    {
      OffsetsCell(vx, vy, c);
    }
    var toggled := screen[idx := !screen[idx]];
    if RowCollides(screen, vx, vy, i, bits, j) && !screen[idx] {
      var c :| 0 <= c < |screen| && RowHit(vx, vy, i, bits, j, c) && screen[c];
      assert toggled[c];
    }
    if RowCollides(toggled, vx, vy, i, bits, j + 1) {
      var c :| 0 <= c < |toggled| && RowHit(vx, vy, i, bits, j + 1, c) && toggled[c];
      assert screen[c];
    }
  }

  /** The outer loop: sprite rows `i` onwards. */
  function DrawRows(screen: seq<bool>, flipped: bool, vx: Byte, vy: Byte, rows: seq<Byte>, i: nat): (r: (seq<bool>, bool))
    requires |screen| == ScreenSize && |rows| <= 32 && i <= |rows|
    ensures |r.0| == ScreenSize
    ensures forall c :: 0 <= c < ScreenSize ==> r.0[c] == (screen[c] != RowsHit(vx, vy, rows, i, c))
    ensures r.1 == (flipped || RowsCollide(screen, vx, vy, rows, i))
    decreases |rows| - i
  {
    if i == |rows| then
      (screen, flipped)
    else
      var row := DrawRow(screen, flipped, vx, vy, i, rows[i], 0);
      DrawRowsSplit(screen, row.0, vx, vy, rows, i);
      DrawRows(row.0, row.1, vx, vy, rows, i + 1)
  }

  /** The cells of rows `i..` are those of row `i` and, disjointly, those of rows `i+1..`. */
  lemma DrawRowsSplit(screen: seq<bool>, after: seq<bool>, vx: Byte, vy: Byte, rows: seq<Byte>, i: nat)
    requires |screen| == ScreenSize && |after| == ScreenSize && |rows| <= 32 && i < |rows|
    requires forall c :: 0 <= c < ScreenSize ==> after[c] == (screen[c] != RowHit(vx, vy, i, rows[i], 0, c))
    ensures forall c :: RowsHit(vx, vy, rows, i, c) == (RowHit(vx, vy, i, rows[i], 0, c) || RowsHit(vx, vy, rows, i + 1, c))
    ensures forall c :: !(RowHit(vx, vy, i, rows[i], 0, c) && RowsHit(vx, vy, rows, i + 1, c))
    ensures RowsCollide(screen, vx, vy, rows, i) ==
      (RowCollides(screen, vx, vy, i, rows[i], 0) || RowsCollide(after, vx, vy, rows, i + 1))
  {
    if RowsCollide(screen, vx, vy, rows, i) {
      var c :| 0 <= c < |screen| && RowsHit(vx, vy, rows, i, c) && screen[c];
      if RowOffset(vy, c) == i {
        assert RowHit(vx, vy, i, rows[i], 0, c);
      } else {
        assert after[c];
      }
    }
    if RowCollides(screen, vx, vy, i, rows[i], 0) {
      var c :| 0 <= c < |screen| && RowHit(vx, vy, i, rows[i], 0, c) && screen[c];
      assert RowsHit(vx, vy, rows, i, c);
    }
    if RowsCollide(after, vx, vy, rows, i + 1) {
      var c :| 0 <= c < |after| && RowsHit(vx, vy, rows, i + 1, c) && after[c];
      assert screen[c];
    }
  }

  /**
    Drawing the sprite `rows` at (vx, vy): the resulting screen and the
    collision flag that DXYN stores in VF.  Exactly the covered cells change,
    and the flag is set exactly when one of them was on beforehand.
   */
  function Draw(screen: seq<bool>, vx: Byte, vy: Byte, rows: seq<Byte>): (r: (seq<bool>, bool))
    requires |screen| == ScreenSize && |rows| <= 32
    ensures |r.0| == ScreenSize
    ensures forall c :: 0 <= c < ScreenSize ==> r.0[c] == (screen[c] != Covered(vx, vy, rows, c))
    ensures r.1 <==> exists c :: 0 <= c < ScreenSize && Covered(vx, vy, rows, c) && screen[c]
  {
    DrawRows(screen, false, vx, vy, rows, 0)
  }

  /**
    The covered cells are exactly the toroidally wrapped positions
    ((vx + j) mod 64, (vy + i) mod 32) of the set sprite bits.
   */
  lemma CoveredCells(vx: Byte, vy: Byte, rows: seq<Byte>)
    requires |rows| <= 32
    ensures forall i, j :: 0 <= i < |rows| && 0 <= j < SpriteW ==>
      CellOf(vx, vy, i, j) < ScreenSize &&
      (Covered(vx, vy, rows, CellOf(vx, vy, i, j)) <==> SpriteBit(rows[i], j))
    ensures forall c :: 0 <= c < ScreenSize && Covered(vx, vy, rows, c) ==>
      c == CellOf(vx, vy, RowOffset(vy, c), ColOffset(vx, c))
  {
    forall i, j | 0 <= i < |rows| && 0 <= j < SpriteW
      ensures CellOf(vx, vy, i, j) < ScreenSize &&
        (Covered(vx, vy, rows, CellOf(vx, vy, i, j)) <==> SpriteBit(rows[i], j))
    {
      CellOffsets(vx, vy, i, j);
    }
    forall c | 0 <= c < ScreenSize && Covered(vx, vy, rows, c)
      ensures c == CellOf(vx, vy, RowOffset(vy, c), ColOffset(vx, c))
    {
      OffsetsCell(vx, vy, c);
    }
  }

  /** XOR drawing is an involution: the same sprite drawn twice at the same place erases itself. */
  lemma DrawTwiceRestores(screen: seq<bool>, vx: Byte, vy: Byte, rows: seq<Byte>)
    requires |screen| == ScreenSize && |rows| <= 32
    ensures Draw(Draw(screen, vx, vy, rows).0, vx, vy, rows).0 == screen
  {
    var once := Draw(screen, vx, vy, rows).0;
    var twice := Draw(once, vx, vy, rows).0;
    assert forall c :: 0 <= c < ScreenSize ==> twice[c] == screen[c];
  }

  /**
    On a blank screen the first draw reports no collision and the second
    reports one exactly when the sprite has a set bit.
   */
  lemma DrawTwiceOnBlank(vx: Byte, vy: Byte, rows: seq<Byte>)
    requires |rows| <= 32
    ensures var blank := seq(ScreenSize, _ => false);
      var first := Draw(blank, vx, vy, rows);
      && !first.1
      && (Draw(first.0, vx, vy, rows).1 <==>
            exists i, j :: 0 <= i < |rows| && 0 <= j < SpriteW && SpriteBit(rows[i], j))
  {
    var blank := seq(ScreenSize, _ => false);
    var first := Draw(blank, vx, vy, rows);
    assert !first.1;
    if Draw(first.0, vx, vy, rows).1 {
      var c :| 0 <= c < ScreenSize && Covered(vx, vy, rows, c) && first.0[c];
      var i, j := RowOffset(vy, c), ColOffset(vx, c);
      assert SpriteBit(rows[i], j);
    }
    if exists i, j :: 0 <= i < |rows| && 0 <= j < SpriteW && SpriteBit(rows[i], j) {
      var i, j :| 0 <= i < |rows| && 0 <= j < SpriteW && SpriteBit(rows[i], j);
      CellOffsets(vx, vy, i, j);
      var c := CellOf(vx, vy, i, j);
      assert Covered(vx, vy, rows, c);
      assert first.0[c];
    }
  }
}
