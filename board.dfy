/**
 * The playfield of the game: its pixel borders, the tile grid that gems,
 * hearts and keys snap to, the already-floored random draws that choose a
 * tile, and the placement search shared by every retry-until-free loop.
 */
module Board {

  const BorderLeft: int := 0
  const BorderRight: int := 707
  const BorderBottom: int := 551
  const WaterlineValue: int := 53

  const ElementWidth: int := 101
  const ElementDy: int := 83

  /** Number of tile columns, and the rows a gem or a heart/key may occupy. */
  const Columns: int := 7
  const GemRows: int := 5
  const ItemRows: int := 7

  /** The top-left pixel of a grid-aligned sprite. */
  datatype Cell = Cell(x: int, y: int)

  function ColumnX(col: int): int { col * ElementWidth }

  function RowY(row: int): int { row * ElementDy - 20 }

  function CellAt(row: int, col: int): Cell { Cell(ColumnX(col), RowY(row)) }

  /** Distinct tiles have distinct pixel positions. */
  lemma CellAtInjective(r1: int, c1: int, r2: int, c2: int)
    ensures CellAt(r1, c1) == CellAt(r2, c2) <==> r1 == r2 && c1 == c2
  {
    if CellAt(r1, c1) == CellAt(r2, c2) {
      assert (c1 - c2) * ElementWidth == 0;
      assert (r1 - r2) * ElementDy == 0;
    }
  }

  /**
   * `Math.floor(Math.random() * 5) + 1` picks an enemy's stone row and
   * `Math.floor(Math.random() * 301) + 100` its speed.
   */
  datatype EnemyDraw = EnemyDraw(row: int, speed: int) {
    predicate Valid() { 1 <= row <= GemRows && 100 <= speed <= 400 }
  }

  /** A gem's sprite variant (0..2), stone row (1..5) and column (0..6). */
  datatype GemDraw = GemDraw(variant: int, row: int, col: int) {
    predicate Valid() { 0 <= variant < 3 && 1 <= row <= GemRows && 0 <= col < Columns }
    function Spot(): Cell { CellAt(row, col) }
  }

  /** A heart's or key's row (1..7) and column (0..6). */
  datatype ItemDraw = ItemDraw(row: int, col: int) {
    predicate Valid() { 1 <= row <= ItemRows && 0 <= col < Columns }
    function Spot(): Cell { CellAt(row, col) }
  }

  /** The column and the row of the tile a grid-aligned cell marks. */
  function ColumnOf(c: Cell): int { c.x / ElementWidth }

  function RowOf(c: Cell): int { (c.y + 20) / ElementDy }

  /** A cell some draw of a gem can produce: a tile of a stone row. */
  ghost predicate OnGemGrid(c: Cell) {
    && 0 <= ColumnOf(c) < Columns && 1 <= RowOf(c) <= GemRows
    && c == CellAt(RowOf(c), ColumnOf(c))
  }

  /** A cell some draw of a heart or key can produce: a tile of any row below the water. */
  ghost predicate OnItemGrid(c: Cell) {
    && 0 <= ColumnOf(c) < Columns && 1 <= RowOf(c) <= ItemRows
    && c == CellAt(RowOf(c), ColumnOf(c))
  }

  /** A tile decodes to its own row and column. */
  lemma CellAtDecodes(row: int, col: int)
    ensures RowOf(CellAt(row, col)) == row && ColumnOf(CellAt(row, col)) == col
  {
    assert CellAt(row, col).y + 20 == row * ElementDy;
  }

  /** A draw within its ranges lands on the grid it is drawn for. */
  lemma GemDrawOnGrid(d: GemDraw)
    requires d.Valid()
    ensures OnGemGrid(d.Spot())
  {
    CellAtDecodes(d.row, d.col);
  }

  lemma ItemDrawOnGrid(d: ItemDraw)
    requires d.Valid()
    ensures OnItemGrid(d.Spot())
  {
    CellAtDecodes(d.row, d.col);
  }

  /** No cell appears twice. */
  ghost predicate Distinct(cs: seq<Cell>) {
    forall i, j :: 0 <= i < j < |cs| ==> cs[i] != cs[j]
  }

  /** The cells but the one at index i. */
  function Without(cs: seq<Cell>, i: nat): seq<Cell>
    requires i < |cs|
  {
    if i == 0 then cs[1..] else [cs[0]] + Without(cs[1..], i - 1)
  }

  /** A cell is left after removing index i exactly when it stands at some other index. */
  lemma {:induction false} InWithout(cs: seq<Cell>, i: nat, c: Cell)
    requires i < |cs|
    ensures c in Without(cs, i) <==> exists j :: 0 <= j < |cs| && j != i && cs[j] == c
  {
    if i == 0 {
      if c in cs[1..] {
        var k :| 0 <= k < |cs| - 1 && cs[1..][k] == c;
        assert cs[k + 1] == c;
      }
      if exists j :: 0 <= j < |cs| && j != i && cs[j] == c {
        var j :| 0 <= j < |cs| && j != i && cs[j] == c;
        assert cs[1..][j - 1] == c;
      }
    } else {
      InWithout(cs[1..], i - 1, c);
      if exists j :: 0 <= j < |cs| && j != i && cs[j] == c {
        var j :| 0 <= j < |cs| && j != i && cs[j] == c;
        if j > 0 {
          assert cs[1..][j - 1] == c;
        }
      }
      if exists j :: 0 <= j < |cs| - 1 && j != i - 1 && cs[1..][j] == c {
        var j :| 0 <= j < |cs| - 1 && j != i - 1 && cs[1..][j] == c;
        assert cs[j + 1] == c;
      }
    }
  }

  /** Whatever stands at index i, removing that index leaves the same cells. */
  lemma {:induction false} WithoutUpdate(cs: seq<Cell>, i: nat, c: Cell)
    requires i < |cs|
    ensures Without(cs[i := c], i) == Without(cs, i)
  {
    if i == 0 {
      assert cs[i := c][1..] == cs[1..];
    } else {
      assert cs[i := c][1..] == cs[1..][i - 1 := c];
      WithoutUpdate(cs[1..], i - 1, c);
    }
  }

  /** A cell found at no other index can take index i without making two cells equal. */
  lemma DistinctUpdate(cs: seq<Cell>, i: nat, c: Cell)
    requires i < |cs| && Distinct(cs) && c !in Without(cs, i)
    ensures Distinct(cs[i := c])
  {
    InWithout(cs, i, c);
  }

  /**
   * Index i takes a cell that no other index and none of the extra cells
   * hs and ks hold: the cells still avoid the extra cells, and distinct
   * cells stay distinct.
   */
  lemma {:induction false} MovedApart(cs: seq<Cell>, i: nat, c: Cell, hs: seq<Cell>, ks: seq<Cell>)
    requires i < |cs| && (forall x <- hs :: x !in cs) && (forall x <- ks :: x !in cs)
    requires c !in Without(cs, i) + hs + ks
    ensures Distinct(cs) ==> Distinct(cs[i := c])
    ensures (forall x <- hs :: x !in cs[i := c]) && (forall x <- ks :: x !in cs[i := c])
  {
    if Distinct(cs) {
      DistinctUpdate(cs, i, c);
    }
    var moved := cs[i := c];
    forall x | x in hs + ks
      ensures x !in moved
    {
      assert x != c && x !in cs;
      forall j | 0 <= j < |moved|
        ensures moved[j] != x
      {
        if j != i {
          assert moved[j] == cs[j] && cs[j] in cs;
        }
      }
    }
  }

  function GemSpots(ds: seq<GemDraw>): (cs: seq<Cell>)
    ensures |cs| == |ds| && forall k :: 0 <= k < |ds| ==> cs[k] == ds[k].Spot()
  {
    seq(|ds|, k requires 0 <= k < |ds| => ds[k].Spot())
  }

  function ItemSpots(ds: seq<ItemDraw>): (cs: seq<Cell>)
    ensures |cs| == |ds| && forall k :: 0 <= k < |ds| ==> cs[k] == ds[k].Spot()
  {
    seq(|ds|, k requires 0 <= k < |ds| => ds[k].Spot())
  }

  /**
   * The placement search of every retry loop: the index of the first
   * candidate that coincides with no occupied cell, or |candidates| when
   * every candidate is taken (the loop would then still be retrying).
   */
  function FirstFree(candidates: seq<Cell>, occupied: seq<Cell>): (k: nat)
    ensures k <= |candidates|
  {
    if candidates == [] then 0
    else if candidates[0] !in occupied then 0
    else 1 + FirstFree(candidates[1..], occupied)
  }

  /** Every candidate before the first free one is occupied, and the first free one is not. */
  lemma {:induction false} FirstFreeIsFirst(candidates: seq<Cell>, occupied: seq<Cell>)
    ensures forall j :: 0 <= j < FirstFree(candidates, occupied) ==> candidates[j] in occupied
    ensures FirstFree(candidates, occupied) < |candidates| ==> candidates[FirstFree(candidates, occupied)] !in occupied
  {
    if candidates != [] && candidates[0] in occupied {
      FirstFreeIsFirst(candidates[1..], occupied);
      forall j | 0 < j < FirstFree(candidates, occupied)
        ensures candidates[j] in occupied
      {
        assert candidates[1..][j - 1] == candidates[j];
      }
    }
  }

  /** An occupied candidate at or before the first free one puts the first free one after it. */
  lemma {:induction false} FirstFreePast(candidates: seq<Cell>, occupied: seq<Cell>, u: nat)
    requires u < |candidates| && u <= FirstFree(candidates, occupied) && candidates[u] in occupied
    ensures u < FirstFree(candidates, occupied)
  {
    if u > 0 {
      FirstFreePast(candidates[1..], occupied, u - 1);
    }
  }

  /** A free candidate at or before the first free one is the first free one. */
  lemma {:induction false} FirstFreeAt(candidates: seq<Cell>, occupied: seq<Cell>, u: nat)
    requires u < |candidates| && u <= FirstFree(candidates, occupied) && candidates[u] !in occupied
    ensures FirstFree(candidates, occupied) == u
  {
    if u > 0 {
      FirstFreeAt(candidates[1..], occupied, u - 1);
    }
  }

  /**
   * Where a retry loop stands after trying `used` candidates: still
   * retrying only while every candidate so far was occupied, stopped right
   * after the first free one.
   */
  ghost predicate Searched(candidates: seq<Cell>, occupied: seq<Cell>, used: nat, retry: bool)
  {
    && used <= |candidates|
    && (retry ==> used <= FirstFree(candidates, occupied))
    && (!retry ==> 0 < used && FirstFree(candidates, occupied) == used - 1)
  }

  /** Trying the next candidate keeps the loop on the search: it retries exactly when that candidate is occupied. */
  lemma SearchStep(candidates: seq<Cell>, occupied: seq<Cell>, used: nat, retry: bool)
    requires Searched(candidates, occupied, used, true) && used < |candidates|
    requires retry == (candidates[used] in occupied)
    ensures Searched(candidates, occupied, used + 1, retry)
  {
    if retry {
      FirstFreePast(candidates, occupied, used);
    } else {
      FirstFreeAt(candidates, occupied, used);
    }
  }

  /** A loop that stopped has used exactly the candidates up to the first free one, or all of them when none is free. */
  lemma SearchDone(candidates: seq<Cell>, occupied: seq<Cell>, used: nat, retry: bool)
    requires Searched(candidates, occupied, used, retry) && !(retry && used < |candidates|)
    ensures var k := FirstFree(candidates, occupied);
      && !retry == (k < |candidates|)
      && used == (if retry then |candidates| else k + 1)
      && (!retry ==> candidates[used - 1] !in occupied)
  {
    FirstFreeIsFirst(candidates, occupied);
  }
}
