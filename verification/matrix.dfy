/**
 * The sparse grid of cells the OLAP input step fills from a query result:
 * cells stored under their (x, y) coordinates, with a width and a height
 * fixed when the grid is made, and a header/data offset. A cell is a value
 * of the type parameter `Cell`.
 */
module OlapMatrix {
  import opened JavaLang

  class Matrix<Cell> {
    var cells: map<(int, int), Cell>
    var width: int
    var height: int
    var offset: int

    /** Every stored cell lies inside the grid: true of a new grid, and kept by `Set`. */
    ghost predicate Valid()
      reads this
    {
      forall p :: p in cells ==> InBounds(p.0, p.1)
    }

    /** An empty grid of width and height 0. */
    constructor ()
      ensures cells == map[] && width == 0 && height == 0 && offset == 0
      ensures Valid() && forall x, y :: Get(x, y).None?
    {
      cells := map[];
      width := 0;
      height := 0;
      offset := 0;
    }

    /** An empty grid of the given width and height. */
    constructor Sized(width: int, height: int)
      ensures cells == map[] && this.width == width && this.height == height && offset == 0
      ensures Valid() && forall x, y :: Get(x, y).None?
    {
      cells := map[];
      this.width := width;
      this.height := height;
      offset := 0;
    }

    /** Whether (x, y) lies inside the grid, which `set` asserts. */
    predicate InBounds(x: int, y: int)
      reads this
    {
      0 <= x < width && 0 <= y < height
    }

    /** `get`: the cell stored at (x, y), or null. */
    function Get(x: int, y: int): (c: Option<Cell>)
      reads this
      ensures c.Some? <==> (x, y) in cells
      ensures c.Some? ==> c.value == cells[(x, y)]
    {
      if (x, y) in cells then Some(cells[(x, y)]) else None
    }

    /**
     * `set` (both overloads): store `cell` at (x, y), replacing what was
     * there; every other coordinate keeps its cell, and the size does not
     * change. The bounds are checked only by Java assertions, after the
     * cell is stored, so an out-of-range cell is stored too; the grid stays
     * `Valid` when the coordinates are in range.
     */
    method Set(x: int, y: int, cell: Cell)
      modifies this`cells
      ensures Get(x, y) == Some(cell)
      ensures forall x', y' :: (x', y') != (x, y) ==> Get(x', y') == old(Get(x', y'))
      ensures cells == old(cells)[(x, y) := cell]
      ensures old(Valid()) && InBounds(x, y) ==> Valid()
      ensures !InBounds(x, y) ==> !Valid()
    {
      cells := cells[(x, y) := cell];
    }

    /** `getMatrixWidth`: the width; in a valid grid every stored column lies below it. */
    function MatrixWidth(): (w: int)
      reads this
      ensures Valid() ==> forall p :: p in cells ==> 0 <= p.0 < w
    {
      width
    }

    /** `getMatrixHeight`: the height; in a valid grid every stored row lies below it. */
    function MatrixHeight(): (h: int)
      reads this
      ensures Valid() ==> forall p :: p in cells ==> 0 <= p.1 < h
    {
      height
    }

    method SetOffset(offset: int)
      modifies this`offset
      ensures GetOffset() == offset
    {
      this.offset := offset;
    }

    /** `getOffset`: the header/data offset last stored. */
    function GetOffset(): (o: int)
      reads this
      ensures o == offset
    {
      offset
    }
  }
}
