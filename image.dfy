/** The dot image as `BitmapMatrix` holds it, `grid[x][y]` the dot in column
    x, row y, and the whole-image edits of the driver. */
module Image {
  import opened Geometry

  /** A column of the image, row 0 first. */
  type Column = s: seq<bool> | |s| == YSize witness seq(YSize, _ => false)

  /** A whole image: one column per x. */
  predicate IsImage(grid: seq<Column>)
  {
    |grid| == XSize
  }

  /** Eight dots off. */
  const Dark8: seq<bool> := [false, false, false, false, false, false, false, false]

  /** A column with no dot on. */
  const DarkColumn: Column := Dark8 + Dark8

  /** The image with every dot off. */
  const Blank: seq<Column> := seq(XSize, _ => DarkColumn)

  /** A column with every dot on. */
  const LitColumn: Column := seq(YSize, _ => true)

  /** The image with every dot on. */
  const AllLit: seq<Column> := seq(XSize, _ => LitColumn)

  /** `grid` with the dot at (x, y) set to `on`, every other dot kept. */
  function WithDot(grid: seq<Column>, x: nat, y: nat, on: bool): (g: seq<Column>)
    requires IsImage(grid) && x < XSize && y < YSize
    ensures IsImage(g)
    ensures g[x][y] == on
    ensures forall x', y' :: 0 <= x' < XSize && 0 <= y' < YSize && (x', y') != (x, y) ==> g[x'][y'] == grid[x'][y']
  {
    grid[x := grid[x][y := on]]
  }

  /** `grid` with every dot flipped. */
  function Inverted(grid: seq<Column>): (g: seq<Column>)
    requires IsImage(grid)
    ensures IsImage(g)
  {
    seq(XSize, x requires 0 <= x < XSize => seq(YSize, y requires 0 <= y < YSize => !grid[x][y]))
  }

  /** Two images with the same dots are the same image. */
  lemma ImageExt(g: seq<Column>, h: seq<Column>)
    requires IsImage(g) && IsImage(h)
    requires forall x, y :: 0 <= x < XSize && 0 <= y < YSize ==> g[x][y] == h[x][y]
    ensures g == h
  {
    forall x | 0 <= x < XSize ensures g[x] == h[x] {
      assert forall y :: 0 <= y < YSize ==> g[x][y] == h[x][y];
    }
  }

  /** Inverting flips every dot and nothing else. */
  lemma InvertedDots(grid: seq<Column>)
    requires IsImage(grid)
    ensures forall x, y :: 0 <= x < XSize && 0 <= y < YSize ==> Inverted(grid)[x][y] == !grid[x][y]
  {
  }

  /** Inverting twice gives the original image back. */
  lemma InvertTwice(grid: seq<Column>)
    requires IsImage(grid)
    ensures Inverted(Inverted(grid)) == grid
  {
    InvertedDots(grid);
    InvertedDots(Inverted(grid));
    ImageExt(Inverted(Inverted(grid)), grid);
  }

  /** Setting a dot and reading it back: the dot has the new value, and
      setting it again to its old value restores the image. */
  lemma WithDotRestores(grid: seq<Column>, x: nat, y: nat, on: bool)
    requires IsImage(grid) && x < XSize && y < YSize
    ensures WithDot(WithDot(grid, x, y, on), x, y, grid[x][y]) == grid
  {
    ImageExt(WithDot(WithDot(grid, x, y, on), x, y, grid[x][y]), grid);
  }
}
