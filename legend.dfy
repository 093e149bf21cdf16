/**
 Placement of legend items in the vector legend: item `i` sits at
 `(i * xStep + padding.left, i * yStep + padding.top)`, where only a row
 advances along x and only a column along y.
 */
module Legend {

  /** The directions the legend knows. */
  datatype Direction = Row | Column | LeftToRight | RightToLeft | TopToBottom | BottomToTop

  /** The padding after normalisation to four sides. */
  datatype Padding = Padding(top: int, right: int, bottom: int, left: int)

  /** What an item is drawn with: its datum, its position and its size. */
  datatype Item<D> = Item(datum: D, x: int, y: int, width: int, height: int)

  /** `xStep` and `yStep`: both 0, then set by direction. */
  function Steps(direction: Direction, itemWidth: int, itemHeight: int, itemsSpacing: int): (r: (int, int))
    ensures direction == Row ==> r.0 == itemWidth + itemsSpacing
    ensures direction == Column ==> r.1 == itemHeight + itemsSpacing
    ensures direction != Row ==> r.0 == 0
    ensures direction != Column ==> r.1 == 0
  {
    if direction == Row then (itemWidth + itemsSpacing, 0)
    else if direction == Column then (0, itemHeight + itemsSpacing)
    else (0, 0)
  }

  /** `data.map((data, i) => <LegendSvgItem ... />)`: one item per datum, in order. */
  function LayoutItems<D>(data: seq<D>, direction: Direction, itemWidth: int, itemHeight: int,
                          itemsSpacing: int, padding: Padding): (r: seq<Item<D>>)
    ensures |r| == |data|
    ensures forall i :: 0 <= i < |r| ==> r[i].datum == data[i] && r[i].width == itemWidth && r[i].height == itemHeight
  {
    var (xStep, yStep) := Steps(direction, itemWidth, itemHeight, itemsSpacing);
    seq(|data|, i requires 0 <= i < |data| =>
      Item(data[i], i * xStep + padding.left, i * yStep + padding.top, itemWidth, itemHeight))
  }

  /** Positions placed one step after the other, from a starting point. */
  function Walk(x: int, y: int, dx: int, dy: int, n: nat): (w: seq<(int, int)>)
    ensures |w| == n
    decreases n
  {
    if n == 0 then [] else [(x, y)] + Walk(x + dx, y + dy, dx, dy, n - 1)
  }

  lemma {:induction false} WalkAt(x: int, y: int, dx: int, dy: int, n: nat, k: nat)
    requires k < n
    ensures Walk(x, y, dx, dy, n)[k] == (x + k * dx, y + k * dy)
    decreases n
  {
    if k > 0 {
      WalkAt(x + dx, y + dy, dx, dy, n - 1, k - 1);
      assert (k - 1) * dx + dx == k * dx;
      assert (k - 1) * dy + dy == k * dy;
    }
  }

  /**
   The items are the walk that starts at the padding's top-left corner and
   takes one `(xStep, yStep)` step per item: the first sits at
   `(padding.left, padding.top)` and each next one exactly one step further.
   */
  lemma ItemsFollowWalk<D>(data: seq<D>, direction: Direction, itemWidth: int, itemHeight: int,
                           itemsSpacing: int, padding: Padding)
    ensures var r := LayoutItems(data, direction, itemWidth, itemHeight, itemsSpacing, padding);
      var (xStep, yStep) := Steps(direction, itemWidth, itemHeight, itemsSpacing);
      var w := Walk(padding.left, padding.top, xStep, yStep, |data|);
      forall k :: 0 <= k < |data| ==> (r[k].x, r[k].y) == w[k]
  {
    var r := LayoutItems(data, direction, itemWidth, itemHeight, itemsSpacing, padding);
    var (xStep, yStep) := Steps(direction, itemWidth, itemHeight, itemsSpacing);
    var w := Walk(padding.left, padding.top, xStep, yStep, |data|);
    forall k | 0 <= k < |data|
      ensures (r[k].x, r[k].y) == w[k]
    {
      WalkAt(padding.left, padding.top, xStep, yStep, |data|, k);
      assert r[k].x == k * xStep + padding.left && r[k].y == k * yStep + padding.top;
    }
  }

  /** The first item sits at the padding's top-left corner. */
  lemma FirstItemAtPadding<D>(data: seq<D>, direction: Direction, itemWidth: int, itemHeight: int,
                              itemsSpacing: int, padding: Padding)
    requires |data| > 0
    ensures LayoutItems(data, direction, itemWidth, itemHeight, itemsSpacing, padding)[0].x == padding.left
    ensures LayoutItems(data, direction, itemWidth, itemHeight, itemsSpacing, padding)[0].y == padding.top
  {
  }

  /**
   In a row every item has `y = padding.top` and each next item is
   `itemWidth + itemsSpacing` further along x.
   */
  lemma RowLayout<D>(data: seq<D>, itemWidth: int, itemHeight: int, itemsSpacing: int, padding: Padding)
    ensures var r := LayoutItems(data, Row, itemWidth, itemHeight, itemsSpacing, padding);
      && (forall k :: 0 <= k < |r| ==> r[k].y == padding.top)
      && (forall k :: 0 <= k < |r| - 1 ==> r[k + 1].x - r[k].x == itemWidth + itemsSpacing)
  {
    var r := LayoutItems(data, Row, itemWidth, itemHeight, itemsSpacing, padding);
    forall k | 0 <= k < |r| - 1
      ensures r[k + 1].x - r[k].x == itemWidth + itemsSpacing
    {
      assert (k + 1) * (itemWidth + itemsSpacing) == k * (itemWidth + itemsSpacing) + (itemWidth + itemsSpacing);
    }
  }

  /**
   In a column every item has `x = padding.left` and each next item is
   `itemHeight + itemsSpacing` further along y.
   */
  lemma ColumnLayout<D>(data: seq<D>, itemWidth: int, itemHeight: int, itemsSpacing: int, padding: Padding)
    ensures var r := LayoutItems(data, Column, itemWidth, itemHeight, itemsSpacing, padding);
      && (forall k :: 0 <= k < |r| ==> r[k].x == padding.left)
      && (forall k :: 0 <= k < |r| - 1 ==> r[k + 1].y - r[k].y == itemHeight + itemsSpacing)
  {
    var r := LayoutItems(data, Column, itemWidth, itemHeight, itemsSpacing, padding);
    forall k | 0 <= k < |r| - 1
      ensures r[k + 1].y - r[k].y == itemHeight + itemsSpacing
    {
      assert (k + 1) * (itemHeight + itemsSpacing) == k * (itemHeight + itemsSpacing) + (itemHeight + itemsSpacing);
    }
  }

  /** Any direction other than row or column keeps both steps 0: every item at the same point. */
  lemma OtherDirectionsStack<D>(data: seq<D>, direction: Direction, itemWidth: int, itemHeight: int,
                                itemsSpacing: int, padding: Padding)
    requires direction != Row && direction != Column
    ensures var r := LayoutItems(data, direction, itemWidth, itemHeight, itemsSpacing, padding);
      forall k :: 0 <= k < |r| ==> r[k].x == padding.left && r[k].y == padding.top
  {
  }

  lemma {:induction false} ScaleMonotone(i: nat, j: nat, step: int)
    requires i <= j && step >= 0
    ensures i * step <= j * step
    decreases j - i
  {
    if i < j {
      ScaleMonotone(i, j - 1, step);
      assert j * step == (j - 1) * step + step;
    }
  }

  /**
   With a non-negative step, positions never decrease with the index along
   the layout axis: x in a row, y in a column.
   */
  lemma PositionsMonotone<D>(data: seq<D>, direction: Direction, itemWidth: int, itemHeight: int,
                             itemsSpacing: int, padding: Padding, i: nat, j: nat)
    requires i <= j < |data|
    ensures var r := LayoutItems(data, direction, itemWidth, itemHeight, itemsSpacing, padding);
      && (direction == Row && itemWidth + itemsSpacing >= 0 ==> r[i].x <= r[j].x)
      && (direction == Column && itemHeight + itemsSpacing >= 0 ==> r[i].y <= r[j].y)
  {
    if direction == Row && itemWidth + itemsSpacing >= 0 {
      ScaleMonotone(i, j, itemWidth + itemsSpacing);
    }
    if direction == Column && itemHeight + itemsSpacing >= 0 {
      ScaleMonotone(i, j, itemHeight + itemsSpacing);
    }
  }
}
