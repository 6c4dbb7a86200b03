/**
 Where the button jumps to on an evasion. On each axis the page takes the
 padding plus a uniform draw times the room left after the button's size and
 the padding are subtracted from the viewport's extent. The model keeps that
 formula as written: it leaves no margin on the right or bottom, and when the
 viewport is narrower than the button plus the padding the "room" is negative.
 */
module Placement {
  import opened Hearts

  /** The room an axis leaves: `extent - size - padding` (the page's maxX / maxY). */
  function Room(extent: real, size: real): real {
    extent - size - Padding
  }

  /**
   One coordinate of the new button position, for a viewport `extent` and a
   button `size` along that axis and a draw `r`. The result always lies between
   the padding and `extent - size` (the position at which the button's far edge
   touches the viewport's far edge), on whichever side of each other they are.
   */
  function Place(extent: real, size: real, r: real): (p: real)
    requires IsUnit(r)
    ensures Room(extent, size) >= 0.0 ==> Padding <= p <= extent - size
    ensures Room(extent, size) > 0.0 ==> p < extent - size
    ensures Room(extent, size) < 0.0 ==> extent - size < p <= Padding
  {
    ProductBelow(r, Room(extent, size));
    Padding + r * Room(extent, size)
  }

  /** A draw scales a non-negative room to at most the room, and a positive one to less. */
  lemma ProductBelow(r: real, m: real)
    requires IsUnit(r)
    ensures m >= 0.0 ==> 0.0 <= r * m <= m
    ensures m > 0.0 ==> r * m < m
    ensures m < 0.0 ==> m < r * m <= 0.0
  {
  }

  /** The new top-left corner of the button in a viewport of the given size. */
  function NextPosition(innerWidth: real, innerHeight: real, rx: real, ry: real): (p: Point)
    requires IsUnit(rx) && IsUnit(ry)
    ensures Room(innerWidth, ButtonWidth) > 0.0 ==> Padding <= p.x < innerWidth - ButtonWidth
    ensures Room(innerHeight, ButtonHeight) > 0.0 ==> Padding <= p.y < innerHeight - ButtonHeight
  {
    Point(Place(innerWidth, ButtonWidth, rx), Place(innerHeight, ButtonHeight, ry))
  }

  /**
   The right-hand (or bottom) padding is not kept: for every viewport there is a
   draw that puts the button's far edge within the last `Padding` pixels, or past them.
   */
  lemma FarMarginNotKept(extent: real, size: real)
    ensures exists r :: IsUnit(r) && Place(extent, size, r) + size > extent - Padding
  {
    var m := Room(extent, size);
    if m > 10.0 {
      var r := 1.0 - 10.0 / m;
      assert 10.0 / m < 1.0 by {
        assert 10.0 / m * m == 10.0;
      }
      assert r * m == m - 10.0;
      assert Place(extent, size, r) + size > extent - Padding;
    } else {
      assert Place(extent, size, 0.0) + size > extent - Padding;
    }
  }

  /**
   On a viewport narrower than the button plus the padding, every draw other
   than 0 puts the button's near edge inside the padding strip, and every draw
   leaves its far edge beyond the viewport.
   */
  lemma NarrowViewportOverflows(extent: real, size: real, r: real)
    requires Room(extent, size) < 0.0
    requires IsUnit(r)
    ensures Place(extent, size, r) + size > extent
    ensures r > 0.0 ==> Place(extent, size, r) < Padding
  {
  }
}
