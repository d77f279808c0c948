/** The footprint area of the cropped region: line 63 of the dump script
    multiplies the extents of the first two axes of `cube_crop`. */
module CropArea {
  import opened Results

  /** One `(min, max)` pair of `cube_crop`. */
  datatype Bounds = Bounds(lo: int, hi: int)

  /** `cube_crop`: one pair per axis, inline, crossline, depth. */
  type CubeCrop = seq<Bounds>

  /** The `(x, y)` footprint area. Indexing a missing axis raises `IndexError`;
      axes after the second (the depth range) are never read. */
  function Area(crop: CubeCrop): (r: Result<int>)
    ensures r.Err? <==> |crop| < 2
    ensures r.Err? ==> r.error == IndexError
  {
    if |crop| < 2 then Err(IndexError)
    else Ok((crop[0].hi - crop[0].lo) * (crop[1].hi - crop[1].lo))
  }

  /** The cells `(x, y)` with `y` in `[y0, y1)`. */
  function Row(x: int, y0: int, y1: int): (r: set<(int, int)>)
    decreases y1 - y0
  {
    if y1 <= y0 then {} else {(x, y0)} + Row(x, y0 + 1, y1)
  }

  /** The cells `(x, y)` with `x` in `[x0, x1)` and `y` in `[y0, y1)`. */
  function Rect(x0: int, x1: int, y0: int, y1: int): (r: set<(int, int)>)
    decreases x1 - x0
  {
    if x1 <= x0 then {} else Row(x0, y0, y1) + Rect(x0 + 1, x1, y0, y1)
  }

  /** The `(x, y)` footprint of the crop: every column of the first two axes. */
  function Footprint(crop: CubeCrop): set<(int, int)>
    requires |crop| >= 2
  {
    Rect(crop[0].lo, crop[0].hi, crop[1].lo, crop[1].hi)
  }

  lemma {:induction false} RowContents(x: int, y0: int, y1: int)
    ensures forall p :: p in Row(x, y0, y1) <==> p.0 == x && y0 <= p.1 < y1
    ensures y0 <= y1 ==> |Row(x, y0, y1)| == y1 - y0
    decreases y1 - y0
  {
    if y0 < y1 {
      RowContents(x, y0 + 1, y1);
      assert (x, y0) !in Row(x, y0 + 1, y1);
    }
  }

  lemma {:induction false} RectMembers(x0: int, x1: int, y0: int, y1: int, p: (int, int))
    ensures p in Rect(x0, x1, y0, y1) <==> x0 <= p.0 < x1 && y0 <= p.1 < y1
    decreases x1 - x0
  {
    if x0 < x1 {
      RowContents(x0, y0, y1);
      RectMembers(x0 + 1, x1, y0, y1, p);
    }
  }

  lemma {:induction false} RectSize(x0: int, x1: int, y0: int, y1: int)
    requires x0 <= x1 && y0 <= y1
    ensures |Rect(x0, x1, y0, y1)| == (x1 - x0) * (y1 - y0)
    decreases x1 - x0
  {
    if x0 < x1 {
      RowContents(x0, y0, y1);
      RectSize(x0 + 1, x1, y0, y1);
      var row, rest := Row(x0, y0, y1), Rect(x0 + 1, x1, y0, y1);
      forall p | p in row ensures p !in rest {
        RectMembers(x0 + 1, x1, y0, y1, p);
      }
      assert row * rest == {};
      assert |row + rest| == |row| + |rest|;
      var w := y1 - y0;
      assert (x1 - x0) * w == w + (x1 - (x0 + 1)) * w;
    }
  }

  /** With ordered bounds on the first two axes, the area is the number of
      `(x, y)` columns in the footprint, and the footprint is exactly the
      columns inside those two ranges. */
  lemma AreaIsFootprintSize(crop: CubeCrop)
    requires |crop| >= 2
    requires crop[0].lo <= crop[0].hi && crop[1].lo <= crop[1].hi
    ensures Area(crop) == Ok(|Footprint(crop)|)
    ensures forall p :: p in Footprint(crop) <==>
      crop[0].lo <= p.0 < crop[0].hi && crop[1].lo <= p.1 < crop[1].hi
  {
    RectSize(crop[0].lo, crop[0].hi, crop[1].lo, crop[1].hi);
    forall p ensures p in Footprint(crop) <==>
                     crop[0].lo <= p.0 < crop[0].hi && crop[1].lo <= p.1 < crop[1].hi {
      RectMembers(crop[0].lo, crop[0].hi, crop[1].lo, crop[1].hi, p);
    }
  }

  /** The depth range, and any further axis, plays no part in the area. */
  lemma AreaIgnoresDepth(crop: CubeCrop, other: CubeCrop)
    requires |crop| >= 2 && |other| >= 2
    requires crop[0] == other[0] && crop[1] == other[1]
    ensures Area(crop) == Area(other)
  {
  }
}
