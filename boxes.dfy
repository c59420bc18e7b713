/** Axis-aligned boxes `[x1, y1, x2, y2]` and numpy's float-to-int cast. */
module Boxes {

  datatype IntBox = IntBox(x1: int, y1: int, x2: int, y2: int)

  datatype RealBox = RealBox(x1: real, y1: real, x2: real, y2: real)

  /** `np.array(box, dtype=float)` */
  function ToReal(b: IntBox): RealBox {
    RealBox(b.x1 as real, b.y1 as real, b.x2 as real, b.y2 as real)
  }

  /** `astype(int)` on one coordinate: truncation toward zero. */
  function Trunc(r: real): (i: int)
    ensures r >= 0.0 ==> 0 <= i && i as real <= r < i as real + 1.0
    ensures r < 0.0 ==> i <= 0 && i as real - 1.0 < r <= i as real
  {
    if r >= 0.0 then r.Floor else -((-r).Floor)
  }

  /** `astype(int)` on a whole box. */
  function TruncBox(b: RealBox): IntBox {
    IntBox(Trunc(b.x1), Trunc(b.y1), Trunc(b.x2), Trunc(b.y2))
  }

  /** Casting an integer-valued box to float and back gives it back. */
  lemma TruncToReal(b: IntBox)
    ensures TruncBox(ToReal(b)) == b
  {
  }
}
