/** What several modules share: optional values, and three facts about products of reals. */
module Basics {

  datatype Option<+T> = None | Some(value: T)

  lemma Distributes(x: real, y: real, w: real)
    ensures (x + y) * w == x * w + y * w
  {
  }

  lemma ProductNotNegative(x: real, y: real)
    requires x >= 0.0 && y >= 0.0
    ensures x * y >= 0.0
    ensures x > 0.0 && y > 0.0 ==> x * y > 0.0
  {
  }

  lemma Grows(x: real, y: real, w: real)
    requires w >= 0.0 && x <= y
    ensures x * w <= y * w
    ensures x == y || w == 0.0 || x * w < y * w
  {
    var d := y - x;
    Distributes(x, d, w);
    ProductNotNegative(d, w);
    assert y == x + d;
  }
}
