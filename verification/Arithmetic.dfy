/** Facts about products that the grids and the hash tables share. */
module Arithmetic {

  lemma SmallMultiple(a: int, b: int)
    requires -b < a * b < b
    ensures a == 0
  {
    MulGrows(a, b);
  }

  lemma MulGrows(a: int, b: int)
    requires b > 0
    ensures a > 0 ==> a * b >= b
    ensures a < 0 ==> a * b <= -b
  {
    if a > 0 {
      assert (a - 1) * b >= 0;
    } else if a < 0 {
      assert (-a - 1) * b >= 0;
    }
  }
}
