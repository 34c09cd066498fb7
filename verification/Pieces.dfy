/** Pieces of a longer sequence. */
module Pieces {
  /** The piece stands in the text at p. */
  ghost predicate Stands<T>(text: seq<T>, p: nat, piece: seq<T>)
  {
    p + |piece| <= |text| && forall i :: 0 <= i < |piece| ==> text[p + i] == piece[i]
  }

  lemma StandsParts<T>(text: seq<T>, p: nat, a: seq<T>, b: seq<T>)
    requires Stands(text, p, a + b)
    ensures Stands(text, p, a) && Stands(text, p + |a|, b)
  {
    forall i | 0 <= i < |a|
      ensures text[p + i] == a[i]
    {
      assert (a + b)[i] == a[i];
    }
    forall i | 0 <= i < |b|
      ensures text[p + |a| + i] == b[i]
    {
      assert (a + b)[|a| + i] == b[i];
    }
  }

  lemma StandsSlice<T>(text: seq<T>, p: nat, piece: seq<T>, end: nat)
    requires Stands(text, p, piece) && end == p + |piece|
    ensures text[p..end] == piece
  {
  }
}
