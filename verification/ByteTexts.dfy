/** Where a text holds certain bytes. */
module ByteTexts {
  import opened Bytes

  /** The bytes s are at i. */
  ghost predicate At(b: seq<byte>, i: nat, s: seq<byte>)
  {
    i + |s| <= |b| && forall k {:trigger s[k]} :: 0 <= k < |s| ==> b[i + k] == s[k]
  }

  lemma AtParts(b: seq<byte>, i: nat, s: seq<byte>, t: seq<byte>)
    ensures At(b, i, s + t) <==> At(b, i, s) && At(b, i + |s|, t)
  {
    if At(b, i, s + t) {
      assert forall k {:trigger s[k]} :: 0 <= k < |s| ==> s[k] == (s + t)[k];
      assert forall k {:trigger t[k]} :: 0 <= k < |t| ==> t[k] == (s + t)[|s| + k];
    }
  }

  /** The same, with the place of the second part given. */
  lemma AtBoth(b: seq<byte>, i: nat, s: seq<byte>, j: nat, t: seq<byte>)
    requires j == i + |s|
    ensures At(b, i, s + t) <==> At(b, i, s) && At(b, j, t)
  {
    AtParts(b, i, s, t);
  }

  lemma AtFirst(b: seq<byte>, i: nat, s: seq<byte>)
    requires At(b, i, s)
    ensures i + |s| <= |b|
    ensures |s| > 0 ==> b[i] == s[0]
    ensures |s| > 1 ==> b[i + 1] == s[1]
    ensures |s| > 2 ==> b[i + 2] == s[2]
    ensures |s| > 3 ==> b[i + 3] == s[3]
  {
  }

  lemma AtSlice(b: seq<byte>, i: nat, s: seq<byte>)
    ensures At(b, i, s) <==> i + |s| <= |b| && b[i..i + |s|] == s
  {
    if i + |s| <= |b| {
      assert forall k {:trigger s[k]} :: 0 <= k < |s| ==> b[i..i + |s|][k] == b[i + k];
    }
  }

  lemma AtSplit(b: seq<byte>, i: nat, s: seq<byte>, n: nat)
    requires n <= |s| && At(b, i, s)
    ensures At(b, i, s[..n]) && At(b, i + n, s[n..]) && b[i..i + n] == s[..n]
  {
    assert s == s[..n] + s[n..];
    AtParts(b, i, s[..n], s[n..]);
    AtSlice(b, i, s[..n]);
  }
}
