/** Copying UTF-8 text without cutting characters apart. */
module Utf8Copy {
  import opened Bytes

  predicate IsContinuation(b: byte)
  {
    0x80 <= b < 0xC0
  }

  /** How many bytes the character that starts with a byte has. */
  function LeadLength(b: byte): (n: nat)
    ensures 1 <= n <= 4
  {
    if 0xF0 <= b < 0xF8 then 4 else if 0xE0 <= b < 0xF0 then 3 else if 0xC0 <= b < 0xE0 then 2 else 1
  }

  /** A place between two characters of a well-formed text. */
  predicate Boundary(text: seq<byte>, k: nat)
  {
    k == |text| || (k < |text| && !IsContinuation(text[k]))
  }

  /** A byte that starts a character is followed by the rest of it. */
  ghost predicate WholeAt(text: seq<byte>, k: nat)
    requires k < |text|
  {
    && text[k] < 0xF8
    && (!IsContinuation(text[k]) ==>
          && k + LeadLength(text[k]) <= |text| && Boundary(text, k + LeadLength(text[k]))
          && forall j :: k < j < k + LeadLength(text[k]) ==> IsContinuation(text[j]))
  }

  /** Whole characters one after the other. */
  ghost predicate WellFormed(text: seq<byte>)
  {
    Boundary(text, 0) && forall k: nat {:trigger WholeAt(text, k)} :: k < |text| ==> WholeAt(text, k)
  }

  /** The greatest boundary between from and lim. */
  ghost predicate Greatest(text: seq<byte>, from: nat, lim: nat, cut: nat)
  {
    from <= cut <= lim && Boundary(text, cut) && forall k :: cut < k <= lim ==> !Boundary(text, k)
  }

  /** The last character that starts before lim ends at lim, or lim lies inside it. */
  lemma CharBefore(text: seq<byte>, lim: nat, q: nat)
    requires WellFormed(text) && q < lim <= |text| && !IsContinuation(text[q])
    requires forall k :: q < k < lim ==> IsContinuation(text[k])
    ensures lim <= q + LeadLength(text[q])
    ensures Boundary(text, lim) <==> lim == q + LeadLength(text[q])
  {
    assert WholeAt(text, q);
    assert lim < q + LeadLength(text[q]) ==> IsContinuation(text[lim]);
  }

  /** When lim lies inside a character, the cut is where that character starts. */
  lemma CutBack(text: seq<byte>, from: nat, lim: nat, q: nat)
    requires WellFormed(text) && from <= q < lim <= |text| && !IsContinuation(text[q])
    requires forall k :: q < k < lim ==> IsContinuation(text[k])
    requires lim != q + LeadLength(text[q])
    ensures Greatest(text, from, lim, q)
  {
    CharBefore(text, lim, q);
  }

  /**
   Cuts the end of a range back to a whole character, walking over continuation bytes to the lead byte. A
   character that is not complete is left out, and the walk goes on over the one before it.
   */
  method Trim(text: seq<byte>, from: nat, lim: nat) returns (cut: nat)
    requires WellFormed(text) && from <= lim <= |text| && Boundary(text, from)
    ensures Greatest(text, from, lim, cut)
  {
    cut := lim;
    var walked := 0;
    ghost var last := lim;
    while cut > from
      invariant from <= cut <= last <= lim
      invariant forall k :: cut <= k < last ==> IsContinuation(text[k])
      invariant last == lim || Greatest(text, from, lim, last)
      invariant walked == (last - cut) + if last == lim then 0 else 1
    {
      var prev := text[cut - 1];
      if !IsContinuation(prev) {
        CharBefore(text, last, cut - 1);
        var n := LeadLength(prev);
        if walked + 1 >= n {
          cut := cut + (n - 1);
          break;
        }
        CutBack(text, from, lim, cut - 1);
        walked := 0;
        last := cut - 1;
      }
      cut := cut - 1;
      walked := walked + 1;
    }
  }
}
