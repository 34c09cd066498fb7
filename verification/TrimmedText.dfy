/** Where a text of UTF-8 characters may be cut. */
module TrimmedTexts {
  import opened Bytes
  import opened XmlBytes
  import opened XmlChars
  import opened Utf8Copy

  /** The first characters of a text fill its first k bytes. */
  predicate Fills(chars: seq<CharNumber>, k: nat)
  {
    k == 0 || (chars != [] && |Utf8(chars[0])| <= k && Fills(chars[1..], k - |Utf8(chars[0])|))
  }

  /** The bytes of one character: none but the first is a continuation, and the first tells how many there are. */
  lemma OneCharacter(c: CharNumber)
    ensures var s := Utf8(c);
            && s != [] && !IsContinuation(s[0]) && s[0] < 0xF8 && LeadLength(s[0]) == |s|
            && forall k :: 0 < k < |s| ==> IsContinuation(s[k])
  {
  }

  lemma FirstStarts(chars: seq<CharNumber>)
    requires chars != []
    ensures AllUtf8(chars) != [] && !IsContinuation(AllUtf8(chars)[0])
  {
    OneCharacter(chars[0]);
  }

  /** A text begins a character exactly where whole characters end. */
  lemma {:induction false} BoundaryIff(chars: seq<CharNumber>, k: nat)
    requires k <= |AllUtf8(chars)|
    ensures Boundary(AllUtf8(chars), k) <==> Fills(chars, k)
    decreases chars
  {
    if chars != [] {
      var first, rest := Utf8(chars[0]), AllUtf8(chars[1..]);
      OneCharacter(chars[0]);
      if k < |first| {
        assert AllUtf8(chars)[k] == first[k];
      } else {
        BoundaryIff(chars[1..], k - |first|);
        assert k < |AllUtf8(chars)| ==> AllUtf8(chars)[k] == rest[k - |first|];
      }
    }
  }

  lemma ShiftedWhole(first: seq<byte>, rest: seq<byte>, k: nat)
    requires k < |rest| && WholeAt(rest, k)
    ensures WholeAt(first + rest, |first| + k)
  {
    var text, n := first + rest, LeadLength(rest[k]);
    assert text[|first| + k] == rest[k];
    if !IsContinuation(rest[k]) {
      assert k + n < |rest| ==> text[|first| + k + n] == rest[k + n];
      forall j | |first| + k < j < |first| + k + n
        ensures IsContinuation(text[j])
      {
        assert text[j] == rest[j - |first|];
      }
    }
  }

  lemma FirstWhole(c: CharNumber, rest: seq<byte>, k: nat)
    requires k < |Utf8(c)| && (rest != [] ==> !IsContinuation(rest[0]))
    ensures WholeAt(Utf8(c) + rest, k)
  {
    OneCharacter(c);
  }

  /** Every text of characters is one that may be trimmed. */
  lemma {:induction false} TextWellFormed(chars: seq<CharNumber>)
    ensures Utf8Copy.WellFormed(AllUtf8(chars))
    decreases chars
  {
    if chars != [] {
      var first, rest := Utf8(chars[0]), AllUtf8(chars[1..]);
      TextWellFormed(chars[1..]);
      FirstStarts(chars);
      if chars[1..] != [] {
        FirstStarts(chars[1..]);
      }
      forall k: nat {:trigger WholeAt(AllUtf8(chars), k)} | k < |AllUtf8(chars)|
        ensures WholeAt(AllUtf8(chars), k)
      {
        if k < |first| {
          FirstWhole(chars[0], rest, k);
        } else {
          assert WholeAt(rest, k - |first|);
          ShiftedWhole(first, rest, k - |first|);
        }
      }
    }
  }

  /** So trimming a text to a limit leaves as many whole characters as the limit has room for. */
  lemma TrimKeepsWhole(chars: seq<CharNumber>, lim: nat, cut: nat)
    requires lim <= |AllUtf8(chars)|
    ensures Greatest(AllUtf8(chars), 0, lim, cut) <==>
              cut <= lim && Fills(chars, cut) && forall k :: cut < k <= lim ==> !Fills(chars, k)
  {
    var text := AllUtf8(chars);
    if cut <= lim {
      BoundaryIff(chars, cut);
    }
    if Greatest(text, 0, lim, cut) {
      forall k: nat | cut < k <= lim
        ensures !Fills(chars, k)
      {
        BoundaryIff(chars, k);
      }
    } else if cut <= lim && Fills(chars, cut) {
      var k :| cut < k <= lim && Boundary(text, k);
      BoundaryIff(chars, k);
    }
  }
}
