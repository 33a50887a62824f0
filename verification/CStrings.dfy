/** NUL-terminated byte strings inside larger buffers. */
module CStrings {
  import opened Prelude

  predicate NonZero(s: seq<u8>) {
    forall k :: 0 <= k < |s| ==> s[k] != 0
  }

  function Zeros(n: nat): seq<u8> {
    seq(n, _ => 0)
  }

  /** The C string held by a buffer: everything before the first NUL. */
  function CText(b: seq<u8>): seq<u8> {
    if b == [] || b[0] == 0 then [] else [b[0]] + CText(b[1..])
  }

  lemma {:induction false} CTextNonZero(b: seq<u8>)
    ensures NonZero(CText(b)) && |CText(b)| <= |b|
    ensures CText(b) == b[..|CText(b)|]
    ensures |CText(b)| < |b| ==> b[|CText(b)|] == 0
  {
    if b != [] && b[0] != 0 {
      CTextNonZero(b[1..]);
    }
  }

  lemma {:induction false} CTextStops(s: seq<u8>, rest: seq<u8>)
    ensures CText(s + [0] + rest) == CText(s)
  {
    if s == [] {
      assert s + [0] + rest == [0] + rest;
    } else {
      assert (s + [0] + rest)[1..] == s[1..] + [0] + rest;
      CTextStops(s[1..], rest);
    }
  }

  lemma {:induction false} CTextWhole(s: seq<u8>)
    ensures CText(s) == s <==> NonZero(s)
  {
    CTextNonZero(s);
    if NonZero(s) && s != [] {
      CTextWhole(s[1..]);
    }
  }

  /** Padding a NUL-free name and reading it back as a C string is the identity. */
  lemma {:induction false} CTextPadded(s: seq<u8>, n: nat)
    requires NonZero(s)
    ensures CText(s + Zeros(n)) == s
  {
    if s == [] {
      assert s + Zeros(n) == Zeros(n);
    } else {
      assert (s + Zeros(n))[1..] == s[1..] + Zeros(n);
      CTextPadded(s[1..], n);
    }
  }
}
