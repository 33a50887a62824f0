/**
 Which bytes validation accepts, written out as offsets and numbers for every archive, whether
 the generator made it or not; and which of them make the store ready for an image.
 */
module ArchiveBytes {
  import opened Prelude
  import opened Archive
  import Fnv

  /** The little-endian word at an offset. */
  function WordAt(a: seq<u8>, at: nat): int
    requires at + 4 <= |a|
  {
    (a[at] as int) + 256 * (a[at + 1] as int) + 65536 * (a[at + 2] as int) + 16777216 * (a[at + 3] as int)
  }

  // ---- the sections ----

  function SignersAt(i: nat): nat {
    28 + 12 * i
  }

  function ManifestsAt(a: seq<u8>, i: nat): nat
    requires |a| >= 28
  {
    28 + 12 * WordAt(a, 8) + 92 * i
  }

  function PayloadsAt(a: seq<u8>, i: nat): nat
    requires |a| >= 28
  {
    28 + 12 * WordAt(a, 8) + 92 * WordAt(a, 12) + 20 * i
  }

  function StringsAt(a: seq<u8>): nat
    requires |a| >= 28
  {
    28 + 12 * WordAt(a, 8) + 92 * WordAt(a, 12) + 20 * WordAt(a, 16)
  }

  /** Magic, version 2, and four sections that fill the archive. */
  predicate Tiles(a: seq<u8>) {
    && |a| >= 28 && WordAt(a, 0) == 0x504B4753 && WordAt(a, 4) == 2
    && StringsAt(a) + WordAt(a, 20) == |a|
  }

  /** The digest of the archive with bytes 24 to 27 taken as zero. */
  function Digest(a: seq<u8>): u32 {
    Fnv.Hash(Fnv.OFFSET_BASIS,
             seq(|a|, i requires 0 <= i < |a| => if i == 24 || i == 25 || i == 26 || i == 27 then 0 else a[i]))
  }

  // ---- the records ----

  /** A string offset is good when a NUL comes at or after it in the archive, before which it lies. */
  predicate GoodText(a: seq<u8>, offset: nat)
    requires Tiles(a)
  {
    exists n :: StringsAt(a) + offset <= n < |a| && a[n] == 0
  }

  predicate GoodSigner(a: seq<u8>, i: nat)
    requires Tiles(a) && i < WordAt(a, 8)
  {
    GoodText(a, WordAt(a, SignersAt(i) + 4))
  }

  predicate GoodPayload(a: seq<u8>, i: nat)
    requires Tiles(a) && i < WordAt(a, 16)
  {
    var at := PayloadsAt(a, i);
    && WordAt(a, at) != 0 && (WordAt(a, at + 4) == 1 || WordAt(a, at + 4) == 2)
    && WordAt(a, at + 12) != 0 && WordAt(a, at + 16) != 0
  }

  /** The six names end, and some payload has the slot. */
  predicate GoodManifest(a: seq<u8>, i: nat)
    requires Tiles(a) && i < WordAt(a, 12)
  {
    var at := ManifestsAt(a, i);
    && GoodText(a, WordAt(a, at + 8)) && GoodText(a, WordAt(a, at + 36)) && GoodText(a, WordAt(a, at + 40))
    && GoodText(a, WordAt(a, at + 44)) && GoodText(a, WordAt(a, at + 48)) && GoodText(a, WordAt(a, at + 52))
    && exists j: nat :: j < WordAt(a, 16) && WordAt(a, PayloadsAt(a, j)) == WordAt(a, at + 88)
  }

  predicate Accepted(a: seq<u8>, checksum: u32) {
    && Tiles(a) && Digest(a) == WordAt(a, 24) && Digest(a) == checksum
    && (forall i: nat :: i < WordAt(a, 8) ==> GoodSigner(a, i))
    && (forall i: nat :: i < WordAt(a, 16) ==> GoodPayload(a, i))
    && (forall i: nat :: i < WordAt(a, 12) ==> GoodManifest(a, i))
  }

  // ---- validation is exactly this ----

  function ViewOf(a: Blob): View
    requires Tiles(a)
  {
    View(WordAt(a, 8), WordAt(a, 12), WordAt(a, 16), WordAt(a, 20), WordAt(a, 24),
         28, ManifestsAt(a, 0), PayloadsAt(a, 0), StringsAt(a))
  }

  lemma WordIs(a: seq<u8>, at: nat)
    requires at + 4 <= |a|
    ensures WordAt(a, at) == ReadU32(a, at)
  {
  }

  lemma LayoutTiles(a: Blob, v: View)
    ensures IsLayout(a, v) <==> Tiles(a) && v == ViewOf(a)
  {
    if |a| >= 28 {
      WordIs(a, 0);
      WordIs(a, 4);
      WordIs(a, 8);
      WordIs(a, 12);
      WordIs(a, 16);
      WordIs(a, 20);
      WordIs(a, 24);
      hide WordAt, ReadU32;
    }
  }

  lemma DigestIs(a: seq<u8>)
    ensures Digest(a) == MaskedHash(a)
  {
    assert Masked(a) ==
           seq(|a|, i requires 0 <= i < |a| => if i == 24 || i == 25 || i == 26 || i == 27 then 0 else a[i]);
  }

  lemma TextIs(a: Blob, offset: nat)
    requires Tiles(a) && IsLayout(a, ViewOf(a))
    ensures GoodText(a, offset) <==> TextAt(a, ViewOf(a), offset).Some?
  {
    var at, table := StringsAt(a), StringTable(a, ViewOf(a));
    hide WordAt;
    if GoodText(a, offset) {
      var n :| at + offset <= n < |a| && a[n] == 0;
      assert table[offset..][n - at - offset] == 0;
    }
    if TextAt(a, ViewOf(a), offset).Some? {
      var k :| 0 <= k < |table[offset..]| && table[offset..][k] == 0;
      assert a[at + offset + k] == 0;
    }
  }

  lemma SignerIs(a: Blob, i: nat)
    requires Tiles(a) && IsLayout(a, ViewOf(a)) && i < WordAt(a, 8)
    ensures GoodSigner(a, i) <==> ReadSigner(a, ViewOf(a), i).Some?
  {
    WordIs(a, SignersAt(i) + 4);
    TextIs(a, WordAt(a, SignersAt(i) + 4));
    hide WordAt, ReadU32, GoodText, TextAt;
  }

  lemma PayloadIs(a: Blob, i: nat)
    requires Tiles(a) && IsLayout(a, ViewOf(a)) && i < WordAt(a, 16)
    ensures GoodPayload(a, i) <==> PayloadOk(PayloadAt(a, ViewOf(a), i))
    ensures PayloadWord(a, ViewOf(a), i, 0) == WordAt(a, PayloadsAt(a, i))
    ensures PayloadAt(a, ViewOf(a), i).kind == WordAt(a, PayloadsAt(a, i) + 4)
    ensures PayloadAt(a, ViewOf(a), i).imageOffset == WordAt(a, PayloadsAt(a, i) + 8)
    ensures PayloadAt(a, ViewOf(a), i).imageSize == WordAt(a, PayloadsAt(a, i) + 12)
    ensures PayloadAt(a, ViewOf(a), i).imageChecksum == WordAt(a, PayloadsAt(a, i) + 16)
  {
    var at := PayloadsAt(a, i);
    WordIs(a, at);
    WordIs(a, at + 4);
    WordIs(a, at + 8);
    WordIs(a, at + 12);
    WordIs(a, at + 16);
    hide WordAt, ReadU32;
  }

  /** A slot is found exactly when some payload record has it. */
  lemma {:induction false} SlotFound(a: Blob, slot: u32, from: nat)
    requires Tiles(a) && IsLayout(a, ViewOf(a)) && from <= WordAt(a, 16)
    ensures FindFrom(a, ViewOf(a), slot, from).Some? <==>
            exists j: nat :: from <= j < WordAt(a, 16) && WordAt(a, PayloadsAt(a, j)) == slot
    decreases WordAt(a, 16) - from
  {
    hide IsLayout, PayloadAt, PayloadWord;
    if from < WordAt(a, 16) {
      PayloadIs(a, from);
      hide WordAt;
      SlotFound(a, slot, from + 1);
    }
  }

  lemma ManifestIs(a: Blob, i: nat)
    requires Tiles(a) && IsLayout(a, ViewOf(a)) && i < WordAt(a, 12)
    ensures GoodManifest(a, i) <==> ReadManifest(a, ViewOf(a), i).Some?
  {
    hide WordAt, ReadU32, IsLayout, ManifestWord, ManifestText, GoodText, FindFrom, ManifestAt;
    hide ManifestsAt, PayloadsAt;
    var v, at := ViewOf(a), ManifestsAt(a, i);
    FieldIs(a, i, 2);
    FieldIs(a, i, 9);
    FieldIs(a, i, 10);
    FieldIs(a, i, 11);
    FieldIs(a, i, 12);
    FieldIs(a, i, 13);
    FieldIs(a, i, 22);
    SlotFound(a, ManifestWord(a, v, i, 22), 0);
  }

  lemma FieldIs(a: Blob, i: nat, k: nat)
    requires Tiles(a) && IsLayout(a, ViewOf(a)) && i < WordAt(a, 12) && k < 23
    ensures ManifestsAt(a, i) + 4 * k + 4 <= |a|
    ensures ManifestWord(a, ViewOf(a), i, k) == WordAt(a, ManifestsAt(a, i) + 4 * k)
    ensures GoodText(a, WordAt(a, ManifestsAt(a, i) + 4 * k)) <==> ManifestText(a, ViewOf(a), i, k).Some?
  {
    WordIs(a, ManifestsAt(a, i) + 4 * k);
    TextIs(a, WordAt(a, ManifestsAt(a, i) + 4 * k));
    hide WordAt, ReadU32, GoodText, TextAt;
  }

  /** An archive validates, with the one view it has, exactly when its bytes are accepted. */
  lemma ValidatedIff(a: Blob, v: View, checksum: u32)
    ensures Validated(a, v, checksum) <==> Accepted(a, checksum) && v == ViewOf(a)
  {
    LayoutTiles(a, v);
    hide IsLayout;
    DigestIs(a);
    if Tiles(a) && v == ViewOf(a) {
      forall i: nat | i < WordAt(a, 8)
        ensures GoodSigner(a, i) <==> ReadSigner(a, v, i).Some?
      {
        SignerIs(a, i);
      }
      forall i: nat | i < WordAt(a, 16)
        ensures GoodPayload(a, i) <==> PayloadOk(PayloadAt(a, v, i))
      {
        PayloadIs(a, i);
      }
      forall i: nat | i < WordAt(a, 12)
        ensures GoodManifest(a, i) <==> ReadManifest(a, v, i).Some?
      {
        ManifestIs(a, i);
      }
    }
    hide WordAt, ReadU32, GoodSigner, GoodPayload, GoodManifest, ReadSigner, ReadManifest, PayloadAt, PayloadOk;
    hide Digest, MaskedHash;
  }

  // ---- readiness ----

  /** Payload `i` is the first of slot 1: the bootstrap service, offset 0, the image's size and digest. */
  predicate IsImage(a: seq<u8>, image: seq<u8>, i: nat)
    requires Tiles(a)
  {
    && i < WordAt(a, 16) && WordAt(a, PayloadsAt(a, i)) == 1
    && (forall j: nat :: j < i ==> WordAt(a, PayloadsAt(a, j)) != 1)
    && WordAt(a, PayloadsAt(a, i) + 4) == 1 && WordAt(a, PayloadsAt(a, i) + 8) == 0
    && WordAt(a, PayloadsAt(a, i) + 12) == |image|
    && WordAt(a, PayloadsAt(a, i) + 16) == Fnv.Hash(Fnv.OFFSET_BASIS, image)
  }

  lemma {:induction false} FirstFound(a: Blob, slot: u32, from: nat) returns (i: nat)
    requires Tiles(a) && IsLayout(a, ViewOf(a)) && from <= WordAt(a, 16)
    ensures from <= i <= WordAt(a, 16)
    ensures forall j: nat :: from <= j < i ==> WordAt(a, PayloadsAt(a, j)) != slot
    ensures FindFrom(a, ViewOf(a), slot, from) ==
            if i == WordAt(a, 16) then None else Some(PayloadAt(a, ViewOf(a), i))
    ensures i < WordAt(a, 16) ==> WordAt(a, PayloadsAt(a, i)) == slot
    decreases WordAt(a, 16) - from
  {
    hide IsLayout, PayloadAt, PayloadWord;
    i := from;
    if from < WordAt(a, 16) {
      PayloadIs(a, from);
      hide WordAt;
      if WordAt(a, PayloadsAt(a, from)) != slot {
        i := FirstFound(a, slot, from + 1);
      }
    }
  }

  /** The store becomes ready exactly when its bytes are accepted and the first slot-1 payload is the image. */
  lemma ReadyBytesIff(a: Blob, v: View, checksum: u32, image: Blob)
    ensures Ready(a, v, checksum, image) <==>
            Accepted(a, checksum) && v == ViewOf(a) && exists i: nat :: IsImage(a, image, i)
  {
    ValidatedIff(a, v, checksum);
    hide Validated, Fnv.Hash;
    if Accepted(a, checksum) && v == ViewOf(a) {
      LayoutTiles(a, v);
      var i := FirstFound(a, 1, 0);
      if i < WordAt(a, 16) {
        PayloadIs(a, i);
      }
      hide WordAt, IsLayout, Accepted, PayloadAt, FindFrom;
      if Ready(a, v, checksum, image) {
        assert IsImage(a, image, i);
      }
      if exists j: nat :: IsImage(a, image, j) {
        var j: nat :| IsImage(a, image, j);
        assert i == j;
      }
    }
  }

  /** The layout found by checked arithmetic is the view of the bytes. */
  lemma LayoutIsView(a: Blob)
    ensures Layout(a) == if Tiles(a) then Some(ViewOf(a)) else None
  {
    if Tiles(a) {
      LayoutTiles(a, ViewOf(a));
      LayoutIff(a, ViewOf(a));
    } else if Layout(a).Some? {
      LayoutIff(a, Layout(a).value);
      LayoutTiles(a, Layout(a).value);
    }
  }

  lemma StoreAcceptedIff(a: Blob, checksum: u32)
    ensures Layout(a).Some? && Validated(a, Layout(a).value, checksum) <==> Accepted(a, checksum)
  {
    hide Layout, Validated;
    LayoutIsView(a);
    if Tiles(a) {
      ValidatedIff(a, ViewOf(a), checksum);
    }
  }

  lemma StoreReadyIff(a: Blob, checksum: u32, image: Blob)
    ensures Layout(a).Some? && Ready(a, Layout(a).value, checksum, image) <==>
            Accepted(a, checksum) && exists i: nat :: IsImage(a, image, i)
  {
    hide Layout, Ready;
    LayoutIsView(a);
    if Tiles(a) {
      ReadyBytesIff(a, ViewOf(a), checksum, image);
    }
  }
}
