/**
 The payload record that the generator writes for a linked-in image. It never records a zero
 checksum, while the kernel compares with the digest itself; so the one image it cannot
 describe is one whose digest is zero, and there are such images.
 */
module ArchiveRecord {
  import opened Prelude
  import opened Archive
  import opened ArchiveEncode
  import opened ArchiveRoundTrip
  import opened ArchiveCollision
  import Fnv

  /** The generator's checksum of an image: its digest, or 1 in place of 0. */
  function RecordedChecksum(image: seq<u8>): u32 {
    var digest := Fnv.Hash(Fnv.OFFSET_BASIS, image);
    if digest == 0 then 1 else digest
  }

  /** A payload record with its image replaced, if it has the slot. */
  function Overridden(p: Payload, slot: u32, image: Blob): Payload {
    if p.slot != slot then p else p.(imageSize := |image|, imageChecksum := RecordedChecksum(image))
  }

  function AllOverridden(ps: seq<Payload>, slot: u32, image: Blob): seq<Payload> {
    seq(|ps|, i requires 0 <= i < |ps| => Overridden(ps[i], slot, image))
  }

  /** The store with the image of a slot filled in; a slot without a record gets one of its own. */
  function WithImage(s: Store, slot: u32, image: Blob): Store {
    s.(payloads := AllOverridden(s.payloads, slot, image) +
                   if FirstWithSlot(s.payloads, slot).Some? then []
                   else [Payload(slot, FLAT_BINARY, 0, |image|, RecordedChecksum(image))])
  }

  lemma {:induction false} FirstOverridden(ps: seq<Payload>, slot: u32, image: Blob, rest: seq<Payload>)
    ensures FirstWithSlot(AllOverridden(ps, slot, image) + rest, slot) ==
            match FirstWithSlot(ps, slot)
            case None => FirstWithSlot(rest, slot)
            case Some(p) => Some(Overridden(p, slot, image))
    decreases ps
  {
    var all := AllOverridden(ps, slot, image) + rest;
    if ps == [] {
      assert all == rest;
    } else {
      assert all[0] == Overridden(ps[0], slot, image);
      assert all[1..] == AllOverridden(ps[1..], slot, image) + rest;
      FirstOverridden(ps[1..], slot, image, rest);
    }
  }

  /**
   With the linked-in image written into the bootstrap slot, the store becomes ready exactly
   when it is sound, the slot was declared as the bootstrap service at offset 0, and the
   image's digest is not zero.
   */
  lemma ImageReadyIff(s: Store, image: Blob)
    requires Fits(WithImage(s, BOOTSTRAP_SLOT, image))
    ensures var r := WithImage(s, BOOTSTRAP_SLOT, image);
            var p := FirstWithSlot(s.payloads, BOOTSTRAP_SLOT);
            Ready(Encode(r), EncodedView(r), Checksum(r), image) <==>
              && Sound(r)
              && p.Some? && p.value.kind == BOOTSTRAP_SERVICE && p.value.imageOffset == 0
              && Fnv.Hash(Fnv.OFFSET_BASIS, image) != 0
  {
    hide Sound;
    hide Fnv.Hash;
    var r := WithImage(s, BOOTSTRAP_SLOT, image);
    ReadyIff(r, image);
    var rest := if FirstWithSlot(s.payloads, BOOTSTRAP_SLOT).Some? then []
                else [Payload(BOOTSTRAP_SLOT, FLAT_BINARY, 0, |image|, RecordedChecksum(image))];
    FirstOverridden(s.payloads, BOOTSTRAP_SLOT, image, rest);
    FoundHasSlot(s.payloads, BOOTSTRAP_SLOT);
    hide Ready;
  }

  lemma {:induction false} FoundHasSlot(ps: seq<Payload>, slot: u32)
    ensures FirstWithSlot(ps, slot).Some? ==> FirstWithSlot(ps, slot).value.slot == slot
    decreases ps
  {
    if ps != [] {
      FoundHasSlot(ps[1..], slot);
    }
  }

  // ---- an image whose digest is zero ----

  const ZERO_DIGEST_IMAGE: seq<u8> := [204, 36, 49, 196]

  lemma ZeroDigestSteps()
    ensures Steps(2166136261, 204, 36, 49, 196) == 0
  {
    hide Fnv.Xor8;
    hide Fnv.Step;
    assert Fnv.Step(2166136261, 204) == 1225471275 by {
      XorBits(1, 1, 0, 0, 0, 1, 0, 1, 1, 1, 0, 0, 1, 1, 0, 0);
      StepIs(8461469, 197, 204, 9);
    }
    assert Fnv.Step(1225471275, 36) == 195331741 by {
      XorBits(0, 0, 1, 0, 1, 0, 1, 1, 0, 0, 1, 0, 0, 1, 0, 0);
      StepIs(4786997, 43, 36, 15);
    }
    assert Fnv.Step(195331741, 49) == 196 by {
      XorBits(1, 0, 0, 1, 1, 1, 0, 1, 0, 0, 1, 1, 0, 0, 0, 1);
      StepIs(763014, 157, 49, 172);
    }
    assert Fnv.Step(196, 196) == 0 by {
      XorBits(1, 1, 0, 0, 0, 1, 0, 0, 1, 1, 0, 0, 0, 1, 0, 0);
      StepIs(0, 196, 196, 0);
    }
  }

  lemma ZeroDigest()
    ensures Fnv.Hash(Fnv.OFFSET_BASIS, ZERO_DIGEST_IMAGE) == 0
  {
    var a := ZERO_DIGEST_IMAGE;
    DigestNone(a);
    ZeroDigestSteps();
    assert a[..4] == a;
    assert DigestTo(a, 4) == Fnv.Hash(Fnv.OFFSET_BASIS, a);
    hide DigestTo;
    hide Steps;
    HashWord(a, 0, 204, 36, 49, 196);
  }

  /** A sound store with that image in its bootstrap slot, which never becomes ready. */
  lemma ZeroDigestRefused()
    ensures var s := Store(VERSION, [], [], [Payload(BOOTSTRAP_SLOT, BOOTSTRAP_SERVICE, 0, 1, 1)]);
            var r := WithImage(s, BOOTSTRAP_SLOT, ZERO_DIGEST_IMAGE);
            && Fits(r) && Sound(r)
            && !Ready(Encode(r), EncodedView(r), Checksum(r), ZERO_DIGEST_IMAGE)
  {
    hide Fnv.Hash;
    hide Ready;
    var p := Payload(BOOTSTRAP_SLOT, BOOTSTRAP_SERVICE, 0, 1, 1);
    var s := Store(VERSION, [], [], [p]);
    var r := WithImage(s, BOOTSTRAP_SLOT, ZERO_DIGEST_IMAGE);
    ZeroDigest();
    assert r.payloads == [Overridden(p, BOOTSTRAP_SLOT, ZERO_DIGEST_IMAGE)];
    assert Names(r) == [];
    ImageReadyIff(s, ZERO_DIGEST_IMAGE);
  }
}
