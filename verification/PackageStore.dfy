/**
 The package store: a view of the linked-in archive that validation fills step by step, and
 readers that rely on one earlier validation. Every method is proved against `Archive`.
 */
module PackageStore {
  import opened Prelude
  import opened CStrings
  import opened Archive
  import ArchiveBytes
  import Fnv

  class PackageStore {
    /** The generated archive, its generated checksum, and the linked-in bootstrap image. */
    const archive: Blob
    const expectedChecksum: u32
    const image: Blob

    var view: View
    var imageSize: u32
    var imageDigest: u32
    var ready: bool

    /** What the readers rely on. */
    ghost predicate Readable()
      reads this
    {
      ready ==> IsLayout(archive, view) && imageSize == |image|
    }

    constructor (archive: Blob, expectedChecksum: u32, image: Blob)
      ensures this.archive == archive && this.expectedChecksum == expectedChecksum && this.image == image
      ensures !ready && view == EMPTY_VIEW && imageSize == 0 && imageDigest == 0
      ensures Readable()
    {
      this.archive := archive;
      this.expectedChecksum := expectedChecksum;
      this.image := image;
      view := EMPTY_VIEW;
      imageSize := 0;
      imageDigest := 0;
      ready := false;
    }

    // ---- hashes ----

    method HashImage() returns (digest: u32)
      ensures digest == Fnv.Hash(Fnv.OFFSET_BASIS, image)
    {
      hide Fnv.XorByte;
      hide Fnv.TimesPrime;
      digest := Fnv.OFFSET_BASIS;
      var index := 0;
      while index < |image|
        invariant index <= |image|
        invariant Fnv.Hash(Fnv.OFFSET_BASIS, image) == Fnv.Hash(digest, image[index..])
      {
        assert image[index..][1..] == image[index + 1..];
        digest := Fnv.TimesPrime(Fnv.XorByte(digest, image[index]));
        index := index + 1;
      }
    }

    method HashArchive() returns (digest: u32)
      ensures digest == MaskedHash(archive)
    {
      hide Fnv.XorByte;
      hide Fnv.TimesPrime;
      ghost var masked := Masked(archive);
      digest := Fnv.OFFSET_BASIS;
      var index := 0;
      while index < |archive|
        invariant index <= |archive|
        invariant Fnv.Hash(Fnv.OFFSET_BASIS, masked) == Fnv.Hash(digest, masked[index..])
      {
        var value := archive[index];
        if CHECKSUM_OFFSET <= index && index < CHECKSUM_OFFSET + 4 {
          value := 0;
        }
        assert masked[index] == value && masked[index..][1..] == masked[index + 1..];
        digest := Fnv.TimesPrime(Fnv.XorByte(digest, value));
        index := index + 1;
      }
    }

    // ---- strings and slots ----

    /** The address of the string at a table offset, when a NUL ends it inside the table. */
    method String(offset: u32) returns (at: Option<nat>)
      requires IsLayout(archive, view)
      ensures at.Some? <==> TextAt(archive, view, offset).Some?
      ensures at.Some? ==> at.value == view.stringsOffset + offset <= |archive|
      ensures at.Some? ==> TextAt(archive, view, offset) == Some(CText(archive[at.value..]))
    {
      assert view.stringsOffset + view.stringBytes == |archive|;
      hide IsLayout;
      hide TextAt;
      var base := WrapAdd(view.stringsOffset, offset);
      if offset >= view.stringBytes || base >= |archive| {
        TextMissing(archive, view, offset);
        return None;
      }
      var index := offset;
      while index < view.stringBytes
        invariant offset <= index <= view.stringBytes
        invariant forall k :: view.stringsOffset + offset <= k < view.stringsOffset + index ==> archive[k] != 0
      {
        if archive[view.stringsOffset + index] == 0 {
          TextFound(archive, view, offset, index);
          return Some(base);
        }
        index := index + 1;
      }
      TextMissing(archive, view, offset);
      return None;
    }

    method FindPayloadSlot(slot: u32) returns (p: Option<Payload>)
      requires IsLayout(archive, view)
      ensures p == FindPayload(archive, view, slot)
    {
      hide IsLayout;
      var index := 0;
      while index < view.payloadCount
        invariant index <= view.payloadCount
        invariant FindPayload(archive, view, slot) == FindFrom(archive, view, slot, index)
      {
        var record := PayloadBytes(archive, view, index);
        if record.Some? && Word(archive, record.value, 0) == slot {
          return Some(Payload(Word(archive, record.value, 0), Word(archive, record.value, 1),
                              Word(archive, record.value, 2), Word(archive, record.value, 3),
                              Word(archive, record.value, 4)));
        }
        index := index + 1;
      }
      return None;
    }

    // ---- validation ----

    method Fail()
      modifies `view, `ready
      ensures view == EMPTY_VIEW && !ready
    {
      ready := false;
      view := EMPTY_VIEW;
    }

    /** Header, section offsets and extent. */
    method LayOut() returns (ok: bool)
      modifies `view, `ready
      ensures ok <==> Layout(archive).Some?
      ensures ok ==> Layout(archive) == Some(view) && IsLayout(archive, view) && ready == old(ready)
      ensures !ok ==> view == EMPTY_VIEW && !ready
    {
      if |archive| < HEADER_SIZE {
        Fail();
        return false;
      }
      view := view.(signerCount := Header(archive, 2), manifestCount := Header(archive, 3),
                    payloadCount := Header(archive, 4), stringBytes := Header(archive, 5),
                    archiveChecksum := Header(archive, 6));
      if Header(archive, 0) != MAGIC || Header(archive, 1) != VERSION {
        Fail();
        return false;
      }
      view := view.(signersOffset := HEADER_SIZE);
      var manifests := SectionEnd(view.signersOffset, view.signerCount, SIGNER_SIZE);
      if manifests.None? {
        Fail();
        return false;
      }
      view := view.(manifestsOffset := manifests.value);
      var payloads := SectionEnd(view.manifestsOffset, view.manifestCount, MANIFEST_SIZE);
      if payloads.None? {
        Fail();
        return false;
      }
      view := view.(payloadsOffset := payloads.value);
      var strings := SectionEnd(view.payloadsOffset, view.payloadCount, PAYLOAD_SIZE);
      if strings.None? {
        Fail();
        return false;
      }
      view := view.(stringsOffset := strings.value);
      if CheckedAdd(view.stringsOffset, view.stringBytes) != Some(|archive|) {
        Fail();
        return false;
      }
      LayoutIff(archive, view);
      return true;
    }

    method CheckSigners() returns (ok: bool)
      requires IsLayout(archive, view)
      ensures ok <==> SignersOk(archive, view)
    {
      hide IsLayout;
      hide TextAt;
      var index := 0;
      while index < view.signerCount
        invariant index <= view.signerCount
        invariant forall i :: 0 <= i < index ==> Archive.ReadSigner(archive, view, i).Some?
      {
        var record := SignerBytes(archive, view, index);
        var name: Option<nat> := None;
        if record.Some? {
          name := String(Word(archive, record.value, 1));
        }
        assert name.Some? <==> Archive.ReadSigner(archive, view, index).Some?;
        if name.None? {
          return false;
        }
        index := index + 1;
      }
      return true;
    }

    method CheckPayloads() returns (ok: bool)
      requires IsLayout(archive, view)
      ensures ok <==> PayloadsOk(archive, view)
    {
      hide IsLayout;
      var index := 0;
      while index < view.payloadCount
        invariant index <= view.payloadCount
        invariant forall i :: 0 <= i < index ==> PayloadOk(PayloadAt(archive, view, i))
      {
        var record := PayloadBytes(archive, view, index);
        var sound := false;
        if record.Some? {
          var slot, kind := Word(archive, record.value, 0), Word(archive, record.value, 1);
          var size, digest := Word(archive, record.value, 3), Word(archive, record.value, 4);
          sound := slot != 0 && (kind == BOOTSTRAP_SERVICE || kind == FLAT_BINARY) && size != 0 && digest != 0;
        }
        assert sound <==> PayloadOk(PayloadAt(archive, view, index));
        if !sound {
          return false;
        }
        index := index + 1;
      }
      return true;
    }

    /** The text named by word `k` of the record at an address. */
    method TextField(record: u32, k: nat) returns (t: Option<Text>)
      requires IsLayout(archive, view) && record + 4 * k + 4 <= |archive|
      ensures t == TextAt(archive, view, Word(archive, record, k))
    {
      hide IsLayout;
      hide TextAt;
      var at := String(Word(archive, record, k));
      if at.None? {
        return None;
      }
      return Some(CText(archive[at.value..]));
    }

    method CheckManifest(index: u32) returns (ok: bool)
      requires IsLayout(archive, view) && index < view.manifestCount
      ensures ok <==> Archive.ReadManifest(archive, view, index).Some?
    {
      hide IsLayout;
      hide TextAt;
      hide FindPayload;
      hide ReadU32;
      var record := ManifestBytes(archive, view, index);
      ok := false;
      if record.Some? {
        var packageName := TextField(record.value, 2);
        var name := TextField(record.value, 9);
        var processName := TextField(record.value, 10);
        var profileName := TextField(record.value, 11);
        var peerName := TextField(record.value, 12);
        var policyName := TextField(record.value, 13);
        var payload := FindPayloadSlot(Word(archive, record.value, 22));
        ok := packageName.Some? && name.Some? && processName.Some? && profileName.Some? && peerName.Some?
              && policyName.Some? && payload.Some?;
      }
    }

    method CheckManifests() returns (ok: bool)
      requires IsLayout(archive, view)
      ensures ok <==> ManifestsOk(archive, view)
    {
      hide IsLayout;
      hide Archive.ReadManifest;
      var index := 0;
      while index < view.manifestCount
        invariant index <= view.manifestCount
        invariant forall i :: 0 <= i < index ==> Archive.ReadManifest(archive, view, i).Some?
      {
        var sound := CheckManifest(index);
        if !sound {
          return false;
        }
        index := index + 1;
      }
      return true;
    }

    /** Succeeds exactly on the archives that `Validated` describes, with their view. */
    method Validate() returns (ok: bool)
      modifies `view, `ready
      ensures ok <==> Layout(archive).Some? && Validated(archive, Layout(archive).value, expectedChecksum)
      ensures ok <==> ArchiveBytes.Accepted(archive, expectedChecksum)
      ensures ok ==> Layout(archive) == Some(view) && ready == old(ready)
      ensures !ok ==> view == EMPTY_VIEW && !ready
    {
      ArchiveBytes.StoreAcceptedIff(archive, expectedChecksum);
      hide ArchiveBytes.Accepted;
      ok := LayOut();
      if !ok {
        return;
      }
      hide Layout;
      hide IsLayout;
      hide MaskedHash;
      hide SignersOk;
      hide PayloadsOk;
      hide ManifestsOk;
      var checksum := HashArchive();
      ok := checksum == view.archiveChecksum && checksum == expectedChecksum;
      if ok {
        ok := CheckSigners();
      }
      if ok {
        ok := CheckPayloads();
      }
      if ok {
        ok := CheckManifests();
      }
      if !ok {
        Fail();
      }
    }

    /** The store is ready exactly when the archive validates and describes the linked-in image. */
    method Init()
      modifies this
      ensures ready <==>
              Layout(archive).Some? && Ready(archive, Layout(archive).value, expectedChecksum, image)
      ensures ready <==>
              ArchiveBytes.Accepted(archive, expectedChecksum)
              && exists i: nat :: ArchiveBytes.IsImage(archive, image, i)
      ensures ready ==> Layout(archive) == Some(view) && Ready(archive, view, expectedChecksum, image)
      ensures !ready ==> view == EMPTY_VIEW
      ensures if Layout(archive).Some? && Validated(archive, Layout(archive).value, expectedChecksum)
              then imageSize == |image| && imageDigest == Fnv.Hash(Fnv.OFFSET_BASIS, image)
              else imageSize == old(imageSize) && imageDigest == old(imageDigest)
      ensures Readable()
    {
      hide Layout;
      hide IsLayout;
      hide FindPayload;
      ArchiveBytes.StoreReadyIff(archive, expectedChecksum, image);
      hide ArchiveBytes.Accepted, ArchiveBytes.IsImage;
      view := EMPTY_VIEW;
      ready := false;
      var valid := Validate();
      if !valid {
        return;
      }
      imageSize := |image|;
      imageDigest := HashImage();
      var p := FindPayloadSlot(BOOTSTRAP_SLOT);
      if p.None? || p.value.kind != BOOTSTRAP_SERVICE || p.value.imageOffset != 0
         || p.value.imageSize != imageSize || p.value.imageChecksum != imageDigest {
        Fail();
        return;
      }
      ready := true;
    }

    // ---- readers ----

    method ReadSigner(index: u32) returns (r: Option<Signer>)
      requires Readable()
      ensures r == if ready then Archive.ReadSigner(archive, view, index) else None
    {
      if !ready {
        return None;
      }
      hide IsLayout;
      hide TextAt;
      hide ReadU32;
      var record := SignerBytes(archive, view, index);
      if record.None? {
        return None;
      }
      var name := TextField(record.value, 1);
      if name.None? {
        return None;
      }
      return Some(Signer(Word(archive, record.value, 0), name.value, Word(archive, record.value, 2)));
    }

    /** The fields of the manifest record at an address. */
    method DecodeManifest(ghost index: nat, at: u32) returns (m: Option<Manifest>)
      requires IsLayout(archive, view) && index < view.manifestCount
      requires at == view.manifestsOffset + MANIFEST_SIZE * index && at + MANIFEST_SIZE <= |archive|
      ensures m == if ManifestTexts(archive, view, index) then Some(ManifestAt(archive, view, index)) else None
    {
      hide IsLayout;
      hide TextAt;
      hide Word;
      var packageName := TextField(at, 2);
      var name := TextField(at, 9);
      var processName := TextField(at, 10);
      var profileName := TextField(at, 11);
      var peerName := TextField(at, 12);
      var policyName := TextField(at, 13);
      if packageName.None? || name.None? || processName.None? || profileName.None?
         || peerName.None? || policyName.None? {
        return None;
      }
      m := Some(Manifest(
        Word(archive, at, 0), Word(archive, at, 1), packageName.value, Word(archive, at, 3),
        Word(archive, at, 4), Word(archive, at, 5), Word(archive, at, 6), Word(archive, at, 7),
        Word(archive, at, 8), name.value, processName.value, profileName.value, peerName.value,
        policyName.value, Word(archive, at, 14), Word(archive, at, 15), Word(archive, at, 16),
        Word(archive, at, 17), Word(archive, at, 18), Word(archive, at, 19), Word(archive, at, 20),
        Word(archive, at, 21), Word(archive, at, 22)));
    }

    method ReadManifest(index: u32) returns (r: Option<ManifestRecord>)
      requires Readable()
      ensures r == if ready then Archive.ReadManifest(archive, view, index) else None
    {
      if !ready {
        return None;
      }
      hide IsLayout;
      hide FindPayload;
      hide ManifestTexts;
      hide ManifestAt;
      var record := ManifestBytes(archive, view, index);
      if record.None? {
        return None;
      }
      var m := DecodeManifest(index, record.value);
      var payload := FindPayloadSlot(Word(archive, record.value, 22));
      if payload.None? || m.None? {
        return None;
      }
      return Some(ManifestRecord(m.value, payload.value.imageSize, payload.value.imageChecksum));
    }

    method ReadPayload(slot: u32) returns (bytes: Option<seq<u8>>)
      requires Readable()
      ensures bytes == if ready then Archive.ReadPayload(archive, view, image, slot) else None
    {
      if !ready {
        return None;
      }
      hide IsLayout;
      hide FindPayload;
      var p := FindPayloadSlot(slot);
      if p.None? {
        return None;
      }
      if slot == BOOTSTRAP_SLOT && p.value.kind == BOOTSTRAP_SERVICE {
        var end := CheckedAdd(p.value.imageOffset, p.value.imageSize);
        if end.None? || end.value > imageSize {
          return None;
        }
        return Some(image[p.value.imageOffset..end.value]);
      }
      return None;
    }
  }
}
