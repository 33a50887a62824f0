/**
 The package archive: a header of seven little-endian words, the signer, manifest and payload
 records, and a table of NUL-terminated strings. The functions here say what validation
 accepts and what the readers return; `PackageStore` is proved against them.
 */
module Archive {
  import opened Prelude
  import opened CStrings
  import Fnv

  const MAGIC: u32 := 0x504B4753
  const VERSION: u32 := 2
  const CHECKSUM_OFFSET: u32 := 24
  const HEADER_SIZE: u32 := 28
  const SIGNER_SIZE: u32 := 12
  const MANIFEST_SIZE: u32 := 92
  const PAYLOAD_SIZE: u32 := 20
  const BOOTSTRAP_SLOT: u32 := 1
  const BOOTSTRAP_SERVICE: u32 := 1
  const FLAT_BINARY: u32 := 2

  /** Bytes whose length is a machine word, as every build-time array's is. */
  type Blob = a: seq<u8> | |a| < 0x1_0000_0000

  type Text = seq<u8>

  datatype Signer = Signer(id: u32, name: Text, verificationToken: u32)

  datatype Manifest = Manifest(
    sourceSlot: u32,
    packageId: u32,
    packageName: Text,
    packageVersion: u32,
    signerId: u32,
    trustFlags: u32,
    launchAuthorityMask: u32,
    maxInstances: u32,
    executableId: u32,
    name: Text,
    processName: Text,
    profileName: Text,
    peerEndpointName: Text,
    policyEndpointName: Text,
    allowedEndpointRoleMask: u32,
    allowedServiceClassMask: u32,
    schedulerClass: u32,
    schedulerWeight: u32,
    schedulerLatencyTargetTicks: u32,
    schedulerIoWakeupDeadlineTicks: u32,
    capabilityAdmissionLimit: u32,
    launchRole: u32,
    payloadSlot: u32)

  datatype Payload = Payload(slot: u32, kind: u32, imageOffset: u32, imageSize: u32, imageChecksum: u32)

  /** What reading a manifest returns: its own fields and its payload's expected image. */
  datatype ManifestRecord = ManifestRecord(manifest: Manifest, expectedImageSize: u32, expectedImageChecksum: u32)

  datatype View = View(
    signerCount: u32,
    manifestCount: u32,
    payloadCount: u32,
    stringBytes: u32,
    archiveChecksum: u32,
    signersOffset: u32,
    manifestsOffset: u32,
    payloadsOffset: u32,
    stringsOffset: u32)

  const EMPTY_VIEW := View(0, 0, 0, 0, 0, 0, 0, 0, 0)

  // ---- words and checked arithmetic ----

  /** A little-endian word; the bytes do not overlap, so their shifted union is their sum. */
  function ReadU32(a: seq<u8>, at: nat): u32
    requires at + 4 <= |a|
  {
    var b0: int, b1: int, b2: int, b3: int := a[at], a[at + 1], a[at + 2], a[at + 3];
    b0 + 0x100 * b1 + 0x1_0000 * b2 + 0x100_0000 * b3
  }

  function Word(a: seq<u8>, at: nat, k: nat): u32
    requires at + 4 * k + 4 <= |a|
  {
    ReadU32(a, at + 4 * k)
  }

  function CheckedAdd(x: u32, y: u32): Option<u32> {
    if x + y > 0xFFFF_FFFF then None else Some(x + y)
  }

  function CheckedMul(x: u32, y: u32): Option<u32> {
    if 0 <= x * y <= 0xFFFF_FFFF then Some(x * y) else None
  }

  // ---- checksum ----

  /** The archive with the four checksum bytes read as zero. */
  function Masked(a: seq<u8>): (m: seq<u8>)
    ensures |m| == |a|
  {
    seq(|a|, i requires 0 <= i < |a| => if CHECKSUM_OFFSET <= i < CHECKSUM_OFFSET + 4 then 0 else a[i])
  }

  function MaskedHash(a: seq<u8>): u32 {
    Fnv.Hash(Fnv.OFFSET_BASIS, Masked(a))
  }

  // ---- layout ----

  /** Where the section after `count` records of `size` bytes at `base` starts. */
  function SectionEnd(base: u32, count: u32, size: u32): Option<u32> {
    match CheckedMul(count, size)
    case None => None
    case Some(bytes) => CheckedAdd(base, bytes)
  }

  function Header(a: seq<u8>, k: nat): u32
    requires |a| >= HEADER_SIZE && k < 7
  {
    Word(a, 0, k)
  }

  /** The view that the layout part of validation computes, or none. */
  function Layout(a: Blob): Option<View> {
    if |a| < HEADER_SIZE || Header(a, 0) != MAGIC || Header(a, 1) != VERSION then None
    else
      match SectionEnd(HEADER_SIZE, Header(a, 2), SIGNER_SIZE)
      case None => None
      case Some(manifests) =>
        match SectionEnd(manifests, Header(a, 3), MANIFEST_SIZE)
        case None => None
        case Some(payloads) =>
          match SectionEnd(payloads, Header(a, 4), PAYLOAD_SIZE)
          case None => None
          case Some(strings) =>
            if CheckedAdd(strings, Header(a, 5)) != Some(|a|) then None
            else Some(View(Header(a, 2), Header(a, 3), Header(a, 4), Header(a, 5), Header(a, 6),
                           HEADER_SIZE, manifests, payloads, strings))
  }

  /** The view describes the archive: its sections tile the bytes from the header to the end. */
  predicate IsLayout(a: Blob, v: View) {
    && |a| >= HEADER_SIZE
    && Header(a, 0) == MAGIC && Header(a, 1) == VERSION
    && v.signerCount == Header(a, 2) && v.manifestCount == Header(a, 3)
    && v.payloadCount == Header(a, 4) && v.stringBytes == Header(a, 5)
    && v.archiveChecksum == Header(a, 6)
    && v.signersOffset == HEADER_SIZE
    && v.manifestsOffset == v.signersOffset + SIGNER_SIZE * v.signerCount
    && v.payloadsOffset == v.manifestsOffset + MANIFEST_SIZE * v.manifestCount
    && v.stringsOffset == v.payloadsOffset + PAYLOAD_SIZE * v.payloadCount
    && |a| == v.stringsOffset + v.stringBytes
  }

  // ---- records ----

  /** The checked address of record `index` of a section, as the three `_bytes` helpers compute it. */
  function RecordAt(a: Blob, base: u32, count: u32, size: u32, index: u32): Option<u32> {
    if index >= count then None
    else
      match SectionEnd(base, index, size)
      case None => None
      case Some(at) => if WrapAdd(at, size) > |a| then None else Some(at)
  }

  function SignerWord(a: Blob, v: View, i: nat, k: nat): u32
    requires IsLayout(a, v) && i < v.signerCount && k < 3
  {
    Word(a, v.signersOffset + SIGNER_SIZE * i, k)
  }

  function ManifestWord(a: Blob, v: View, i: nat, k: nat): u32
    requires IsLayout(a, v) && i < v.manifestCount && k < 23
  {
    Word(a, v.manifestsOffset + MANIFEST_SIZE * i, k)
  }

  function PayloadWord(a: Blob, v: View, i: nat, k: nat): u32
    requires IsLayout(a, v) && i < v.payloadCount && k < 5
  {
    Word(a, v.payloadsOffset + PAYLOAD_SIZE * i, k)
  }

  function StringTable(a: Blob, v: View): (t: seq<u8>)
    requires IsLayout(a, v)
    ensures |t| == v.stringBytes
  {
    a[v.stringsOffset..]
  }

  /** The C string at an offset of a table, if the offset is inside and a NUL follows. */
  function TextIn(table: seq<u8>, offset: nat): Option<Text> {
    if offset < |table| && 0 in table[offset..] then Some(CText(table[offset..])) else None
  }

  function TextAt(a: Blob, v: View, offset: nat): Option<Text>
    requires IsLayout(a, v)
  {
    TextIn(StringTable(a, v), offset)
  }

  function PayloadAt(a: Blob, v: View, i: nat): Payload
    requires IsLayout(a, v) && i < v.payloadCount
  {
    Payload(PayloadWord(a, v, i, 0), PayloadWord(a, v, i, 1), PayloadWord(a, v, i, 2),
            PayloadWord(a, v, i, 3), PayloadWord(a, v, i, 4))
  }

  /** The first payload record with the slot, at or after index `from`. */
  function FindFrom(a: Blob, v: View, slot: u32, from: nat): Option<Payload>
    requires IsLayout(a, v) && from <= v.payloadCount
    decreases v.payloadCount - from
  {
    if from == v.payloadCount then None
    else if PayloadWord(a, v, from, 0) == slot then Some(PayloadAt(a, v, from))
    else FindFrom(a, v, slot, from + 1)
  }

  function FindPayload(a: Blob, v: View, slot: u32): Option<Payload>
    requires IsLayout(a, v)
  {
    FindFrom(a, v, slot, 0)
  }

  // ---- readers ----

  function ReadSigner(a: Blob, v: View, i: nat): Option<Signer>
    requires IsLayout(a, v)
  {
    if i >= v.signerCount then None
    else
      match TextAt(a, v, SignerWord(a, v, i, 1))
      case None => None
      case Some(name) => Some(Signer(SignerWord(a, v, i, 0), name, SignerWord(a, v, i, 2)))
  }

  function ManifestText(a: Blob, v: View, i: nat, k: nat): Option<Text>
    requires IsLayout(a, v) && i < v.manifestCount && k < 23
  {
    TextAt(a, v, ManifestWord(a, v, i, k))
  }

  predicate ManifestTexts(a: Blob, v: View, i: nat)
    requires IsLayout(a, v) && i < v.manifestCount
  {
    && ManifestText(a, v, i, 2).Some?
    && ManifestText(a, v, i, 9).Some?
    && ManifestText(a, v, i, 10).Some?
    && ManifestText(a, v, i, 11).Some?
    && ManifestText(a, v, i, 12).Some?
    && ManifestText(a, v, i, 13).Some?
  }

  function ManifestAt(a: Blob, v: View, i: nat): Manifest
    requires IsLayout(a, v) && i < v.manifestCount && ManifestTexts(a, v, i)
  {
    Manifest(
      ManifestWord(a, v, i, 0), ManifestWord(a, v, i, 1), ManifestText(a, v, i, 2).value,
      ManifestWord(a, v, i, 3), ManifestWord(a, v, i, 4), ManifestWord(a, v, i, 5),
      ManifestWord(a, v, i, 6), ManifestWord(a, v, i, 7), ManifestWord(a, v, i, 8),
      ManifestText(a, v, i, 9).value, ManifestText(a, v, i, 10).value, ManifestText(a, v, i, 11).value,
      ManifestText(a, v, i, 12).value, ManifestText(a, v, i, 13).value,
      ManifestWord(a, v, i, 14), ManifestWord(a, v, i, 15), ManifestWord(a, v, i, 16),
      ManifestWord(a, v, i, 17), ManifestWord(a, v, i, 18), ManifestWord(a, v, i, 19),
      ManifestWord(a, v, i, 20), ManifestWord(a, v, i, 21), ManifestWord(a, v, i, 22))
  }

  function ReadManifest(a: Blob, v: View, i: nat): Option<ManifestRecord>
    requires IsLayout(a, v)
  {
    if i >= v.manifestCount || !ManifestTexts(a, v, i) then None
    else
      match FindPayload(a, v, ManifestWord(a, v, i, 22))
      case None => None
      case Some(p) => Some(ManifestRecord(ManifestAt(a, v, i), p.imageSize, p.imageChecksum))
  }

  /** The image bytes behind a payload slot: only the linked-in bootstrap image can be reached. */
  function ReadPayload(a: Blob, v: View, image: Blob, slot: u32): Option<seq<u8>>
    requires IsLayout(a, v)
  {
    match FindPayload(a, v, slot)
    case None => None
    case Some(p) =>
      if slot == BOOTSTRAP_SLOT && p.kind == BOOTSTRAP_SERVICE then
        match CheckedAdd(p.imageOffset, p.imageSize)
        case None => None
        case Some(end) => if end > |image| then None else Some(image[p.imageOffset..end])
      else None
  }

  // ---- validation ----

  predicate PayloadOk(p: Payload) {
    && p.slot != 0
    && (p.kind == BOOTSTRAP_SERVICE || p.kind == FLAT_BINARY)
    && p.imageSize != 0
    && p.imageChecksum != 0
  }

  predicate SignersOk(a: Blob, v: View)
    requires IsLayout(a, v)
  {
    forall i :: 0 <= i < v.signerCount ==> ReadSigner(a, v, i).Some?
  }

  predicate PayloadsOk(a: Blob, v: View)
    requires IsLayout(a, v)
  {
    forall i :: 0 <= i < v.payloadCount ==> PayloadOk(PayloadAt(a, v, i))
  }

  predicate ManifestsOk(a: Blob, v: View)
    requires IsLayout(a, v)
  {
    forall i :: 0 <= i < v.manifestCount ==> ReadManifest(a, v, i).Some?
  }

  /** The archive passes validation against the checksum fixed at build time. */
  predicate Validated(a: Blob, v: View, checksum: u32) {
    && IsLayout(a, v)
    && MaskedHash(a) == v.archiveChecksum
    && MaskedHash(a) == checksum
    && SignersOk(a, v) && PayloadsOk(a, v) && ManifestsOk(a, v)
  }

  /** The payload record describes the whole linked-in image. */
  predicate Describes(p: Payload, image: Blob) {
    && p.kind == BOOTSTRAP_SERVICE
    && p.imageOffset == 0
    && p.imageSize == |image|
    && p.imageChecksum == Fnv.Hash(Fnv.OFFSET_BASIS, image)
  }

  /** The store becomes ready: the archive validates and its bootstrap payload is the image. */
  predicate Ready(a: Blob, v: View, checksum: u32, image: Blob) {
    && Validated(a, v, checksum)
    && var p := FindPayload(a, v, BOOTSTRAP_SLOT); p.Some? && Describes(p.value, image)
  }

  // ---- what layout and validation buy the readers ----

  /** Layout succeeds exactly when the sections tile the archive; no sum or product overflowed. */
  lemma LayoutIff(a: Blob, v: View)
    ensures Layout(a) == Some(v) <==> IsLayout(a, v)
  {
  }

  /** Inside a section that fits, the checked address is the plain one, for every index. */
  lemma RecordsTotal(a: Blob, base: u32, count: u32, size: u32, index: u32)
    requires base + count * size <= |a|
    ensures RecordAt(a, base, count, size, index) == if index < count then Some(base + index * size) else None
    ensures index < count ==> base + index * size + size <= base + count * size
  {
    if index < count {
      assert (index + 1) * size <= count * size;
    }
  }

  /** A text that is found lies inside the table, is followed by its NUL, and holds none. */
  lemma TextInside(table: seq<u8>, offset: nat)
    ensures match TextIn(table, offset)
            case None => forall k :: offset <= k < |table| ==> table[k] != 0
            case Some(t) =>
              && offset + |t| < |table|
              && t == table[offset..offset + |t|]
              && table[offset + |t|] == 0
              && NonZero(t)
  {
    if offset < |table| {
      var rest := table[offset..];
      CTextNonZero(rest);
      if 0 !in rest {
        forall k | offset <= k < |table|
          ensures table[k] != 0
        {
          assert table[k] == rest[k - offset];
        }
      }
    }
  }

  /** Where a NUL follows, there is a text; `StringTable` is the end of the archive. */
  lemma TextFound(a: Blob, v: View, offset: nat, index: nat)
    requires IsLayout(a, v) && offset <= index < v.stringBytes && a[v.stringsOffset + index] == 0
    ensures TextAt(a, v, offset) == Some(CText(a[v.stringsOffset + offset..]))
  {
    hide CText;
    var rest := StringTable(a, v)[offset..];
    assert rest == a[v.stringsOffset + offset..];
    assert rest[index - offset] == 0;
  }

  lemma TextMissing(a: Blob, v: View, offset: nat)
    requires IsLayout(a, v)
    requires forall k :: v.stringsOffset + offset <= k < |a| ==> a[k] != 0
    ensures TextAt(a, v, offset) == None
  {
    hide CText;
    if offset < v.stringBytes {
      assert StringTable(a, v)[offset..] == a[v.stringsOffset + offset..];
    }
  }

  /** The slot search returns the first matching record, and fails only if there is none. */
  lemma {:induction false} FindFirst(a: Blob, v: View, slot: u32, from: nat) returns (i: nat)
    requires IsLayout(a, v) && from <= v.payloadCount
    ensures from <= i <= v.payloadCount
    ensures forall j :: from <= j < i ==> PayloadAt(a, v, j).slot != slot
    ensures FindFrom(a, v, slot, from) == if i < v.payloadCount then Some(PayloadAt(a, v, i)) else None
    ensures i < v.payloadCount ==> PayloadAt(a, v, i).slot == slot
    decreases v.payloadCount - from
  {
    if from == v.payloadCount || PayloadWord(a, v, from, 0) == slot {
      i := from;
    } else {
      i := FindFirst(a, v, slot, from + 1);
    }
  }

  /** Once validated, every index below a count reads, and no other does. */
  lemma ReadsAreTotal(a: Blob, v: View, checksum: u32, i: nat)
    requires Validated(a, v, checksum)
    ensures ReadSigner(a, v, i).Some? <==> i < v.signerCount
    ensures ReadManifest(a, v, i).Some? <==> i < v.manifestCount
    ensures i < v.manifestCount ==>
              var m := ReadManifest(a, v, i).value;
              m.expectedImageSize != 0 && m.expectedImageChecksum != 0 && m.manifest.payloadSlot != 0
  {
    if i < v.manifestCount {
      assert ReadManifest(a, v, i).Some?;
      var j := FindFirst(a, v, ManifestWord(a, v, i, 22), 0);
    }
  }

  /** Once ready, the bootstrap slot yields exactly the linked-in image and every other slot nothing. */
  lemma ReadyPayloads(a: Blob, v: View, checksum: u32, image: Blob, slot: u32)
    requires Ready(a, v, checksum, image)
    ensures ReadPayload(a, v, image, slot) == if slot == BOOTSTRAP_SLOT then Some(image) else None
  {
    hide IsLayout;
    hide Validated;
    hide FindPayload;
    if slot == BOOTSTRAP_SLOT {
      assert image[0..|image|] == image;
    }
  }

  /** An image whose digest is zero can never be the payload of a ready store. */
  lemma ReadyDigestNonZero(a: Blob, v: View, checksum: u32, image: Blob)
    ensures Ready(a, v, checksum, image) ==> image != [] && Fnv.Hash(Fnv.OFFSET_BASIS, image) != 0
  {
    if Ready(a, v, checksum, image) {
      var i := FindFirst(a, v, BOOTSTRAP_SLOT, 0);
      assert PayloadOk(PayloadAt(a, v, i));
    }
  }

  // ---- record addresses ----

  function SignerBytes(a: Blob, v: View, index: u32): (at: Option<u32>)
    requires IsLayout(a, v)
    ensures at == if index < v.signerCount then Some(v.signersOffset + SIGNER_SIZE * index) else None
    ensures at.Some? ==> at.value + SIGNER_SIZE <= v.manifestsOffset <= |a|
  {
    RecordsTotal(a, v.signersOffset, v.signerCount, SIGNER_SIZE, index);
    RecordAt(a, v.signersOffset, v.signerCount, SIGNER_SIZE, index)
  }

  function ManifestBytes(a: Blob, v: View, index: u32): (at: Option<u32>)
    requires IsLayout(a, v)
    ensures at == if index < v.manifestCount then Some(v.manifestsOffset + MANIFEST_SIZE * index) else None
    ensures at.Some? ==> at.value + MANIFEST_SIZE <= v.payloadsOffset <= |a|
  {
    RecordsTotal(a, v.manifestsOffset, v.manifestCount, MANIFEST_SIZE, index);
    RecordAt(a, v.manifestsOffset, v.manifestCount, MANIFEST_SIZE, index)
  }

  function PayloadBytes(a: Blob, v: View, index: u32): (at: Option<u32>)
    requires IsLayout(a, v)
    ensures at == if index < v.payloadCount then Some(v.payloadsOffset + PAYLOAD_SIZE * index) else None
    ensures at.Some? ==> at.value + PAYLOAD_SIZE <= v.stringsOffset <= |a|
  {
    RecordsTotal(a, v.payloadsOffset, v.payloadCount, PAYLOAD_SIZE, index);
    RecordAt(a, v.payloadsOffset, v.payloadCount, PAYLOAD_SIZE, index)
  }
}
