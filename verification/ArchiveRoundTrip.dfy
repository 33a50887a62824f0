/**
 Reading an archive back: validation accepts exactly the sound stores, and the readers return
 the records that were written, each name in the spelling under which it was stored.
 */
module ArchiveRoundTrip {
  import opened Prelude
  import opened CStrings
  import opened Archive
  import opened ArchiveEncode
  import Fnv

  // ---- the string table ----

  ghost predicate HasKey(names: seq<Text>, key: Text) {
    exists i :: 0 <= i < |names| && Fold(names[i]) == key
  }

  /** The first name that equals `t` when case is ignored. */
  function Spelling(names: seq<Text>, t: Text): Text {
    if names == [] then t
    else if Fold(names[0]) == Fold(t) then names[0]
    else Spelling(names[1..], t)
  }

  lemma {:induction false} SpellingSnoc(names: seq<Text>, x: Text, t: Text)
    ensures Spelling(names + [x], t) ==
            if HasKey(names, Fold(t)) then Spelling(names, t) else if Fold(x) == Fold(t) then x else t
    decreases names
  {
    if names == [] {
      assert names + [x] == [x];
    } else {
      assert (names + [x])[1..] == names[1..] + [x];
      SpellingSnoc(names[1..], x, t);
      assert forall i :: 0 <= i < |names[1..]| ==> names[1..][i] == names[i + 1];
      assert HasKey(names, Fold(t)) <==> Fold(names[0]) == Fold(t) || HasKey(names[1..], Fold(t)) by {
        if HasKey(names, Fold(t)) {
          var i :| 0 <= i < |names| && Fold(names[i]) == Fold(t);
          assert i == 0 || Fold(names[1..][i - 1]) == Fold(t);
        }
      }
    }
  }

  lemma HasKeySnoc(names: seq<Text>, key: Text)
    requires names != []
    ensures HasKey(names, key) <==>
            HasKey(names[..|names| - 1], key) || Fold(names[|names| - 1]) == key
  {
    var n := |names| - 1;
    if HasKey(names[..n], key) {
      var i :| 0 <= i < n && Fold(names[..n][i]) == key;
      assert Fold(names[i]) == key;
    }
    if HasKey(names, key) {
      var i :| 0 <= i < |names| && Fold(names[i]) == key;
      assert i == n || Fold(names[..n][i]) == key;
    }
  }

  lemma {:induction false} PoolKeys(names: seq<Text>, key: Text)
    ensures key in InternAll(names).offsets <==> HasKey(names, key)
  {
    if names != [] {
      PoolKeys(names[..|names| - 1], key);
      HasKeySnoc(names, key);
    }
  }

  /** A spelled text sits in the bytes at an offset, its NUL behind it. */
  predicate Holds(bytes: seq<u8>, at: nat, t: Text) {
    at + |t| < |bytes| && bytes[at..at + |t|] == t && bytes[at + |t|] == 0
  }

  lemma {:induction false} PoolHolds(names: seq<Text>, t: Text)
    requires HasKey(names, Fold(t))
    ensures Fold(t) in InternAll(names).offsets
    ensures Holds(InternAll(names).bytes, InternAll(names).offsets[Fold(t)], Spelling(names, t))
  {
    hide Fold;
    var n := |names| - 1;
    var before, x := names[..n], names[n];
    assert names == before + [x];
    var q, p := InternAll(before), InternAll(names);
    PoolKeys(before, Fold(t));
    PoolKeys(before, Fold(x));
    HasKeySnoc(names, Fold(t));
    SpellingSnoc(before, x, t);
    if HasKey(before, Fold(t)) {
      PoolHolds(before, t);
      var at, s := q.offsets[Fold(t)], Spelling(before, t);
      assert p.bytes[..|q.bytes|] == q.bytes;
      assert p.bytes[at..at + |s|] == q.bytes[at..at + |s|];
    } else {
      var at := |q.bytes|;
      assert p.bytes == q.bytes + (x + [0]);
      assert p.bytes[at..at + |x|] == x;
    }
  }

  lemma HeldTextReads(bytes: seq<u8>, at: nat, t: Text)
    requires Holds(bytes, at, t)
    ensures TextIn(bytes, at) == Some(CText(t))
  {
    var rest := bytes[at..];
    assert rest == t + [0] + rest[|t| + 1..];
    CTextStops(t, rest[|t| + 1..]);
    assert rest[|t|] == 0;
  }

  /** What is left of a name once stored: the first spelling, up to a NUL. */
  function Kept(s: Store, t: Text): Text {
    CText(Spelling(Names(s), t))
  }

  lemma SignerNameStored(s: Store, i: nat)
    requires i < |s.signers|
    ensures s.signers[i].name in Names(s)
  {
    assert Names(s)[i] == s.signers[i].name;
  }

  lemma {:induction false} ManifestNamesIn(ms: seq<Manifest>, i: nat, t: Text)
    requires i < |ms| && t in ManifestNames(ms[i])
    ensures t in AllManifestNames(ms)
    decreases ms
  {
    if i != 0 {
      ManifestNamesIn(ms[1..], i - 1, t);
    }
  }

  lemma ManifestNameStored(s: Store, i: nat, t: Text)
    requires i < |s.manifests| && t in ManifestNames(s.manifests[i])
    ensures t in Names(s)
  {
    ManifestNamesIn(s.manifests, i, t);
  }

  lemma StoredOffset(s: Store, t: Text)
    requires Fits(s) && t in Names(s)
    ensures TextIn(Strings(s).bytes, Offset(Strings(s), t)) == Some(Kept(s, t))
  {
    hide Fold;
    var names := Names(s);
    var i :| 0 <= i < |names| && names[i] == t;
    assert Fold(names[i]) == Fold(t);
    PoolHolds(names, t);
    HeldTextReads(Strings(s).bytes, Strings(s).offsets[Fold(t)], Spelling(names, t));
  }

  // ---- the archive ----

  lemma SectionLengths(s: Store)
    ensures |Concat(SignerRecords(s))| == 3 * |s.signers|
    ensures |Concat(ManifestRecords(s))| == 23 * |s.manifests|
    ensures |Concat(PayloadRecords(s))| == 5 * |s.payloads|
  {
    ConcatLength(SignerRecords(s), 3);
    ConcatLength(ManifestRecords(s), 23);
    ConcatLength(PayloadRecords(s), 5);
  }

  lemma UnstampedSize(s: Store)
    requires Fits(s)
    ensures |AllWords(s)| == 7 + 3 * |s.signers| + 23 * |s.manifests| + 5 * |s.payloads|
    ensures |Unstamped(s)| == EncodedSize(s)
  {
    SectionLengths(s);
  }

  /** The archive that the generator writes for a store. */
  function Encode(s: Store): (a: Blob)
    requires Fits(s)
    ensures |a| == EncodedSize(s)
  {
    UnstampedSize(s);
    Stamp(Unstamped(s))
  }

  /** The checksum constant that the generator emits beside the archive. */
  function Checksum(s: Store): u32
    requires Fits(s)
  {
    MaskedHash(Unstamped(s))
  }

  function EncodedView(s: Store): View
    requires Fits(s)
  {
    var manifests: u32 := HEADER_SIZE + SIGNER_SIZE * |s.signers|;
    var payloads: u32 := manifests + MANIFEST_SIZE * |s.manifests|;
    View(|s.signers|, |s.manifests|, |s.payloads|, |Strings(s).bytes|, Checksum(s),
         HEADER_SIZE, manifests, payloads, payloads + PAYLOAD_SIZE * |s.payloads|)
  }

  lemma StampReads(a: seq<u8>, at: nat)
    requires |a| >= HEADER_SIZE && at + 4 <= |a|
    requires at + 4 <= CHECKSUM_OFFSET || at >= CHECKSUM_OFFSET + 4
    ensures ReadU32(Stamp(a), at) == ReadU32(a, at)
  {
  }

  lemma StampChecksum(a: seq<u8>)
    requires |a| >= HEADER_SIZE
    ensures ReadU32(Stamp(a), CHECKSUM_OFFSET) == MaskedHash(a) == MaskedHash(Stamp(a))
  {
    hide MaskedHash;
    var x := MaskedHash(a);
    LeWordReads(x);
    ReadShifted(a[..CHECKSUM_OFFSET], LeWord(x), a[CHECKSUM_OFFSET + 4..], 0);
    SameMasked(a);
  }

  lemma SameMasked(a: seq<u8>)
    requires |a| >= HEADER_SIZE
    ensures MaskedHash(Stamp(a)) == MaskedHash(a)
  {
    assert Masked(Stamp(a)) == Masked(a);
  }

  lemma ReadFront(a: seq<u8>, rest: seq<u8>, at: nat)
    requires at + 4 <= |a|
    ensures ReadU32(a + rest, at) == ReadU32(a, at)
  {
  }

  lemma UnstampedWord(s: Store, k: nat)
    requires Fits(s) && k < |AllWords(s)|
    ensures 4 * k + 4 <= |Unstamped(s)| && ReadU32(Unstamped(s), 4 * k) == AllWords(s)[k]
  {
    hide AllWords;
    hide Words;
    hide Strings;
    hide ReadU32;
    WordsRead(AllWords(s), k);
    ReadFront(Words(AllWords(s)), Strings(s).bytes, 4 * k);
  }

  lemma EncodedWord(s: Store, k: nat)
    requires Fits(s) && k < |AllWords(s)| && k != 6
    ensures 4 * k + 4 <= |Encode(s)| && ReadU32(Encode(s), 4 * k) == AllWords(s)[k]
  {
    UnstampedSize(s);
    UnstampedWord(s, k);
    hide AllWords;
    hide Unstamped;
    hide ReadU32;
    StampReads(Unstamped(s), 4 * k);
  }

  lemma EncodedChecksum(s: Store)
    requires Fits(s)
    ensures |Encode(s)| >= HEADER_SIZE
    ensures ReadU32(Encode(s), CHECKSUM_OFFSET) == Checksum(s) == MaskedHash(Encode(s))
  {
    UnstampedSize(s);
    StampChecksum(Unstamped(s));
  }

  lemma EncodedHeader(s: Store, k: nat)
    requires Fits(s) && k < 7
    ensures |Encode(s)| >= HEADER_SIZE
    ensures Header(Encode(s), k) == if k == 6 then Checksum(s) else HeaderRecord(s)[k]
  {
    hide MaskedHash;
    hide ReadU32;
    EncodedChecksum(s);
    UnstampedSize(s);
    if k != 6 {
      EncodedWord(s, k);
      hide Encode;
      assert AllWords(s)[k] == HeaderRecord(s)[k];
    }
  }

  /** The archive lays out exactly when its version is the reader's, and as the store says. */
  lemma EncodedLayout(s: Store, v: View)
    requires Fits(s)
    ensures IsLayout(Encode(s), v) <==> s.version == VERSION && v == EncodedView(s)
  {
    EncodedHeader(s, 0);
    EncodedHeader(s, 1);
    EncodedHeader(s, 2);
    EncodedHeader(s, 3);
    EncodedHeader(s, 4);
    EncodedHeader(s, 5);
    EncodedHeader(s, 6);
    hide Header;
    hide Checksum;
    hide Strings;
  }

  lemma SignersInWords(s: Store, i: nat, k: nat)
    requires Fits(s) && i < |s.signers| && k < 3
    ensures 7 + 3 * i + k < |AllWords(s)|
    ensures AllWords(s)[7 + 3 * i + k] == SignerRecord(Strings(s), s.signers[i])[k]
  {
    hide Strings;
    UnstampedSize(s);
    SectionLengths(s);
    ConcatAt(SignerRecords(s), 3, i, k);
    hide Concat;
    assert AllWords(s)[7 + 3 * i + k] == Concat(SignerRecords(s))[3 * i + k];
  }

  lemma SignerWordIs(s: Store, i: nat, k: nat)
    requires Fits(s) && IsLayout(Encode(s), EncodedView(s)) && i < |s.signers| && k < 3
    ensures SignerWord(Encode(s), EncodedView(s), i, k) == SignerRecord(Strings(s), s.signers[i])[k]
  {
    hide AllWords;
    hide Encode;
    hide Strings;
    hide IsLayout;
    hide ReadU32;
    SignersInWords(s, i, k);
    EncodedWord(s, 7 + 3 * i + k);
  }

  lemma ManifestsInWords(s: Store, i: nat, k: nat)
    requires Fits(s) && i < |s.manifests| && k < 23
    ensures 7 + 3 * |s.signers| + 23 * i + k < |AllWords(s)|
    ensures AllWords(s)[7 + 3 * |s.signers| + 23 * i + k] == ManifestFields(Strings(s), s.manifests[i])[k]
  {
    hide Strings;
    UnstampedSize(s);
    SectionLengths(s);
    ConcatAt(ManifestRecords(s), 23, i, k);
    hide Concat;
    assert AllWords(s)[7 + 3 * |s.signers| + 23 * i + k] == Concat(ManifestRecords(s))[23 * i + k];
  }

  lemma ManifestWordIs(s: Store, i: nat, k: nat)
    requires Fits(s) && IsLayout(Encode(s), EncodedView(s)) && i < |s.manifests| && k < 23
    ensures ManifestWord(Encode(s), EncodedView(s), i, k) == ManifestFields(Strings(s), s.manifests[i])[k]
  {
    hide AllWords;
    hide Encode;
    hide Strings;
    hide IsLayout;
    hide ReadU32;
    ManifestsInWords(s, i, k);
    EncodedWord(s, 7 + 3 * |s.signers| + 23 * i + k);
  }

  lemma PayloadsInWords(s: Store, i: nat, k: nat)
    requires Fits(s) && i < |s.payloads| && k < 5
    ensures 7 + 3 * |s.signers| + 23 * |s.manifests| + 5 * i + k < |AllWords(s)|
    ensures AllWords(s)[7 + 3 * |s.signers| + 23 * |s.manifests| + 5 * i + k] == PayloadRecord(s.payloads[i])[k]
  {
    hide Strings;
    UnstampedSize(s);
    SectionLengths(s);
    ConcatAt(PayloadRecords(s), 5, i, k);
    hide Concat;
    assert AllWords(s)[7 + 3 * |s.signers| + 23 * |s.manifests| + 5 * i + k] == Concat(PayloadRecords(s))[5 * i + k];
  }

  lemma PayloadWordIs(s: Store, i: nat, k: nat)
    requires Fits(s) && IsLayout(Encode(s), EncodedView(s)) && i < |s.payloads| && k < 5
    ensures PayloadWord(Encode(s), EncodedView(s), i, k) == PayloadRecord(s.payloads[i])[k]
  {
    hide AllWords;
    hide Encode;
    hide Strings;
    hide IsLayout;
    hide ReadU32;
    PayloadsInWords(s, i, k);
    EncodedWord(s, 7 + 3 * |s.signers| + 23 * |s.manifests| + 5 * i + k);
  }

  lemma EncodedStrings(s: Store)
    requires Fits(s) && IsLayout(Encode(s), EncodedView(s))
    ensures StringTable(Encode(s), EncodedView(s)) == Strings(s).bytes
  {
    UnstampedSize(s);
    hide Words;
    hide AllWords;
    hide Strings;
  }

  // ---- records read back ----

  function KeptSigner(s: Store, x: Signer): Signer {
    x.(name := Kept(s, x.name))
  }

  function KeptManifest(s: Store, m: Manifest): Manifest {
    m.(packageName := Kept(s, m.packageName), name := Kept(s, m.name), processName := Kept(s, m.processName),
       profileName := Kept(s, m.profileName), peerEndpointName := Kept(s, m.peerEndpointName),
       policyEndpointName := Kept(s, m.policyEndpointName))
  }

  function FirstWithSlot(ps: seq<Payload>, slot: u32): Option<Payload> {
    if ps == [] then None else if ps[0].slot == slot then Some(ps[0]) else FirstWithSlot(ps[1..], slot)
  }

  /** The store laid out: what every lemma below is about. */
  ghost predicate Laid(s: Store, a: Blob, v: View) {
    Fits(s) && a == Encode(s) && v == EncodedView(s) && IsLayout(a, v)
  }

  lemma TextReadsBack(s: Store, a: Blob, v: View, t: Text)
    requires Laid(s, a, v) && t in Names(s)
    ensures TextAt(a, v, Offset(Strings(s), t)) == Some(Kept(s, t))
  {
    EncodedStrings(s);
    StoredOffset(s, t);
  }

  lemma SignerReadsBack(s: Store, a: Blob, v: View, i: nat)
    requires Laid(s, a, v) && i < |s.signers|
    ensures ReadSigner(a, v, i) == Some(KeptSigner(s, s.signers[i]))
  {
    SignerWordIs(s, i, 0);
    SignerWordIs(s, i, 1);
    SignerWordIs(s, i, 2);
    SignerNameStored(s, i);
    TextReadsBack(s, a, v, s.signers[i].name);
    hide IsLayout;
    hide TextAt;
    hide SignerWord;
    hide Offset;
    hide Encode;
  }

  lemma ManifestTextReadsBack(s: Store, a: Blob, v: View, i: nat, k: nat, t: Text)
    requires Laid(s, a, v) && i < |s.manifests| && k < 23
    requires t in ManifestNames(s.manifests[i])
    requires ManifestFields(Strings(s), s.manifests[i])[k] == Offset(Strings(s), t)
    ensures ManifestText(a, v, i, k) == Some(Kept(s, t))
  {
    hide Encode;
    hide TextAt;
    hide Offset;
    hide IsLayout;
    ManifestWordIs(s, i, k);
    ManifestNameStored(s, i, t);
    TextReadsBack(s, a, v, t);
  }

  lemma ManifestTextsReadBack(s: Store, a: Blob, v: View, i: nat)
    requires Laid(s, a, v) && i < |s.manifests|
    ensures ManifestTexts(a, v, i)
    ensures ManifestText(a, v, i, 2) == Some(Kept(s, s.manifests[i].packageName))
    ensures ManifestText(a, v, i, 9) == Some(Kept(s, s.manifests[i].name))
    ensures ManifestText(a, v, i, 10) == Some(Kept(s, s.manifests[i].processName))
    ensures ManifestText(a, v, i, 11) == Some(Kept(s, s.manifests[i].profileName))
    ensures ManifestText(a, v, i, 12) == Some(Kept(s, s.manifests[i].peerEndpointName))
    ensures ManifestText(a, v, i, 13) == Some(Kept(s, s.manifests[i].policyEndpointName))
  {
    hide Laid;
    hide Offset;
    hide ManifestText;
    var m := s.manifests[i];
    ManifestTextReadsBack(s, a, v, i, 2, m.packageName);
    ManifestTextReadsBack(s, a, v, i, 9, m.name);
    ManifestTextReadsBack(s, a, v, i, 10, m.processName);
    ManifestTextReadsBack(s, a, v, i, 11, m.profileName);
    ManifestTextReadsBack(s, a, v, i, 12, m.peerEndpointName);
    ManifestTextReadsBack(s, a, v, i, 13, m.policyEndpointName);
  }

  lemma ManifestWordsAre(s: Store, a: Blob, v: View, i: nat)
    requires Laid(s, a, v) && i < |s.manifests|
    ensures forall k: nat :: k < 23 ==> ManifestWord(a, v, i, k) == ManifestFields(Strings(s), s.manifests[i])[k]
  {
    hide Encode;
    hide IsLayout;
    hide Strings;
    forall k: nat | k < 23
      ensures ManifestWord(a, v, i, k) == ManifestFields(Strings(s), s.manifests[i])[k]
    {
      ManifestWordIs(s, i, k);
    }
  }

  lemma ManifestReadsBack(s: Store, a: Blob, v: View, i: nat)
    requires Laid(s, a, v) && i < |s.manifests|
    ensures ManifestTexts(a, v, i) && ManifestAt(a, v, i) == KeptManifest(s, s.manifests[i])
  {
    hide Laid;
    hide IsLayout;
    hide ManifestWord;
    hide ManifestText;
    hide ManifestTexts;
    hide Offset;
    hide Strings;
    hide Kept;
    ManifestWordsAre(s, a, v, i);
    ManifestTextsReadBack(s, a, v, i);
  }

  lemma PayloadReadsBack(s: Store, a: Blob, v: View, i: nat)
    requires Laid(s, a, v) && i < |s.payloads|
    ensures PayloadAt(a, v, i) == s.payloads[i]
  {
    PayloadWordIs(s, i, 0);
    PayloadWordIs(s, i, 1);
    PayloadWordIs(s, i, 2);
    PayloadWordIs(s, i, 3);
    PayloadWordIs(s, i, 4);
    hide Encode;
    hide IsLayout;
    hide PayloadWord;
  }

  lemma {:induction false} SlotReadsBack(s: Store, a: Blob, v: View, slot: u32, from: nat)
    requires Laid(s, a, v) && from <= |s.payloads|
    ensures FindFrom(a, v, slot, from) == FirstWithSlot(s.payloads[from..], slot)
    decreases |s.payloads| - from
  {
    hide Encode;
    hide IsLayout;
    if from < |s.payloads| {
      PayloadReadsBack(s, a, v, from);
      hide PayloadWord;
      SlotReadsBack(s, a, v, slot, from + 1);
      assert s.payloads[from..][1..] == s.payloads[from + 1..];
    }
  }

  // ---- the store read back ----

  /** A numbered slot, bootstrap service or flat binary, with a size and a checksum. */
  predicate SoundPayload(p: Payload) {
    1 <= p.slot && 1 <= p.kind <= 2 && 1 <= p.imageSize && 1 <= p.imageChecksum
  }

  lemma PayloadOkIff(p: Payload)
    ensures PayloadOk(p) <==> SoundPayload(p)
  {
  }

  /** What the builder of a store must see to for its archive to validate. */
  predicate Sound(s: Store) {
    && s.version == 2
    && (forall p :: p in s.payloads ==> SoundPayload(p))
    && (forall m :: m in s.manifests ==> FirstWithSlot(s.payloads, m.payloadSlot).Some?)
  }

  lemma LaidSigners(s: Store, a: Blob, v: View)
    requires Laid(s, a, v)
    ensures SignersOk(a, v)
  {
    forall i | 0 <= i < v.signerCount
      ensures ReadSigner(a, v, i).Some?
    {
      SignerReadsBack(s, a, v, i);
    }
  }

  lemma LaidPayload(s: Store, a: Blob, v: View, i: nat)
    requires Laid(s, a, v) && i < |s.payloads|
    ensures i < v.payloadCount && (PayloadOk(PayloadAt(a, v, i)) <==> SoundPayload(s.payloads[i]))
  {
    hide PayloadOk, SoundPayload, PayloadAt;
    PayloadReadsBack(s, a, v, i);
    PayloadOkIff(s.payloads[i]);
  }

  lemma LaidPayloads(s: Store, a: Blob, v: View)
    requires Laid(s, a, v)
    ensures PayloadsOk(a, v) <==>
            forall p :: p in s.payloads ==> SoundPayload(p)
  {
    assert v.payloadCount == |s.payloads|;
    hide Laid, Encode, IsLayout, PayloadOk, SoundPayload, PayloadAt;
    forall i | 0 <= i < |s.payloads|
      ensures PayloadOk(PayloadAt(a, v, i)) <==> SoundPayload(s.payloads[i])
    {
      LaidPayload(s, a, v, i);
    }
    assert forall p :: p in s.payloads ==> exists i :: 0 <= i < |s.payloads| && s.payloads[i] == p;
  }

  lemma ManifestRefReadsBack(s: Store, a: Blob, v: View, i: nat)
    requires Laid(s, a, v) && i < |s.manifests|
    ensures ReadManifest(a, v, i) ==
            match FirstWithSlot(s.payloads, s.manifests[i].payloadSlot)
            case None => None
            case Some(p) => Some(ManifestRecord(KeptManifest(s, s.manifests[i]), p.imageSize, p.imageChecksum))
  {
    hide Encode;
    hide IsLayout;
    hide FirstWithSlot;
    hide KeptManifest;
    hide ManifestAt;
    ManifestReadsBack(s, a, v, i);
    ManifestWordIs(s, i, 22);
    var slot := s.manifests[i].payloadSlot;
    SlotReadsBack(s, a, v, slot, 0);
    assert s.payloads[0..] == s.payloads;
    hide ManifestTexts;
    hide ManifestWord;
    hide FindFrom;
  }

  lemma LaidManifests(s: Store, a: Blob, v: View)
    requires Laid(s, a, v)
    ensures ManifestsOk(a, v) <==>
            forall m :: m in s.manifests ==> FirstWithSlot(s.payloads, m.payloadSlot).Some?
  {
    hide Encode;
    hide IsLayout;
    hide FirstWithSlot;
    hide ReadManifest;
    forall i: nat | i < |s.manifests|
      ensures ReadManifest(a, v, i).Some? <==> FirstWithSlot(s.payloads, s.manifests[i].payloadSlot).Some?
    {
      ManifestRefReadsBack(s, a, v, i);
    }
    assert forall m :: m in s.manifests ==> exists i :: 0 <= i < |s.manifests| && s.manifests[i] == m;
  }

  /**
   The generated archive passes validation exactly when the store is sound, whatever the store
   holds, and then only with its own layout and its own checksum constant.
   */
  lemma ValidatesIff(s: Store, v: View, checksum: u32)
    requires Fits(s)
    ensures Validated(Encode(s), v, checksum) <==>
            Sound(s) && v == EncodedView(s) && checksum == Checksum(s)
  {
    var a := Encode(s);
    EncodedLayout(s, v);
    EncodedChecksum(s);
    if s.version == VERSION && v == EncodedView(s) {
      LaidSigners(s, a, v);
      LaidPayloads(s, a, v);
      LaidManifests(s, a, v);
    }
    hide Encode;
    hide IsLayout;
    hide MaskedHash;
    hide SignersOk;
    hide PayloadsOk;
    hide ManifestsOk;
  }

  /** Everything that the readers of a validated archive return, in order. */
  function Decode(a: Blob, v: View, checksum: u32): Store
    requires Validated(a, v, checksum)
  {
    hide IsLayout;
    hide ReadSigner;
    hide ReadManifest;
    hide PayloadAt;
    Store(VERSION,
          seq(v.signerCount, i requires 0 <= i < v.signerCount => ReadSigner(a, v, i).value),
          seq(v.manifestCount, i requires 0 <= i < v.manifestCount => ReadManifest(a, v, i).value.manifest),
          seq(v.payloadCount, i requires 0 <= i < v.payloadCount => PayloadAt(a, v, i)))
  }

  function KeptStore(s: Store): Store {
    Store(s.version,
          seq(|s.signers|, i requires 0 <= i < |s.signers| => KeptSigner(s, s.signers[i])),
          seq(|s.manifests|, i requires 0 <= i < |s.manifests| => KeptManifest(s, s.manifests[i])),
          s.payloads)
  }

  /** Reading back what was written returns the store, names in their stored spelling. */
  lemma DecodeEncode(s: Store)
    requires Fits(s) && Sound(s)
    ensures Validated(Encode(s), EncodedView(s), Checksum(s))
    ensures Decode(Encode(s), EncodedView(s), Checksum(s)) == KeptStore(s)
  {
    var a, v, c := Encode(s), EncodedView(s), Checksum(s);
    ValidatesIff(s, v, c);
    var d, k := Decode(a, v, c), KeptStore(s);
    hide Encode;
    hide IsLayout;
    hide KeptSigner;
    hide KeptManifest;
    hide FirstWithSlot;
    forall i | 0 <= i < |s.signers|
      ensures d.signers[i] == k.signers[i]
    {
      SignerReadsBack(s, a, v, i);
    }
    forall i | 0 <= i < |s.manifests|
      ensures d.manifests[i] == k.manifests[i]
    {
      assert s.manifests[i] in s.manifests;
      ManifestRefReadsBack(s, a, v, i);
    }
    forall i | 0 <= i < |s.payloads|
      ensures d.payloads[i] == k.payloads[i]
    {
      PayloadReadsBack(s, a, v, i);
    }
    assert d.signers == k.signers && d.manifests == k.manifests && d.payloads == k.payloads;
  }

  // ---- when reading back is exact ----

  /** No name holds a NUL, and no two names differ only in case. */
  predicate NamesSurvive(s: Store) {
    && (forall t :: t in Names(s) ==> NonZero(t))
    && (forall t, u :: t in Names(s) && u in Names(s) && Fold(t) == Fold(u) ==> t == u)
  }

  ghost predicate AllKept(s: Store) {
    forall t :: t in Names(s) ==> Kept(s, t) == t
  }

  lemma {:induction false} SpellingIsName(names: seq<Text>, t: Text)
    requires t in names
    ensures Spelling(names, t) in names && Fold(Spelling(names, t)) == Fold(t)
    decreases names
  {
    if Fold(names[0]) != Fold(t) {
      SpellingIsName(names[1..], t);
    }
  }

  lemma {:induction false} SpellingByKey(names: seq<Text>, t: Text, u: Text)
    requires t in names && Fold(t) == Fold(u)
    ensures Spelling(names, t) == Spelling(names, u)
    decreases names
  {
    if Fold(names[0]) != Fold(t) {
      SpellingByKey(names[1..], t, u);
    }
  }

  lemma KeptIff(s: Store)
    ensures AllKept(s) <==> NamesSurvive(s)
  {
    hide Fold;
    var names := Names(s);
    forall t | t in names
      ensures NamesSurvive(s) ==> Kept(s, t) == t
      ensures Kept(s, t) == t ==> NonZero(t)
    {
      SpellingIsName(names, t);
      CTextWhole(t);
      CTextNonZero(Spelling(names, t));
    }
    forall t, u | t in names && u in names && Fold(t) == Fold(u)
      ensures Kept(s, t) == Kept(s, u)
    {
      SpellingByKey(names, t, u);
    }
  }

  lemma {:induction false} ManifestOfName(ms: seq<Manifest>, t: Text) returns (i: nat)
    requires t in AllManifestNames(ms)
    ensures i < |ms| && t in ManifestNames(ms[i])
    decreases ms
  {
    if t in ManifestNames(ms[0]) {
      i := 0;
    } else {
      i := ManifestOfName(ms[1..], t);
      i := i + 1;
    }
  }

  lemma KeptNames(s: Store, m: Manifest, t: Text)
    requires KeptManifest(s, m) == m && t in ManifestNames(m)
    ensures Kept(s, t) == t
  {
    hide Kept;
  }

  lemma KeptStoreIff(s: Store)
    ensures KeptStore(s) == s <==> AllKept(s)
  {
    hide Kept;
    if KeptStore(s) == s {
      forall t | t in Names(s)
        ensures Kept(s, t) == t
      {
        if t in SignerNames(s.signers) {
          var i :| 0 <= i < |s.signers| && SignerNames(s.signers)[i] == t;
          assert KeptStore(s).signers[i] == s.signers[i];
        } else {
          var i := ManifestOfName(s.manifests, t);
          assert KeptStore(s).manifests[i] == s.manifests[i];
          KeptNames(s, s.manifests[i], t);
        }
      }
    }
    if AllKept(s) {
      forall i | 0 <= i < |s.signers|
        ensures KeptStore(s).signers[i] == s.signers[i]
      {
        SignerNameStored(s, i);
      }
      forall i | 0 <= i < |s.manifests|
        ensures KeptStore(s).manifests[i] == s.manifests[i]
      {
        KeptManifestSame(s, i);
      }
      assert KeptStore(s).signers == s.signers && KeptStore(s).manifests == s.manifests;
    }
  }

  lemma KeptManifestSame(s: Store, i: nat)
    requires AllKept(s) && i < |s.manifests|
    ensures KeptManifest(s, s.manifests[i]) == s.manifests[i]
  {
    hide Kept;
    forall t | t in ManifestNames(s.manifests[i])
      ensures Kept(s, t) == t
    {
      ManifestNameStored(s, i, t);
    }
  }

  /** Parsing undoes encoding exactly when no name holds a NUL and no two differ only in case. */
  lemma RoundTripIff(s: Store)
    requires Fits(s) && Sound(s)
    ensures Validated(Encode(s), EncodedView(s), Checksum(s))
    ensures Decode(Encode(s), EncodedView(s), Checksum(s)) == s <==> NamesSurvive(s)
  {
    DecodeEncode(s);
    KeptStoreIff(s);
    KeptIff(s);
  }

  /** The generated archive makes the store ready exactly when its first bootstrap payload is the image. */
  lemma ReadyIff(s: Store, image: Blob)
    requires Fits(s)
    ensures Ready(Encode(s), EncodedView(s), Checksum(s), image) <==>
            var p := FirstWithSlot(s.payloads, 1);
            && Sound(s) && p.Some? && p.value.kind == 1 && p.value.imageOffset == 0
            && p.value.imageSize == |image| && p.value.imageChecksum == Fnv.Hash(Fnv.OFFSET_BASIS, image)
  {
    var a, v, c := Encode(s), EncodedView(s), Checksum(s);
    ValidatesIff(s, v, c);
    hide Encode;
    hide IsLayout;
    hide Sound;
    hide FirstWithSlot;
    hide Fnv.Hash;
    if Validated(a, v, c) {
      SlotReadsBack(s, a, v, BOOTSTRAP_SLOT, 0);
      assert s.payloads[0..] == s.payloads;
    }
  }

  lemma TwoPayloads(p: Payload, q: Payload)
    ensures var s := Store(2, [], [], [p, q]);
            && Fits(s) && FirstWithSlot(s.payloads, p.slot) == Some(p)
            && (SoundPayload(p) && SoundPayload(q) ==> Sound(s))
  {
    var s := Store(2, [], [], [p, q]);
    assert Names(s) == [];
    assert Strings(s).bytes == [];
  }

  /** A bootstrap payload beside a flat binary, as the repository's own store has them, becomes ready. */
  lemma FlatBinaryBesideBootstrap(image: Blob, size: u32, digest: u32)
    requires Fnv.Hash(Fnv.OFFSET_BASIS, image) != 0 && image != [] && size != 0 && digest != 0
    ensures var s := Store(2, [], [], [Payload(1, 1, 0, |image|, Fnv.Hash(Fnv.OFFSET_BASIS, image)),
                                       Payload(2, 2, 0, size, digest)]);
            && Fits(s)
            && Validated(Encode(s), EncodedView(s), Checksum(s))
            && Ready(Encode(s), EncodedView(s), Checksum(s), image)
  {
    hide Fnv.Hash, Validated, Encode, EncodedView, Checksum, Fits, Sound, FirstWithSlot;
    var p := Payload(1, 1, 0, |image|, Fnv.Hash(Fnv.OFFSET_BASIS, image));
    var q := Payload(2, 2, 0, size, digest);
    TwoPayloads(p, q);
    var s := Store(2, [], [], [p, q]);
    ValidatesIff(s, EncodedView(s), Checksum(s));
    ReadyIff(s, image);
    hide Ready;
  }

  /** Two signers whose names differ only in case: the second comes back in the first's spelling. */
  lemma CaseVariantLost()
    ensures var s := Store(VERSION, [Signer(1, [65], 0), Signer(2, [97], 0)], [], []);
            Fits(s) && Sound(s) && !NamesSurvive(s) && Kept(s, [97]) == [65]
  {
    var s := Store(VERSION, [Signer(1, [65], 0), Signer(2, [97], 0)], [], []);
    var names: seq<Text> := [[65], [97]];
    assert Names(s) == names;
    assert Fold([65]) == [97] == Fold([97]);
    assert names[..1] == [[65]] && names[..1][..0] == [];
    assert InternAll(names[..1]) == Intern(Pool([], map[]), [65]);
    assert Strings(s) == Pool([65, 0], map[[97] := 0]);
    assert names[0] in names && names[1] in names;
    assert CText([65]) == [65];
  }
}
