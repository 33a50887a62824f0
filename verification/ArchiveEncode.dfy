/**
 Building an archive, as the generator lays it out, and reading it back. The generator's
 string table is keyed without regard to case, so a name that differs from an earlier one
 only in case is stored under the earlier spelling.
 */
module ArchiveEncode {
  import opened Prelude
  import opened Archive

  datatype Store = Store(
    version: u32,
    signers: seq<Signer>,
    manifests: seq<Manifest>,
    payloads: seq<Payload>)

  /** The generator's own copy of the magic number. */
  const GENERATED_MAGIC: u32 := 0x504B4753

  // ---- words ----

  function LeWord(x: u32): (b: seq<u8>)
    ensures |b| == 4
  {
    [x % 0x100, x / 0x100 % 0x100, x / 0x1_0000 % 0x100, x / 0x100_0000]
  }

  function Words(ws: seq<u32>): (b: seq<u8>)
    ensures |b| == 4 * |ws|
  {
    if ws == [] then [] else Words(ws[..|ws| - 1]) + LeWord(ws[|ws| - 1])
  }

  /** The words of equally long records, one record after another. */
  function Concat(records: seq<seq<u32>>): seq<u32> {
    if records == [] then [] else Concat(records[..|records| - 1]) + records[|records| - 1]
  }

  // ---- the string table ----

  /** The key under which the generator's table remembers a text. */
  function Fold(t: Text): (f: Text)
    ensures |f| == |t|
  {
    seq(|t|, i requires 0 <= i < |t| => if 65 <= t[i] <= 90 then t[i] + 32 else t[i])
  }

  datatype Pool = Pool(bytes: seq<u8>, offsets: map<Text, nat>)

  function Intern(p: Pool, t: Text): Pool {
    if Fold(t) in p.offsets then p
    else Pool(p.bytes + (t + [0]), p.offsets[Fold(t) := |p.bytes|])
  }

  function InternAll(names: seq<Text>): Pool {
    if names == [] then Pool([], map[])
    else Intern(InternAll(names[..|names| - 1]), names[|names| - 1])
  }

  function ManifestNames(m: Manifest): seq<Text> {
    [m.packageName, m.name, m.processName, m.profileName, m.peerEndpointName, m.policyEndpointName]
  }

  function AllManifestNames(ms: seq<Manifest>): seq<Text> {
    if ms == [] then [] else ManifestNames(ms[0]) + AllManifestNames(ms[1..])
  }

  function SignerNames(ss: seq<Signer>): seq<Text> {
    seq(|ss|, i requires 0 <= i < |ss| => ss[i].name)
  }

  /** Every name of the store, in the order in which the generator stores them. */
  function Names(s: Store): seq<Text> {
    SignerNames(s.signers) + AllManifestNames(s.manifests)
  }

  function Strings(s: Store): Pool {
    InternAll(Names(s))
  }

  function Offset(p: Pool, t: Text): u32 {
    if Fold(t) in p.offsets && p.offsets[Fold(t)] < U32_MODULUS then p.offsets[Fold(t)] else 0
  }

  // ---- the archive ----

  function SignerRecord(p: Pool, x: Signer): seq<u32> {
    [x.id, Offset(p, x.name), x.verificationToken]
  }

  function ManifestFields(p: Pool, m: Manifest): seq<u32> {
    [m.sourceSlot, m.packageId, Offset(p, m.packageName), m.packageVersion, m.signerId, m.trustFlags,
     m.launchAuthorityMask, m.maxInstances, m.executableId, Offset(p, m.name), Offset(p, m.processName),
     Offset(p, m.profileName), Offset(p, m.peerEndpointName), Offset(p, m.policyEndpointName),
     m.allowedEndpointRoleMask, m.allowedServiceClassMask, m.schedulerClass, m.schedulerWeight,
     m.schedulerLatencyTargetTicks, m.schedulerIoWakeupDeadlineTicks, m.capabilityAdmissionLimit,
     m.launchRole, m.payloadSlot]
  }

  function PayloadRecord(x: Payload): seq<u32> {
    [x.slot, x.kind, x.imageOffset, x.imageSize, x.imageChecksum]
  }

  function SignerRecords(s: Store): seq<seq<u32>> {
    seq(|s.signers|, i requires 0 <= i < |s.signers| => SignerRecord(Strings(s), s.signers[i]))
  }

  function ManifestRecords(s: Store): seq<seq<u32>> {
    seq(|s.manifests|, i requires 0 <= i < |s.manifests| => ManifestFields(Strings(s), s.manifests[i]))
  }

  function PayloadRecords(s: Store): seq<seq<u32>> {
    seq(|s.payloads|, i requires 0 <= i < |s.payloads| => PayloadRecord(s.payloads[i]))
  }

  function EncodedSize(s: Store): nat {
    HEADER_SIZE + SIGNER_SIZE * |s.signers| + MANIFEST_SIZE * |s.manifests| + PAYLOAD_SIZE * |s.payloads|
      + |Strings(s).bytes|
  }

  /** The store's archive has a size that a machine word can hold. */
  predicate Fits(s: Store) {
    EncodedSize(s) < U32_MODULUS
  }

  function HeaderRecord(s: Store): seq<u32>
    requires Fits(s)
  {
    [GENERATED_MAGIC, s.version, |s.signers|, |s.manifests|, |s.payloads|, |Strings(s).bytes|, 0]
  }

  function AllWords(s: Store): seq<u32>
    requires Fits(s)
  {
    HeaderRecord(s) + Concat(SignerRecords(s)) + Concat(ManifestRecords(s)) + Concat(PayloadRecords(s))
  }

  function Unstamped(s: Store): seq<u8>
    requires Fits(s)
  {
    Words(AllWords(s)) + Strings(s).bytes
  }

  /** The digest written over its own, masked, field. */
  function Stamp(a: seq<u8>): (b: seq<u8>)
    requires |a| >= HEADER_SIZE
    ensures |b| == |a|
  {
    a[..CHECKSUM_OFFSET] + LeWord(MaskedHash(a)) + a[CHECKSUM_OFFSET + 4..]
  }

  // ---- words read back ----

  lemma LeWordReads(x: u32)
    ensures ReadU32(LeWord(x), 0) == x
  {
    var q1 := x / 0x100;
    var q2 := q1 / 0x100;
    assert x / 0x1_0000 == q2 && x / 0x100_0000 == q2 / 0x100;
  }

  lemma ReadShifted(a: seq<u8>, b: seq<u8>, c: seq<u8>, at: nat)
    requires at + 4 <= |b|
    ensures ReadU32(a + b + c, |a| + at) == ReadU32(b, at)
  {
  }

  lemma {:induction false} WordsRead(ws: seq<u32>, k: nat)
    requires k < |ws|
    ensures ReadU32(Words(ws), 4 * k) == ws[k]
  {
    var n := |ws| - 1;
    var before := Words(ws[..n]);
    if k == n {
      LeWordReads(ws[n]);
      ReadShifted(before, LeWord(ws[n]), [], 0);
      assert before + LeWord(ws[n]) + [] == Words(ws);
    } else {
      WordsRead(ws[..n], k);
      ReadShifted([], before, LeWord(ws[n]), 4 * k);
      assert [] + before + LeWord(ws[n]) == Words(ws);
    }
  }

  lemma TimesNext(n: nat, k: nat)
    ensures n * (k + 1) == n * k + n
  {
  }

  lemma {:induction false} ConcatLength(records: seq<seq<u32>>, n: nat)
    requires forall i :: 0 <= i < |records| ==> |records[i]| == n
    ensures |Concat(records)| == n * |records|
  {
    if records != [] {
      var last := |records| - 1;
      ConcatLength(records[..last], n);
      TimesNext(n, last);
    }
  }

  lemma RecordInside(n: nat, i: nat, k: nat, count: nat)
    requires i < count && k < n
    ensures n * i + k < n * count
  {
    TimesNext(n, i);
    assert n * (i + 1) <= n * count;
  }

  lemma {:induction false} ConcatAt(records: seq<seq<u32>>, n: nat, i: nat, k: nat)
    requires forall j :: 0 <= j < |records| ==> |records[j]| == n
    requires i < |records| && k < n
    ensures n * i + k < |Concat(records)| == n * |records|
    ensures Concat(records)[n * i + k] == records[i][k]
  {
    var last := |records| - 1;
    ConcatLength(records, n);
    ConcatLength(records[..last], n);
    RecordInside(n, i, k, |records|);
    if i < last {
      ConcatAt(records[..last], n, i, k);
    }
  }
}
