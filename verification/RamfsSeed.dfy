/**
 The boot table. `ramfs_init` zeroes the node array and copies a table of seeds into it;
 any seed table that lists directories before their children boots a well-formed tree, and
 the table shipped with the kernel is one. The texts of the seeded files are parameters.
 */
module RamfsSeed {
  import opened Prelude
  import opened CStrings
  import opened RamfsPath
  import opened RamfsTable
  import opened RamfsTree

  datatype Seed = Seed(id: nat, parent: nat, kind: nat, name: seq<u8>, contents: Option<seq<u8>>)

  predicate SeedOk(seeds: seq<Seed>, i: nat)
    requires i < |seeds|
  {
    var s := seeds[i];
    && s.id == i + 1
    && NonZero(s.name) && |s.name| < NAME_CAPACITY
    && (s.kind == DIRECTORY || s.kind == FILE)
    && (if i == 0 then s.parent == 0 && s.kind == DIRECTORY
        else 1 <= s.parent <= i && seeds[s.parent - 1].kind == DIRECTORY && IsSegment(s.name))
  }

  predicate SeedsOk(seeds: seq<Seed>) {
    && 1 <= |seeds| <= NODE_LIMIT
    && (forall i :: 0 <= i < |seeds| ==> SeedOk(seeds, i))
    && (forall i, j :: 0 <= i < j < |seeds| && seeds[i].parent == seeds[j].parent
          ==> seeds[i].name != seeds[j].name)
  }

  /** As much of a name as a buffer holds before its NUL. */
  function Clip(name: seq<u8>): seq<u8> {
    if |name| < NAME_CAPACITY then name else name[..NAME_CAPACITY - 1]
  }

  /** The node a seed becomes: over-long contents are dropped, short ones zero-padded. */
  function SeedNode(s: Seed): Node {
    var blank := Node(s.id, s.parent, s.kind, true, Padded(Clip(s.name)), Zeros(FILE_CAPACITY), 0);
    if s.contents.None? || |s.contents.value| > FILE_CAPACITY then blank
    else blank.(contents := s.contents.value + Zeros(FILE_CAPACITY - |s.contents.value|),
                length := |s.contents.value|)
  }

  /** The node array after the first `k` seeds. */
  function Seeded(seeds: seq<Seed>, k: nat): Table
    requires SeedsOk(seeds) && k <= |seeds|
  {
    seq(NODE_LIMIT, i requires 0 <= i =>
      if i < k then SeedNode(seeds[i]) else ZeroNode())
  }

  /** Copies one seed over the node that has its id, else into the first free slot, else nowhere. */
  function SeedInto(t: Table, s: Seed): Table {
    match FirstId(t, s.id, 0)
    case Some(i) => t[i := SeedNode(s)]
    case None =>
      match FirstFree(t, 0)
      case Some(k) => t[k := SeedNode(s)]
      case None => t
  }

  lemma FreeAt(t: Table, k: nat)
    requires k < |t| && !t[k].active && forall i :: 0 <= i < k ==> t[i].active
    ensures FirstFree(t, 0) == Some(k)
  {
  }

  /** An ordered table's next seed takes the next slot, which has the seed's id. */
  lemma SeedTakesNext(seeds: seq<Seed>, k: nat)
    requires SeedsOk(seeds) && k < |seeds|
    ensures SeedInto(Seeded(seeds, k), seeds[k]) == Seeded(seeds, k + 1)
  {
    var t := Seeded(seeds, k);
    assert SeedOk(seeds, k);
    forall i | 0 <= i < k
      ensures t[i].active && t[i].id != seeds[k].id
    {
      assert SeedOk(seeds, i);
    }
    FreeAt(t, k);
  }

  lemma SeedName(seeds: seq<Seed>, i: nat)
    requires SeedsOk(seeds) && i < |seeds|
    ensures SeedOk(seeds, i)
    ensures CText(SeedNode(seeds[i]).name) == seeds[i].name && Shaped(SeedNode(seeds[i]))
  {
    assert SeedOk(seeds, i);
    CTextPadded(seeds[i].name, NAME_CAPACITY - |seeds[i].name|);
  }

  lemma {:induction false} SeededReaches(seeds: seq<Seed>, i: nat)
    requires SeedsOk(seeds) && i < |seeds|
    ensures Reaches(Seeded(seeds, |seeds|), i, i)
  {
    var t := Seeded(seeds, |seeds|);
    assert SeedOk(seeds, i);
    if i != 0 {
      SeededReaches(seeds, t[i].parent - 1);
      ReachesMore(t, t[i].parent - 1, t[i].parent - 1, i - 1);
    }
  }

  lemma SeededSlot(seeds: seq<Seed>, i: nat)
    requires SeedsOk(seeds) && i < NODE_LIMIT
    ensures var t := Seeded(seeds, |seeds|); SlotOk(t, i) && LinkOk(t, i) && ChainOk(t, i)
  {
    hide Seeded, CText, Padded, Reaches;
    var t := Seeded(seeds, |seeds|);
    SeededAt(seeds, i);
    if i < |seeds| {
      SeedName(seeds, i);
      SeededReaches(seeds, i);
      if i != 0 {
        SeedName(seeds, seeds[i].parent - 1);
        SeededAt(seeds, seeds[i].parent - 1);
      }
    }
    hide SeedsOk;
  }

  lemma SeededAt(seeds: seq<Seed>, i: nat)
    requires SeedsOk(seeds) && i < NODE_LIMIT
    ensures |Seeded(seeds, |seeds|)| == NODE_LIMIT
    ensures Seeded(seeds, |seeds|)[i] == if i < |seeds| then SeedNode(seeds[i]) else ZeroNode()
  {
  }

  lemma SeededDiffer(seeds: seq<Seed>, i: nat, j: nat)
    requires SeedsOk(seeds) && i < j < NODE_LIMIT
    ensures Differ(Seeded(seeds, |seeds|), i, j)
  {
    hide Seeded, CText, Padded;
    SeededAt(seeds, i);
    SeededAt(seeds, j);
    if j < |seeds| {
      SeedName(seeds, i);
      SeedName(seeds, j);
      assert seeds[i].parent == seeds[j].parent ==> seeds[i].name != seeds[j].name;
    }
  }

  /** Every ordered seed table boots a well-formed tree. */
  lemma SeededTree(seeds: seq<Seed>)
    requires SeedsOk(seeds)
    ensures Tree(Seeded(seeds, |seeds|))
  {
    var t := Seeded(seeds, |seeds|);
    SeedName(seeds, 0);
    hide SeedOk;
    forall i | 0 <= i < |t|
      ensures SlotOk(t, i) && LinkOk(t, i) && ChainOk(t, i)
    {
      SeededSlot(seeds, i);
    }
    forall i, j | 0 <= i < j < |t|
      ensures Differ(t, i, j)
    {
      SeededDiffer(seeds, i, j);
    }
  }

  // ---- the seed table of the kernel ----

  predicate Plain(s: string) {
    && 1 < |s| < NAME_CAPACITY
    && forall k :: 0 <= k < |s| ==> 0 < s[k] as int < 128 && s[k] != '/'
  }

  function Ascii(s: string): (b: seq<u8>)
    requires Plain(s)
    ensures |b| == |s| && IsSegment(b)
  {
    seq(|s|, k requires 0 <= k < |s| => s[k] as int)
  }

  lemma AsciiInjective(a: string, b: string)
    requires Plain(a) && Plain(b) && Ascii(a) == Ascii(b)
    ensures a == b
  {
    forall k | 0 <= k < |a|
      ensures a[k] == b[k]
    {
      assert Ascii(a)[k] == Ascii(b)[k];
    }
  }

  const SEED_COUNT: nat := 26

  /** The slot of the child of the application directory with these first three letters. */
  function SlotOfPrefix(a: char, b: char, c: char): nat {
    if a == 'S' then
      (if b == 'T' then 8 else if b == 'A' then 15 else if b == 'W' then 20 else if c == 'O' then 16 else 21)
    else if a == 'A' then (if b == 'S' then 22 else 13)
    else if a == 'H' then 4
    else if a == 'E' then 5
    else if a == 'L' then (if b == 'S' then 6 else 17)
    else if a == 'C' then (if b == 'A' then 7 else 24)
    else if a == 'M' then (if b == 'K' then 9 else if b == 'O' then 12 else 18)
    else if a == 'R' then 11
    else if a == 'W' then 10
    else if a == 'D' then 14
    else if a == 'P' then 19
    else if a == 'T' then 23
    else 25
  }

  /** The entries of the root, in id order. */
  function RootEntry(i: nat): (s: string)
    requires 1 <= i < 4
    ensures Plain(s)
  {
    match i
    case 1 => "README.TXT"
    case 2 => "SERVICES.TXT"
    case _ => "APPS"
  }

  predicate Fits(s: string, i: nat) {
    Plain(s) && |s| >= 3 && SlotOfPrefix(s[0], s[1], s[2]) == i
  }

  /** The entries of the application directory, in id order, in small groups. */
  function AppEntry1(i: nat): (s: string)
    requires 4 <= i < 8
    ensures Fits(s, i)
  {
    match i
    case 4 => "HELLO.TXT"
    case 5 => "ECHO.APP"
    case 6 => "LS.APP"
    case _ => "CAT.APP"
  }

  function AppEntry2(i: nat): (s: string)
    requires 8 <= i < 12
    ensures Fits(s, i)
  {
    match i
    case 8 => "STAT.APP"
    case 9 => "MKDIR.APP"
    case 10 => "WRITE.APP"
    case _ => "RENAME.APP"
  }

  function AppEntry3(i: nat): (s: string)
    requires 12 <= i < 16
    ensures Fits(s, i)
  {
    match i
    case 12 => "MOVE.APP"
    case 13 => "APPEND.APP"
    case 14 => "DELETE.APP"
    case _ => "SAY.APP"
  }

  function AppEntry4(i: nat): (s: string)
    requires 16 <= i < 20
    ensures Fits(s, i)
  {
    match i
    case 16 => "SHOW.APP"
    case 17 => "LIST.APP"
    case 18 => "MAKE.APP"
    case _ => "PUT.APP"
  }

  function AppEntry5(i: nat): (s: string)
    requires 20 <= i < 24
    ensures Fits(s, i)
  {
    match i
    case 20 => "SWAP.APP"
    case 21 => "SHIFT.APP"
    case 22 => "ASK.APP"
    case _ => "TOUCH.APP"
  }

  function AppEntry6(i: nat): (s: string)
    requires 24 <= i < SEED_COUNT
    ensures Fits(s, i)
  {
    match i
    case 24 => "COPY.APP"
    case _ => "INDEX.TXT"
  }

  function BootName(i: nat): (s: string)
    requires 0 < i < SEED_COUNT
    ensures Plain(s)
    ensures i >= 4 ==> Fits(s, i)
  {
    if i < 4 then RootEntry(i)
    else if i < 8 then AppEntry1(i)
    else if i < 12 then AppEntry2(i)
    else if i < 16 then AppEntry3(i)
    else if i < 20 then AppEntry4(i)
    else if i < 24 then AppEntry5(i)
    else AppEntry6(i)
  }

  lemma BootNamesDiffer(i: nat, j: nat)
    requires 0 < i < j < SEED_COUNT && (i < 4 <==> j < 4)
    ensures BootName(i) != BootName(j)
  {
    if i < 4 {
      assert RootEntry(i)[0] != RootEntry(j)[0];
    } else {
      assert Fits(BootName(i), i) && Fits(BootName(j), j);
    }
  }

  /** The boot table: the root holds two files and the application directory. */
  function BootSeed(i: nat, texts: seq<seq<u8>>): Seed
    requires i < SEED_COUNT && |texts| == SEED_COUNT
  {
    if i == 0 then Seed(ROOT, 0, DIRECTORY, [SLASH], None)
    else
      var parent := if i < 4 then ROOT else 4;
      if i == 3 then Seed(4, ROOT, DIRECTORY, Ascii(BootName(i)), None)
      else Seed(i + 1, parent, FILE, Ascii(BootName(i)), Some(texts[i]))
  }

  function BootSeeds(texts: seq<seq<u8>>): seq<Seed>
    requires |texts| == SEED_COUNT
  {
    seq(SEED_COUNT, i requires 0 <= i < SEED_COUNT => BootSeed(i, texts))
  }

  /** The seed table of the kernel meets the requirements, whatever its files say. */
  lemma BootSeedsOk(texts: seq<seq<u8>>)
    requires |texts| == SEED_COUNT
    ensures SeedsOk(BootSeeds(texts))
  {
    var seeds := BootSeeds(texts);
    forall i | 0 <= i < |seeds|
      ensures SeedOk(seeds, i)
    {
    }
    forall i, j | 0 <= i < j < |seeds| && seeds[i].parent == seeds[j].parent
      ensures seeds[i].name != seeds[j].name
    {
      if i != 0 {
        BootNamesDiffer(i, j);
        if seeds[i].name == seeds[j].name {
          AsciiInjective(BootName(i), BootName(j));
        }
      }
    }
  }
}
