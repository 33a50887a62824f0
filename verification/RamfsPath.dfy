/**
 Slash-separated byte paths and the segments they denote.

 `RawSegments` lists the maximal slash-free runs; `Segments` drops the "." runs.
 Every path walker of the file system is proved against these two functions.
 */
module RamfsPath {
  import opened Prelude
  import opened CStrings

  type Segment = seq<u8>

  const SLASH: u8 := 47
  const DOT: u8 := 46
  const DOT_SEGMENT: Segment := [DOT]

  /** A name that a path can spell: non-empty, no NUL, no slash, and not ".". */
  predicate IsSegment(s: Segment) {
    s != [] && s != DOT_SEGMENT && NonZero(s) && SLASH !in s
  }

  /** Length of the leading slash-free run. */
  function RunLength(p: seq<u8>): (n: nat)
    ensures n <= |p|
    ensures SLASH !in p[..n]
    ensures n < |p| ==> p[n] == SLASH
  {
    if p == [] || p[0] == SLASH then 0 else 1 + RunLength(p[1..])
  }

  function RawSegments(p: seq<u8>): seq<Segment>
    decreases |p|
  {
    if p == [] then []
    else if p[0] == SLASH then RawSegments(p[1..])
    else var n := RunLength(p); [p[..n]] + RawSegments(p[n..])
  }

  function DropDots(s: seq<Segment>): seq<Segment> {
    if s == [] then []
    else if s[0] == DOT_SEGMENT then DropDots(s[1..])
    else [s[0]] + DropDots(s[1..])
  }

  function Segments(p: seq<u8>): seq<Segment> {
    DropDots(RawSegments(p))
  }

  /** The run of slash-free bytes starting at a non-slash position is unique. */
  lemma {:induction false} RunLengthIs(p: seq<u8>, n: nat)
    requires n <= |p| && SLASH !in p[..n] && (n < |p| ==> p[n] == SLASH)
    ensures RunLength(p) == n
  {
    if n != 0 {
      assert p[..n][0] == p[0];
      assert p[1..][..n - 1] == p[..n][1..];
      RunLengthIs(p[1..], n - 1);
    }
  }

  /** One segment step of a walker that stands at `lo` and scanned to `hi`. */
  lemma RawSegmentsStep(p: seq<u8>, lo: nat, hi: nat)
    requires lo < hi <= |p| && SLASH !in p[lo..hi] && (hi < |p| ==> p[hi] == SLASH)
    ensures RawSegments(p[lo..]) == [p[lo..hi]] + RawSegments(p[hi..])
    ensures IsSegment(p[lo..hi]) || p[lo..hi] == DOT_SEGMENT || !NonZero(p)
  {
    var q := p[lo..];
    assert q[..hi - lo] == p[lo..hi];
    RunLengthIs(q, hi - lo);
    assert q[0] == p[lo..hi][0];
    assert q[hi - lo..] == p[hi..];
  }

  /** A walker may skip a slash. */
  lemma RawSegmentsSkip(p: seq<u8>, at: nat)
    requires at < |p| && p[at] == SLASH
    ensures RawSegments(p[at..]) == RawSegments(p[at + 1..])
  {
    assert p[at..][1..] == p[at + 1..];
  }

  lemma {:induction false} DropDotsConcat(a: seq<Segment>, b: seq<Segment>)
    ensures DropDots(a + b) == DropDots(a) + DropDots(b)
  {
    if a == [] {
      assert a + b == b;
    } else {
      assert (a + b)[1..] == a[1..] + b;
      DropDotsConcat(a[1..], b);
    }
  }

  lemma {:induction false} RawSegmentsConcat(a: seq<u8>, b: seq<u8>)
    ensures RawSegments(a + [SLASH] + b) == RawSegments(a) + RawSegments(b)
    decreases |a|
  {
    var p := a + [SLASH] + b;
    if a == [] {
      assert p[1..] == b;
    } else if a[0] == SLASH {
      assert p[1..] == a[1..] + [SLASH] + b;
      RawSegmentsConcat(a[1..], b);
    } else {
      var n := RunLength(a);
      var rest := a[n..] + [SLASH] + b;
      assert p[..n] == a[..n] && p[n..] == rest;
      assert p[n] == SLASH by { assert p[n] == rest[0]; }
      RunLengthIs(p, n);
      RawSegmentsConcat(a[n..], b);
      assert RawSegments(p) == [a[..n]] + RawSegments(rest);
    }
  }

  /** Joining two paths with a slash concatenates what they denote. */
  lemma SegmentsConcat(a: seq<u8>, b: seq<u8>)
    ensures Segments(a + [47] + b) == Segments(a) + Segments(b)
  {
    RawSegmentsConcat(a, b);
    DropDotsConcat(RawSegments(a), RawSegments(b));
  }

  /** Every denoted segment of a NUL-free path is a legal name. */
  lemma {:induction false} RawSegmentsLegal(p: seq<u8>)
    requires NonZero(p)
    ensures forall s :: s in RawSegments(p) ==> IsSegment(s) || s == DOT_SEGMENT
    decreases |p|
  {
    if p != [] {
      if p[0] == SLASH {
        RawSegmentsLegal(p[1..]);
      } else {
        RawSegmentsLegal(p[RunLength(p)..]);
      }
    }
  }

  /** A path whose last run is not "." denotes what comes before it, then that run. */
  lemma SegmentsSplit(path: seq<u8>)
    requires var raw := RawSegments(path); raw != [] && raw[|raw| - 1] != DOT_SEGMENT
    ensures var raw := RawSegments(path);
            && (NonZero(path) ==> IsSegment(raw[|raw| - 1]))
            && Segments(path) == DropDots(raw[..|raw| - 1]) + [raw[|raw| - 1]]
  {
    var raw := RawSegments(path);
    var init, last := raw[..|raw| - 1], raw[|raw| - 1];
    assert raw == init + [last];
    DropDotsConcat(init, [last]);
    assert DropDots([last]) == [last];
    if NonZero(path) {
      RawSegmentsLegal(path);
      assert last in raw;
    }
  }

  /** The canonical spelling of a segment list. */
  function Spell(segs: seq<Segment>): seq<u8> {
    if segs == [] then [] else [SLASH] + segs[0] + Spell(segs[1..])
  }

  /** Spelling then splitting gives the segments back. */
  lemma {:induction false} SpellSegments(segs: seq<Segment>)
    requires forall s :: s in segs ==> IsSegment(s)
    ensures Segments(Spell(segs)) == segs
    ensures NonZero(Spell(segs))
  {
    if segs != [] {
      var p, s, rest := Spell(segs), segs[0], Spell(segs[1..]);
      assert IsSegment(s);
      SpellSegments(segs[1..]);
      assert p[1..] == s + rest;
      assert rest != [] ==> rest[0] == SLASH;
      assert (s + rest)[..|s|] == s;
      RunLengthIs(s + rest, |s|);
      assert (s + rest)[|s|..] == rest;
      assert RawSegments(p) == [s] + RawSegments(rest);
    }
  }

  /**
   A path without a slash denotes itself, unless it is empty or ".". With `SegmentsConcat` this
   fixes what every path denotes.
   */
  lemma SegmentsOfRun(run: seq<u8>)
    requires 47 !in run
    ensures Segments(run) == if run == [] || run == [46] then [] else [run]
  {
    if run != [] {
      assert run[..|run|] == run;
      RunLengthIs(run, |run|);
      assert RawSegments(run) == [run];
      assert DropDots([run][1..]) == [];
      assert [run] + [] == [run];
    }
  }
}
