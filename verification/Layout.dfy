/** The abstract state of a log: which records it holds and how segments divide them.

    The classes Segment and Log are proved against the functions here; the theorems about
    single operations and their invariant are about these functions. */
module Layouts {
  import opened Bytes
  import opened Codec
  import opened Framing
  import opened IndexFile

  datatype Config = Config(maxStore: nat, maxIndex: nat, initial: nat)

  /** What the code needs of a Config once NewLog has replaced zeroes by 1024: room for one index
      entry, 32-bit relative offsets, and store positions that fit the file API. */
  predicate GoodConfig(cfg: Config) {
    && 0 < cfg.maxStore <= 0x4000_0000_0000_0000
    && ENT_WIDTH <= cfg.maxIndex <= ENT_WIDTH * U32
    && cfg.initial < U64
  }

  /** NewLog's defaults. */
  function Defaulted(cfg: Config): Config {
    Config(if cfg.maxStore == 0 then 1024 else cfg.maxStore,
           if cfg.maxIndex == 0 then 1024 else cfg.maxIndex, cfg.initial)
  }

  /** segment.IsMaxed, as a question about the records a segment holds. */
  predicate Full(maxStore: nat, maxIndex: nat, rs: seq<Record>) {
    || |RecordFrames(rs)| >= maxStore
    || ENT_WIDTH * |rs| >= maxIndex
    || maxIndex < ENT_WIDTH * |rs| + ENT_WIDTH
  }

  /** When a segment is rolled over. The layout theorems hold for every rule. */
  type Rule = seq<Record> -> bool

  /** The rule a Config stands for. */
  function RuleOf(cfg: Config): Rule {
    SizeRule(cfg.maxStore, cfg.maxIndex)
  }

  function SizeRule(maxStore: nat, maxIndex: nat): Rule {
    rs => Full(maxStore, maxIndex, rs)
  }

  predicate SameLimits(a: Config, b: Config) {
    a.maxStore == b.maxStore && a.maxIndex == b.maxIndex
  }

  lemma RuleOfAccepts(cfg: Config)
    requires GoodConfig(cfg)
    ensures !RuleOf(cfg)([])
  {
    assert RecordFrames([]) == [];
  }

  /** A sealed segment became full with its last record and not before. */
  predicate Sealed(full: Rule, rs: seq<Record>) {
    && rs != []
    && full(rs)
    && !full(rs[..|rs| - 1])
  }

  function Concat(cs: seq<seq<Record>>): seq<Record> {
    if cs == [] then [] else Concat(cs[..|cs| - 1]) + cs[|cs| - 1]
  }

  lemma ConcatSnoc(cs: seq<seq<Record>>, x: seq<Record>)
    ensures Concat(cs + [x]) == Concat(cs) + x
  {
    assert (cs + [x])[..|cs|] == cs;
  }

  lemma {:induction false} ConcatAppend(a: seq<seq<Record>>, b: seq<seq<Record>>)
    ensures Concat(a + b) == Concat(a) + Concat(b)
    decreases |b|
  {
    if b == [] {
      assert a + b == a;
    } else {
      hide Concat;
      var b', x := b[..|b| - 1], b[|b| - 1];
      assert b == b' + [x] && a + b == (a + b') + [x];
      ConcatAppend(a, b');
      ConcatSnoc(a + b', x);
      ConcatSnoc(b', x);
    }
  }

  datatype Layout = Layout(full: Rule, base: nat, chunks: seq<seq<Record>>) {
    /** The live records, oldest first. */
    function Records(): seq<Record> {
      Concat(chunks)
    }

    /** The offset the next append will get. */
    function Next(): nat {
      base + |Records()|
    }

    /** The base offset of segment i. */
    function Start(i: nat): nat
      requires i <= |chunks|
    {
      base + |Concat(chunks[..i])|
    }

    /** Segments follow one another without a gap, and only the last may be empty. */
    ghost predicate Tiled() {
      && |chunks| > 0
      && forall i | 0 <= i < |chunks| - 1 :: chunks[i] != []
    }

    ghost predicate Valid() {
      && !full([])
      && |chunks| > 0
      && (forall i | 0 <= i < |chunks| - 1 :: Sealed(full, chunks[i]))
      && !full(chunks[|chunks| - 1])
      && Stamped(base, Records())
      && Next() < U64
    }

    function Last(): seq<Record>
      requires chunks != []
    {
      chunks[|chunks| - 1]
    }

    function Append(r: Record): Layout
      requires chunks != [] && Next() < U64
    {
      var last := Last() + [r.(offset := Next())];
      this.(chunks := chunks[..|chunks| - 1] + [last] + (if full(last) then [[]] else []))
    }

    function Read(off: nat): Result<Record> {
      if base <= off < Next() then Ok(Records()[off - base]) else Err(OffsetOutOfRange(off))
    }
  }

  /** The records carry consecutive offsets from `base`. */
  ghost predicate Stamped(base: nat, rs: seq<Record>) {
    forall k | 0 <= k < |rs| :: rs[k].offset == base + k && Storable(rs[k])
  }

  /** A brand-new log: one empty segment at the configured initial offset. */
  function Fresh(full: Rule, initial: nat): Layout {
    Layout(full, initial, [[]])
  }

  lemma FreshIsValid(full: Rule, initial: nat)
    requires !full([]) && initial < U64
    ensures Fresh(full, initial).Valid() && Fresh(full, initial).Records() == []
    ensures Fresh(full, initial).base == initial && Fresh(full, initial).full == full
  {
    assert Fresh(full, initial).chunks == [] + [[]];
    ConcatSnoc([], []);
  }

  /** What most uses of the invariant need of it. */
  lemma ValidFacts(l: Layout)
    requires l.Valid()
    ensures l.Tiled() && |l.chunks| > 0 && l.Next() < U64
  {
  }

  // ----- tiling -----

  lemma StartStep(s: Layout, i: nat)
    requires i < |s.chunks|
    ensures s.Start(i + 1) == s.Start(i) + |s.chunks[i]|
  {
    assert s.chunks[..i + 1] == s.chunks[..i] + [s.chunks[i]];
    ConcatSnoc(s.chunks[..i], s.chunks[i]);
  }

  lemma StartEnds(s: Layout)
    ensures s.Start(0) == s.base && s.Start(|s.chunks|) == s.Next()
  {
    assert s.chunks[..0] == [];
    assert s.chunks[..|s.chunks|] == s.chunks;
  }

  /** Segment i holds exactly the live records from its base on. */
  lemma ChunkSlice(s: Layout, i: nat)
    requires i < |s.chunks|
    ensures s.base <= s.Start(i) && s.Start(i) + |s.chunks[i]| <= s.Next()
    ensures s.Records()[s.Start(i) - s.base..s.Start(i) - s.base + |s.chunks[i]|] == s.chunks[i]
  {
    var left, right := s.chunks[..i], s.chunks[i + 1..];
    assert s.chunks == (left + [s.chunks[i]]) + right;
    ConcatAppend(left + [s.chunks[i]], right);
    ConcatSnoc(left, s.chunks[i]);
  }

  lemma {:induction false} StartMonotone(s: Layout, i: nat, j: nat)
    requires s.Tiled() && i <= j <= |s.chunks|
    ensures s.Start(i) <= s.Start(j)
    ensures i < j && i < |s.chunks| - 1 ==> s.Start(i) < s.Start(j)
    decreases j - i
  {
    if i < j {
      StartMonotone(s, i, j - 1);
      StartStep(s, j - 1);
    }
  }

  /** A live offset lies in exactly one segment, the one the scan in Read settles on. */
  lemma OneSegment(s: Layout, off: nat, i: nat)
    requires s.Tiled() && i < |s.chunks| && s.Start(i) <= off < s.Start(i) + |s.chunks[i]|
    ensures s.Read(off) == Ok(s.chunks[i][off - s.Start(i)])
    ensures forall j | 0 <= j < |s.chunks| && s.Start(j) <= off < s.Start(j) + |s.chunks[j]| :: j == i
  {
    ChunkSlice(s, i);
    var lo := s.Start(i) - s.base;
    assert s.Records()[lo..lo + |s.chunks[i]|][off - s.Start(i)] == s.Records()[off - s.base];
    forall j | 0 <= j < |s.chunks| && s.Start(j) <= off < s.Start(j) + |s.chunks[j]|
      ensures j == i
    {
      StartStep(s, i);
      StartStep(s, j);
      if j < i {
        StartMonotone(s, j + 1, i);
      } else if i < j {
        StartMonotone(s, i + 1, j);
      }
    }
  }

  /** Every live offset has a segment. */
  lemma {:induction false} SomeSegment(s: Layout, off: nat, n: nat) returns (i: nat)
    requires n <= |s.chunks| && s.base <= off < s.Start(n)
    ensures i < n && s.Start(i) <= off < s.Start(i) + |s.chunks[i]|
  {
    StartEnds(s);
    StartStep(s, n - 1);
    if off >= s.Start(n - 1) {
      i := n - 1;
    } else {
      i := SomeSegment(s, off, n - 1);
    }
  }

  // ----- append -----

  /** Append adds one stamped record at the end, leaves the rest alone and keeps the invariant. */
  lemma AppendEffect(s: Layout, r: Record)
    requires s.Valid() && Storable(r) && s.Next() < U64 - 1
    ensures s.Append(r).Valid()
    ensures s.Append(r).Records() == s.Records() + [r.(offset := s.Next())]
    ensures s.Append(r).base == s.base && s.Append(r).full == s.full
    ensures s.Append(r).Next() == s.Next() + 1
  {
    var stamped := r.(offset := s.Next());
    var front := s.chunks[..|s.chunks| - 1];
    var last := s.Last() + [stamped];
    var t := s.Append(r);
    ConcatSnoc(front, last);
    assert s.chunks == front + [s.Last()];
    ConcatSnoc(front, s.Last());
    assert Concat(front + [last]) == s.Records() + [stamped];
    if s.full(last) {
      ConcatSnoc(front + [last], []);
      assert last[..|last| - 1] == s.Last();
      assert Sealed(s.full, last);
    } else {
      assert t.chunks == front + [last];
    }
    assert t.Records() == s.Records() + [stamped];
  }

  /** Records of a Layout read back; earlier offsets are unaffected by an append. */
  lemma AppendReads(s: Layout, r: Record, off: nat)
    requires s.Valid() && Storable(r) && s.Next() < U64 - 1
    ensures s.Append(r).Read(s.Next()) == Ok(r.(offset := s.Next()))
    ensures off != s.Next() ==> s.Append(r).Read(off) == s.Read(off)
  {
    AppendEffect(s, r);
  }

  // ----- truncation -----

  /** How many leading segments lie entirely below `limit`. */
  function DropCount(base: nat, cs: seq<seq<Record>>, limit: nat): (k: nat)
    ensures k <= |cs|
    decreases |cs|
  {
    if cs == [] || limit < base + |cs[0]| then 0
    else 1 + DropCount(base + |cs[0]|, cs[1..], limit)
  }

  /** The comparison in Truncate is made in 64 bits, so the largest argument wraps to zero. */
  function Limit(lowest: u64): nat {
    (lowest + 1) % U64
  }

  function Truncate(s: Layout, lowest: u64): Layout {
    var k := DropCount(s.base, s.chunks, Limit(lowest));
    Layout(s.full, s.Start(k), s.chunks[k..])
  }

  lemma TruncateShape(s: Layout, lowest: u64, k: nat)
    requires k == DropCount(s.base, s.chunks, Limit(lowest))
    ensures Truncate(s, lowest) == Layout(s.full, s.Start(k), s.chunks[k..])
  {
  }

  /** The arguments after which the log still has its active segment. */
  predicate InRange(s: Layout, lowest: u64) {
    Limit(lowest) < s.Next()
  }

  lemma {:induction false} DropCountMeaning(s: Layout, m: nat, limit: nat)
    requires s.Tiled() && m <= |s.chunks| && s.Start(m) <= limit
    ensures var k := m + DropCount(s.Start(m), s.chunks[m..], limit);
            && k <= |s.chunks| && s.Start(k) <= limit
            && (k < |s.chunks| ==> limit < s.Start(k) + |s.chunks[k]|)
    decreases |s.chunks| - m
  {
    hide Layout.Start;
    if m < |s.chunks| && s.Start(m) + |s.chunks[m]| <= limit {
      StartStep(s, m);
      assert s.chunks[m..][1..] == s.chunks[m + 1..];
      DropCountMeaning(s, m + 1, limit);
    }
  }

  lemma DropFrom(s: Layout, k: nat)
    requires k <= |s.chunks|
    ensures s.base <= s.Start(k) <= s.Next()
    ensures Concat(s.chunks[k..]) == s.Records()[s.Start(k) - s.base..]
  {
    assert s.chunks == s.chunks[..k] + s.chunks[k..];
    ConcatAppend(s.chunks[..k], s.chunks[k..]);
  }

  lemma StartAfterDrop(l: Layout, k: nat, i: nat)
    requires k + i <= |l.chunks|
    ensures Layout(l.full, l.Start(k), l.chunks[k..]).Start(i) == l.Start(k + i)
  {
    assert l.chunks[..k + i] == l.chunks[..k] + l.chunks[k..][..i];
    ConcatAppend(l.chunks[..k], l.chunks[k..][..i]);
  }

  /** Dropping any proper prefix of segments keeps the invariant and every remaining record. */
  lemma DropKeepsValid(s: Layout, k: nat)
    requires s.Valid() && k < |s.chunks|
    ensures Layout(s.full, s.Start(k), s.chunks[k..]).Valid()
  {
    DropFrom(s, k);
    var t := Layout(s.full, s.Start(k), s.chunks[k..]);
    assert t.chunks[|t.chunks| - 1] == s.chunks[|s.chunks| - 1];
    forall i | 0 <= i < |t.chunks| - 1 ensures Sealed(t.full, t.chunks[i]) {
      assert t.chunks[i] == s.chunks[i + k];
    }
  }

  lemma BelowEverything(s: Layout, limit: nat)
    requires s.Tiled() && limit < s.base
    ensures DropCount(s.base, s.chunks, limit) == 0
  {
  }

  /** The exact effect of an in-range Truncate. When lowest + 1 is live, the new lowest offset is
      the base of the segment that holds lowest + 1; below the live range nothing is removed. */
  lemma TruncateEffect(s: Layout, lowest: u64)
    requires s.Valid() && InRange(s, lowest)
    ensures var t, k := Truncate(s, lowest), DropCount(s.base, s.chunks, Limit(lowest));
            && t.Valid() && t.full == s.full && t.Next() == s.Next()
            && k < |s.chunks| && t.base == s.Start(k) && t.chunks == s.chunks[k..]
            && s.base <= t.base <= s.Next()
            && t.Records() == s.Records()[t.base - s.base..]
            && (Limit(lowest) < s.base ==> t == s)
            && (s.base <= Limit(lowest) ==>
                  s.Start(k) <= Limit(lowest) < s.Start(k) + |s.chunks[k]|)
  {
    var limit := Limit(lowest);
    var k := DropCount(s.base, s.chunks, limit);
    StartEnds(s);
    if limit < s.base {
      BelowEverything(s, limit);
      assert s.chunks[0..] == s.chunks;
    } else {
      assert s.chunks[0..] == s.chunks;
      DropCountMeaning(s, 0, limit);
    }
    DropFrom(s, k);
    DropKeepsValid(s, k);
  }

  /** The largest argument wraps to limit 0, so it removes nothing, where the one before it removes everything:
      unless the log is empty at 0, which it leaves without a segment. */
  lemma TruncateWraps(s: Layout)
    requires s.Valid()
    ensures s.Next() > 0 ==> InRange(s, 0xFFFF_FFFF_FFFF_FFFF) && Truncate(s, 0xFFFF_FFFF_FFFF_FFFF) == s
    ensures s.Next() == 0 ==> Truncate(s, 0xFFFF_FFFF_FFFF_FFFF).chunks == []
    ensures Truncate(s, 0xFFFF_FFFF_FFFF_FFFE).chunks == []
  {
    hide Layout.Valid, Truncate, DropCount, Layout.Start, Concat;
    ValidFacts(s);
    TruncateEverything(s, 0xFFFF_FFFF_FFFF_FFFF);
    TruncateEverything(s, 0xFFFF_FFFF_FFFF_FFFE);
    assert Limit(0xFFFF_FFFF_FFFF_FFFF) == 0 && Limit(0xFFFF_FFFF_FFFF_FFFE) == U64 - 1;
    if s.Next() > 0 {
      TruncateAtZero(s, 0xFFFF_FFFF_FFFF_FFFF);
    }
  }

  lemma TruncateAtZero(s: Layout, lowest: u64)
    requires s.Valid() && Limit(lowest) == 0 < s.Next()
    ensures Truncate(s, lowest) == s
  {
    hide Layout.Valid, DropCount, Truncate, Layout.Start, Concat;
    ValidFacts(s);
    StartEnds(s);
    TruncateEffect(s, lowest);
    var k := DropCount(s.base, s.chunks, 0);
    if s.base == 0 && k > 0 {
      StartMonotone(s, 0, k);
    }
    TruncateShape(s, lowest, k);
    assert s.chunks[0..] == s.chunks;
  }

  /** Nothing above `lowest` is lost, surviving reads are unchanged, removed ones are refused. */
  lemma TruncateReads(s: Layout, lowest: u64, off: nat)
    requires s.Valid() && InRange(s, lowest)
    ensures off >= Truncate(s, lowest).base ==> Truncate(s, lowest).Read(off) == s.Read(off)
    ensures off < Truncate(s, lowest).base ==> Truncate(s, lowest).Read(off) == Err(OffsetOutOfRange(off))
    ensures off > lowest && lowest < U64 - 1 ==> Truncate(s, lowest).Read(off) == s.Read(off)
  {
    TruncateEffect(s, lowest);
  }

  lemma DropCountUnique(s: Layout, k: nat, limit: nat)
    requires s.Tiled() && k < |s.chunks| && s.Start(k) <= limit < s.Start(k) + |s.chunks[k]|
    ensures DropCount(s.base, s.chunks, limit) == k
  {
    StartEnds(s);
    StartMonotone(s, 0, k);
    assert s.chunks[0..] == s.chunks;
    DropCountMeaning(s, 0, limit);
    var d := DropCount(s.base, s.chunks, limit);
    if d == |s.chunks| {
      ChunkSlice(s, k);
      assert false;
    }
    OneSegment(s, limit, k);
  }

  /** An append touches the last segment only, so it commutes with dropping earlier ones. */
  lemma AppendAfterDrop(s: Layout, r: Record, k: nat)
    requires s.Valid() && k < |s.chunks| && s.Next() < U64 - 1
    ensures var t := Layout(s.full, s.Start(k), s.chunks[k..]);
            && t.Next() == s.Next()
            && t.Append(r) == Layout(s.full, s.Append(r).Start(k), s.Append(r).chunks[k..])
    ensures s.Append(r).Start(k) == s.Start(k) && |s.Append(r).chunks[k]| >= |s.chunks[k]|
  {
    DropFrom(s, k);
    var t := Layout(s.full, s.Start(k), s.chunks[k..]);
    assert t.Last() == s.Last();
    assert s.Append(r).chunks[..k] == s.chunks[..k];
    assert s.Append(r).chunks[k..] == t.Append(r).chunks;
  }

  /** Truncating before or after an append gives the same log. */
  lemma TruncateThenAppend(s: Layout, lowest: u64, r: Record)
    requires s.Valid() && InRange(s, lowest) && Storable(r) && s.Next() < U64 - 1
    ensures Truncate(s, lowest).Valid() && Truncate(s, lowest).Next() == s.Next()
    ensures Truncate(s.Append(r), lowest) == Truncate(s, lowest).Append(r)
  {
    var limit := Limit(lowest);
    var k := DropCount(s.base, s.chunks, limit);
    var t := s.Append(r);
    TruncateEffect(s, lowest);
    AppendEffect(s, r);
    AppendAfterDrop(s, r, k);
    if limit < s.base {
      BelowEverything(s, limit);
      BelowEverything(t, limit);
    } else {
      DropCountUnique(t, k, limit);
    }
  }

  /** Out of range, every segment goes: the list is left empty while the active segment dangles. */
  lemma TruncateEverything(s: Layout, lowest: u64)
    requires s.Valid()
    ensures Truncate(s, lowest).chunks == [] <==> !InRange(s, lowest)
  {
    StartEnds(s);
    var limit := Limit(lowest);
    if InRange(s, lowest) {
      TruncateEffect(s, lowest);
    } else {
      assert s.chunks[0..] == s.chunks;
      DropCountMeaning(s, 0, limit);
      var k := DropCount(s.base, s.chunks, limit);
      if k < |s.chunks| {
        ChunkSlice(s, k);
        assert false;
      }
    }
  }
}
