/** How many segments a run can create. */
module Bounds {
  import opened Bytes
  import opened Arithmetic
  import opened Codec
  import opened Framing
  import opened IndexFile
  import opened Layouts
  import opened Runs

  /** The number of entries an index file has room for. */
  function Capacity(cfg: Config): (c: nat)
    requires GoodConfig(cfg)
    ensures c > 0
  {
    cfg.maxIndex / ENT_WIDTH
  }

  /** A sealed segment holds at most Capacity records and less than maxStore plus its last frame in bytes;
      and it was sealed for a reason: the index is full or the store has reached its limit. */
  lemma SealedBounds(cfg: Config, rs: seq<Record>)
    requires GoodConfig(cfg) && Sealed(RuleOf(cfg), rs)
    ensures |rs| <= Capacity(cfg)
    ensures |RecordFrames(rs)| < cfg.maxStore + |Frame(Marshal(rs[|rs| - 1]))|
    ensures |rs| == Capacity(cfg) || |RecordFrames(rs)| >= cfg.maxStore
  {
    hide RecordFrames, Marshal;
    var front := rs[..|rs| - 1];
    assert rs == front + [rs[|rs| - 1]];
    RecordFramesSnoc(front, rs[|rs| - 1]);
    assert !Full(cfg.maxStore, cfg.maxIndex, front);
    assert Full(cfg.maxStore, cfg.maxIndex, rs);
  }

  /** How many of the segments reached the store limit. */
  function ByBytes(maxStore: nat, cs: seq<seq<Record>>): (n: nat)
    ensures n <= |cs|
  {
    if cs == [] then 0
    else ByBytes(maxStore, cs[..|cs| - 1]) + if |RecordFrames(cs[|cs| - 1])| >= maxStore then 1 else 0
  }

  lemma {:induction false} BytesCounted(maxStore: nat, cs: seq<seq<Record>>)
    ensures ByBytes(maxStore, cs) * maxStore <= |RecordFrames(Concat(cs))|
  {
    hide RecordFrames;
    if cs != [] {
      var front, last := cs[..|cs| - 1], cs[|cs| - 1];
      BytesCounted(maxStore, front);
      RecordFramesConcat(Concat(front), last);
      if |RecordFrames(last)| >= maxStore {
        assert ByBytes(maxStore, cs) * maxStore == ByBytes(maxStore, front) * maxStore + maxStore;
      }
    }
  }

  /** Segments that did not reach the store limit hold at least c records each. */
  lemma {:induction false} RecordsCounted(maxStore: nat, c: nat, cs: seq<seq<Record>>)
    requires forall i | 0 <= i < |cs| :: |RecordFrames(cs[i])| >= maxStore || |cs[i]| >= c
    ensures (|cs| - ByBytes(maxStore, cs)) * c <= |Concat(cs)|
  {
    hide RecordFrames;
    if cs != [] {
      var front, last := cs[..|cs| - 1], cs[|cs| - 1];
      RecordsCounted(maxStore, c, front);
      var n := |front| - ByBytes(maxStore, front);
      if |RecordFrames(last)| < maxStore {
        assert |cs| - ByBytes(maxStore, cs) == n + 1;
        assert (n + 1) * c == n * c + c;
      }
    }
  }

  /** The sealed segments of a valid layout are bounded by the bytes and the records it holds. */
  lemma SealedCount(l: Layout, cfg: Config)
    requires l.Valid() && GoodConfig(cfg) && l.full == RuleOf(cfg)
    ensures |l.chunks| - 1 <= |RecordFrames(l.Records())| / cfg.maxStore + |l.Records()| / Capacity(cfg)
  {
    hide RecordFrames, Capacity, RuleOf;
    var cs := l.chunks[..|l.chunks| - 1];
    RecordFramesConcat(Concat(cs), l.Last());
    BytesCounted(cfg.maxStore, cs);
    forall i | 0 <= i < |cs| ensures |RecordFrames(cs[i])| >= cfg.maxStore || |cs[i]| >= Capacity(cfg) {
      assert Sealed(l.full, l.chunks[i]);
      SealedBounds(cfg, l.chunks[i]);
    }
    RecordsCounted(cfg.maxStore, Capacity(cfg), cs);
    QuotientAtLeast(ByBytes(cfg.maxStore, cs), cfg.maxStore, |RecordFrames(l.Records())|);
    QuotientAtLeast(|cs| - ByBytes(cfg.maxStore, cs), Capacity(cfg), |l.Records()|);
  }

  // ----- over runs with truncation -----

  /** The run without its truncations. */
  function Kept(ops: seq<Op>): seq<Op> {
    if ops == [] then []
    else Kept(ops[..|ops| - 1]) + if ops[|ops| - 1].TruncateOp? then [] else [ops[|ops| - 1]]
  }

  function Dropped(u: Layout, k: nat): Layout
    requires k <= |u.chunks|
  {
    Layout(u.full, u.Start(k), u.chunks[k..])
  }

  lemma DropTwice(u: Layout, k: nat, j: nat)
    requires k <= |u.chunks| && j <= |u.chunks| - k
    ensures Dropped(Dropped(u, k), j) == Dropped(u, k + j)
  {
    StartAfterDrop(u, k, j);
    assert u.chunks[k..][j..] == u.chunks[k + j..];
  }

  lemma DropNext(u: Layout, k: nat)
    requires u.Valid() && k < |u.chunks|
    ensures Dropped(u, k).Next() == u.Next() && Dropped(u, k).chunks != []
  {
    DropFrom(u, k);
  }

  lemma RunSnoc(l: Layout, ops: seq<Op>, op: Op)
    requires LegalRun(l, ops) && Legal(Run(l, ops).0, op)
    ensures LegalRun(l, ops + [op]) && Run(l, ops + [op]).0 == Step(Run(l, ops).0, op).0
  {
    assert (ops + [op])[..|ops|] == ops;
  }

  /** Truncation only ever drops leading segments: where the boundaries between segments fall is the same
      as if the log had never been truncated. */
  lemma {:induction false} TruncationOnlyDrops(l: Layout, ops: seq<Op>) returns (k: nat)
    requires l.Valid() && LegalRun(l, ops)
    ensures LegalRun(l, Kept(ops)) && k < |Run(l, Kept(ops)).0.chunks|
    ensures Run(l, ops).0 == Dropped(Run(l, Kept(ops)).0, k)
    decreases |ops|
  {
    hide Layout.Append, Truncate, Layout.Start, Layout.Valid, Concat;
    if ops == [] {
      k := 0;
      ValidFacts(l);
      StartEnds(l);
      assert l.chunks[0..] == l.chunks;
    } else {
      var before, op := ops[..|ops| - 1], ops[|ops| - 1];
      var j := TruncationOnlyDrops(l, before);
      assert Kept(ops) == if op.TruncateOp? then Kept(before) else Kept(before) + [op];
      k := ExtendDrop(l, Run(l, before).0, Run(l, Kept(before)).0, j, op, Kept(before));
    }
  }

  lemma ExtendDrop(l: Layout, m: Layout, u: Layout, j: nat, op: Op, kept: seq<Op>) returns (k: nat)
    requires l.Valid() && LegalRun(l, kept) && Run(l, kept).0 == u
    requires j < |u.chunks| && m == Dropped(u, j) && Legal(m, op)
    ensures var kept' := if op.TruncateOp? then kept else kept + [op];
            && LegalRun(l, kept') && k < |Run(l, kept').0.chunks|
            && Step(m, op).0 == Dropped(Run(l, kept').0, k)
  {
    hide Layout.Append, Truncate, Layout.Start, Layout.Valid, Concat, InRange;
    RunKeepsValid(l, kept);
    DropNext(u, j);
    k := j;
    match op
    case AppendOp(r) =>
      AppendDrop(u, r, j);
      RunSnoc(l, kept, op);
    case TruncateOp(lowest) =>
      DropKeepsValid(u, j);
      var d := TruncateIsDrop(m, lowest);
      DropTwice(u, j, d);
      k := j + d;
    case ReadOp(_) => RunSnoc(l, kept, op);
    case ReopenOp => RunSnoc(l, kept, op);
  }

  lemma AppendDrop(u: Layout, r: Record, j: nat)
    requires u.Valid() && j < |u.chunks| && u.Next() < U64 - 1
    ensures u.chunks != [] && Dropped(u, j).chunks != [] && Dropped(u, j).Next() == u.Next()
    ensures j < |u.Append(r).chunks| && Dropped(u, j).Append(r) == Dropped(u.Append(r), j)
  {
    AppendAfterDrop(u, r, j);
  }

  lemma TruncateIsDrop(m: Layout, lowest: u64) returns (d: nat)
    requires m.Valid() && InRange(m, lowest)
    ensures d < |m.chunks| && Truncate(m, lowest) == Dropped(m, d)
  {
    TruncateEffect(m, lowest);
    d := DropCount(m.base, m.chunks, Limit(lowest));
  }

  /** Over any run, truncated segments included, the number of segments ever sealed is at most
      totalBytes / maxStore + totalRecords / Capacity. */
  lemma SegmentsEverSealed(cfg: Config, ops: seq<Op>) returns (k: nat)
    requires GoodConfig(cfg) && LegalRun(Fresh(RuleOf(cfg), cfg.initial), ops)
    ensures LegalRun(Fresh(RuleOf(cfg), cfg.initial), Kept(ops))
    ensures var l := Run(Fresh(RuleOf(cfg), cfg.initial), ops).0;
            var u := Run(Fresh(RuleOf(cfg), cfg.initial), Kept(ops)).0;
            && k < |u.chunks| && l == Dropped(u, k)
            && k + (|l.chunks| - 1)
               <= |RecordFrames(u.Records())| / cfg.maxStore + |u.Records()| / Capacity(cfg)
  {
    hide RecordFrames, RuleOf, Layout.Valid, Fresh, Capacity, Concat, Layout.Start;
    RuleOfAccepts(cfg);
    var f := Fresh(RuleOf(cfg), cfg.initial);
    FreshIsValid(RuleOf(cfg), cfg.initial);
    k := TruncationOnlyDrops(f, ops);
    RunKeepsValid(f, Kept(ops));
    SealedCount(Run(f, Kept(ops)).0, cfg);
  }
}
