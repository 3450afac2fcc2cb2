/** Whole runs of a log: the invariant, the refinement of a flat list, and the driver that ties the
    byte-level classes to both. */
module Runs {
  import opened Bytes
  import opened Codec
  import opened Layouts
  import opened Disks
  import opened Images
  import opened Logs
  import opened Cuts

  datatype Op =
    | AppendOp(record: Record)
    | ReadOp(offset: u64)
    | TruncateOp(lowest: u64)
    | ReopenOp

  datatype Reply = Offset(off: nat) | Found(result: Result<Record>) | Done

  /** Closing and reopening is meant to be invisible: it changes neither the layout nor a reply. */
  function Step(l: Layout, op: Op): (Layout, Reply)
    requires Legal(l, op)
  {
    match op
    case AppendOp(r) => (l.Append(r), Offset(l.Next()))
    case ReadOp(off) => (l, Found(l.Read(off)))
    case TruncateOp(lowest) => (Truncate(l, lowest), Done)
    case ReopenOp => (l, Done)
  }

  /** The domain: a record a process can hold, an offset below 2^64 - 1, a truncation in range. */
  predicate Legal(l: Layout, op: Op) {
    match op
    case AppendOp(r) => l.chunks != [] && Storable(r) && l.Next() < U64 - 1
    case ReadOp(_) => true
    case TruncateOp(lowest) => InRange(l, lowest)
    case ReopenOp => true
  }

  predicate LegalRun(l: Layout, ops: seq<Op>)
    decreases |ops|, 0
  {
    ops == [] || (LegalRun(l, ops[..|ops| - 1]) && Legal(Run(l, ops[..|ops| - 1]).0, ops[|ops| - 1]))
  }

  function Run(l: Layout, ops: seq<Op>): (r: (Layout, seq<Reply>))
    requires LegalRun(l, ops)
    ensures |r.1| == |ops|
    decreases |ops|, 1
  {
    if ops == [] then (l, [])
    else
      var (m, replies) := Run(l, ops[..|ops| - 1]);
      var (n, reply) := Step(m, ops[|ops| - 1]);
      (n, replies + [reply])
  }

  lemma StepKeepsValid(l: Layout, op: Op)
    requires l.Valid() && Legal(l, op)
    ensures Step(l, op).0.Valid() && Step(l, op).0.full == l.full && l.base <= Step(l, op).0.base
  {
    match op
    case AppendOp(r) => AppendEffect(l, r);
    case TruncateOp(lowest) => TruncateEffect(l, lowest);
    case _ =>
  }

  /** Reachable states: every legal run keeps the segments tiling the live range, the sealed ones
      full and non-empty, and the active one last and not full. */
  lemma {:induction false} RunKeepsValid(l: Layout, ops: seq<Op>)
    requires l.Valid() && LegalRun(l, ops)
    ensures Run(l, ops).0.Valid() && Run(l, ops).0.full == l.full && l.base <= Run(l, ops).0.base
  {
    if ops != [] {
      var before := ops[..|ops| - 1];
      RunKeepsValid(l, before);
      StepKeepsValid(Run(l, before).0, ops[|ops| - 1]);
    }
  }

  // ----- the flat list -----

  /** The in-memory log: a list of records addressed by index, and the lowest index still wanted. */
  datatype Flat = Flat(records: seq<Record>, low: nat) {
    function Append(r: Record): Flat
      requires |records| < U64
    {
      this.(records := records + [r.(offset := |records|)])
    }

    function Read(off: nat): Option<Record> {
      if low <= off < |records| then Some(records[off]) else None
    }
  }

  /** A record of the flat list as the segmented log that starts at b returns it. */
  function Shift(b: nat, r: Record): Record {
    r.(offset := (r.offset + b) % U64)
  }

  /** The flat list's answer to an operation, shifted by b. */
  function FlatReply(b: nat, f: Flat, op: Op): Reply {
    match op
    case AppendOp(_) => Offset(b + |f.records|)
    case ReadOp(off) =>
      (match (if off < b then None else f.Read(off - b))
       case Some(r) => Found(Ok(Shift(b, r)))
       case None => Found(Err(OffsetOutOfRange(off))))
    case TruncateOp(_) => Done
    case ReopenOp => Done
  }

  /** The records of the flat list as the log that starts at b holds them. */
  function Shifted(b: nat, rs: seq<Record>): (out: seq<Record>)
    ensures |out| == |rs| && forall i | 0 <= i < |rs| :: out[i] == Shift(b, rs[i])
  {
    seq(|rs|, i requires 0 <= i < |rs| => Shift(b, rs[i]))
  }

  /** The flat list after an operation. A truncation moves the low mark to the start of the segment that the
      record after `lowest` went into, found by scanning the list with the rollover rule. */
  function FlatStep(full: Rule, b: nat, f: Flat, op: Op): (g: Flat)
    ensures |g.records| <= |f.records| + 1
  {
    match op
    case AppendOp(r) => if |f.records| < U64 then f.Append(r) else f
    case TruncateOp(lowest) =>
      var limit := Limit(lowest);
      if limit < b + f.low || b + |f.records| < limit then f
      else f.(low := SegmentStart(full, Shifted(b, f.records)[..limit - b]))
    case _ => f
  }

  /** The flat list driven by operations: only the rollover rule and the list itself are consulted. */
  function FlatRun(full: Rule, b: nat, f: Flat, ops: seq<Op>): (Flat, seq<Reply>) {
    if ops == [] then (f, [])
    else
      var (g, replies) := FlatRun(full, b, f, ops[..|ops| - 1]);
      (FlatStep(full, b, g, ops[|ops| - 1]), replies + [FlatReply(b, g, ops[|ops| - 1])])
  }

  /** l holds exactly the flat list from its low mark on, in segments cut where the rule cuts the list. */
  ghost predicate Matches(l: Layout, b: nat, f: Flat) {
    && l.base == b + f.low && f.low <= |f.records| && l.Next() == b + |f.records| < U64
    && (forall k | 0 <= k < |f.records| :: f.records[k].offset == k)
    && l.Records() == Shifted(b, f.records)[f.low..]
    && Aligned(l, b, Shifted(b, f.records))
  }

  lemma AppendMatches(l: Layout, b: nat, f: Flat, r: Record)
    requires l.Valid() && Legal(l, AppendOp(r)) && Matches(l, b, f)
    ensures Matches(l.Append(r), b, f.Append(r))
  {
    hide Layout.Valid, Layout.Append, Aligned, Concat;
    AppendEffect(l, r);
    var h, g := Shifted(b, f.records), Shifted(b, f.Append(r).records);
    assert Shift(b, f.Append(r).records[|f.records|]) == r.(offset := l.Next());
    assert g == h + [r.(offset := l.Next())];
    assert g[f.low..] == h[f.low..] + [r.(offset := l.Next())];
    AppendAligned(l, b, h, r);
  }

  lemma ReadMatches(l: Layout, b: nat, f: Flat, off: u64)
    requires Matches(l, b, f)
    ensures Found(l.Read(off)) == FlatReply(b, f, ReadOp(off))
  {
    hide Aligned, Concat, Shift;
    if l.base <= off < l.Next() {
      assert Shifted(b, f.records)[f.low..][off - l.base] == Shifted(b, f.records)[off - b];
    }
  }

  lemma TruncateMatches(l: Layout, b: nat, f: Flat, lowest: u64)
    requires l.Valid() && InRange(l, lowest) && Matches(l, b, f)
    ensures Matches(Truncate(l, lowest), b, FlatStep(l.full, b, f, TruncateOp(lowest)))
  {
    hide Layout.Valid, Truncate, Concat, Aligned, SegmentStart, Shift;
    TruncateEffect(l, lowest);
    var h := Shifted(b, f.records);
    TruncateScan(l, b, h, lowest);
    var t := Truncate(l, lowest);
    assert h[f.low..][t.base - l.base..] == h[t.base - b..];
  }

  /** One operation: the same reply, and the states still match. */
  lemma StepMatches(l: Layout, b: nat, f: Flat, op: Op)
    requires l.Valid() && Legal(l, op) && Matches(l, b, f)
    ensures Step(l, op).1 == FlatReply(b, f, op)
    ensures Matches(Step(l, op).0, b, FlatStep(l.full, b, f, op))
  {
    hide Matches, Layout.Valid, Layout.Append, Truncate, Layout.Read;
    MatchesNext(l, b, f);
    match op
    case AppendOp(r) => AppendMatches(l, b, f, r);
    case ReadOp(off) => ReadMatches(l, b, f, off);
    case TruncateOp(lowest) => TruncateMatches(l, b, f, lowest);
    case ReopenOp =>
  }

  lemma MatchesNext(l: Layout, b: nat, f: Flat)
    requires Matches(l, b, f)
    ensures l.Next() == b + |f.records| < U64
  {
  }

  /** Refinement over whole runs: every reply of the segmented log, truncated and reopened at will, is that of
      the flat list, shifted, and at the end the log holds the list from its low mark on. */
  lemma {:induction false} RunRefinesFlat(l: Layout, b: nat, f: Flat, ops: seq<Op>)
    requires l.Valid() && LegalRun(l, ops) && Matches(l, b, f)
    ensures Run(l, ops).1 == FlatRun(l.full, b, f, ops).1
    ensures Matches(Run(l, ops).0, b, FlatRun(l.full, b, f, ops).0)
  {
    hide Matches, Layout.Valid, Step, FlatStep, FlatReply, Legal;
    if ops != [] {
      var before, op := ops[..|ops| - 1], ops[|ops| - 1];
      RunRefinesFlat(l, b, f, before);
      RunKeepsValid(l, before);
      StepMatches(Run(l, before).0, b, FlatRun(l.full, b, f, before).0, op);
    }
  }

  /** From a fresh log the flat list starts empty, so the hypothesis of the refinement is met. */
  lemma FreshMatches(full: Rule, b: nat)
    requires !full([]) && b < U64
    ensures Fresh(full, b).Valid() && Matches(Fresh(full, b), b, Flat([], 0))
  {
    hide Aligned;
    FreshIsValid(full, b);
    FreshAligned(full, b);
    assert Shifted(b, []) == [];
  }

  /** The plain list driven by operations none of which truncates: no rule is consulted either. */
  function ListRun(b: nat, ops: seq<Op>): (r: (Flat, seq<Reply>))
    ensures r.0.low == 0 && |r.0.records| <= |ops|
  {
    if ops == [] then (Flat([], 0), [])
    else
      var (f, replies) := ListRun(b, ops[..|ops| - 1]);
      var op := ops[|ops| - 1];
      (if op.AppendOp? && |f.records| < U64 then f.Append(op.record) else f, replies + [FlatReply(b, f, op)])
  }

  lemma {:induction false} ListIsFlat(full: Rule, b: nat, ops: seq<Op>)
    requires forall i | 0 <= i < |ops| :: !ops[i].TruncateOp?
    ensures FlatRun(full, b, Flat([], 0), ops) == ListRun(b, ops)
  {
    hide FlatReply;
    if ops != [] {
      ListIsFlat(full, b, ops[..|ops| - 1]);
    }
  }

  /** Without truncation the log is the in-memory list, whatever the rollover rule and however often
      it is reopened: same offsets, same records, same out-of-range verdicts. */
  lemma LogIsList(full: Rule, b: nat, ops: seq<Op>)
    requires !full([]) && b < U64 && LegalRun(Fresh(full, b), ops)
    requires forall i | 0 <= i < |ops| :: !ops[i].TruncateOp?
    ensures Run(Fresh(full, b), ops).1 == ListRun(b, ops).1
  {
    hide Matches, Layout.Valid, Run, FlatRun, ListRun, Fresh;
    FreshIsValid(full, b);
    FreshMatches(full, b);
    RunRefinesFlat(Fresh(full, b), b, Flat([], 0), ops);
    ListIsFlat(full, b, ops);
  }

  // ----- the byte-level driver -----

  /** The next offset when the files were last opened, given that it was m at the start of the run. */
  function MarkAfter(m: nat, l: Layout, ops: seq<Op>): nat
    requires LegalRun(l, ops)
  {
    if ops == [] then m
    else if ops[|ops| - 1].ReopenOp? then Run(l, ops[..|ops| - 1]).0.Next()
    else MarkAfter(m, l, ops[..|ops| - 1])
  }

  /** Executes a run on real segments, stores, indexes and files. Reopening really closes the log and
      builds a new one from the directory; the replies and the final state are those of Run. */
  method Drive(log: Log, ops: seq<Op>) returns (final: Log, replies: seq<Reply>)
    requires log.Valid() && LegalRun(log.state, ops)
    modifies log, log.dir, log.Repr
    ensures final.Valid() && final.state == Run(old(log.state), ops).0
    ensures replies == Run(old(log.state), ops).1
    ensures final.mark == MarkAfter(old(log.mark), old(log.state), ops) && final.dir == log.dir
    ensures (final == log || fresh(final)) && fresh(final.Repr - old(log.Repr))
  {
    hide Layout.Valid, Log.Valid, Step, Legal;
    ghost var l := log.state;
    var i := 0;
    final, replies := log, [];
    assert ops[..0] == [];
    while i < |ops|
      invariant i <= |ops| && final.Valid() && final.dir == log.dir
      invariant final == log || fresh(final)
      invariant fresh(final.Repr - old(log.Repr))
      invariant LegalRun(l, ops[..i]) && (final.state, replies) == Run(l, ops[..i])
      invariant final.mark == MarkAfter(old(log.mark), l, ops[..i])
    {
      RunPrefix(l, ops, i);
      assert ops[..i + 1][..i] == ops[..i];
      var reply;
      final, reply := Execute(final, ops[i]);
      replies := replies + [reply];
      i := i + 1;
    }
    assert ops[..i] == ops;
  }

  lemma RunPrefix(l: Layout, ops: seq<Op>, i: nat)
    requires LegalRun(l, ops) && i < |ops|
    ensures LegalRun(l, ops[..i]) && LegalRun(l, ops[..i + 1])
    ensures Legal(Run(l, ops[..i]).0, ops[i])
    ensures var (m, replies) := Run(l, ops[..i]);
            Run(l, ops[..i + 1]) == (Step(m, ops[i]).0, replies + [Step(m, ops[i]).1])
    decreases |ops|
  {
    assert ops[..i + 1][..i] == ops[..i];
    if i + 1 < |ops| {
      var before := ops[..|ops| - 1];
      RunPrefix(l, before, i);
      assert before[..i] == ops[..i] && before[..i + 1] == ops[..i + 1];
    } else {
      assert ops[..i + 1] == ops;
    }
  }

  /** One operation on the byte-level log. */
  method Execute(log: Log, op: Op) returns (after: Log, reply: Reply)
    requires log.Valid() && Legal(log.state, op)
    modifies log, log.dir, log.Repr
    ensures after.Valid() && after.dir == log.dir
    ensures (after.state, reply) == Step(old(log.state), op)
    ensures after == log || fresh(after)
    ensures fresh(after.Repr - old(log.Repr))
    ensures after.mark == if op.ReopenOp? then old(log.state).Next() else old(log.mark)
  {
    hide Layout.Valid, Holds, RuleOf, NamesOf, Starts, CleanImage, Layout.Append, Truncate, Layout.Next, Layout.Read;
    after := log;
    match op {
      case AppendOp(r) =>
        var off := log.Append(r);
        reply := Offset(off.value);
      case ReadOp(off) =>
        var r := log.Read(off);
        reply := Found(r);
      case TruncateOp(lowest) =>
        log.Truncate(lowest);
        reply := Done;
      case ReopenOp =>
        log.Close();
        after := new Log(log.dir, log.config, log.state);
        reply := Done;
    }
  }

  // ----- the whole stack -----

  /** Appends of records a process can hold, reads and reopenings, below the last offset. */
  predicate Plain(b: nat, ops: seq<Op>) {
    && b + |ops| < U64
    && forall i | 0 <= i < |ops| ::
         !ops[i].TruncateOp? && (ops[i].AppendOp? ==> Storable(ops[i].record))
  }

  lemma {:induction false} PlainIsLegal(full: Rule, b: nat, ops: seq<Op>)
    requires !full([]) && Plain(b, ops)
    ensures LegalRun(Fresh(full, b), ops) && Run(Fresh(full, b), ops).0.Next() <= b + |ops|
  {
    hide Layout.Valid, Layout.Append, Fresh, Concat;
    FreshIsValid(full, b);
    if ops != [] {
      var before := ops[..|ops| - 1];
      PlainIsLegal(full, b, before);
      RunKeepsValid(Fresh(full, b), before);
      var l := Run(Fresh(full, b), before).0;
      ValidFacts(l);
      match ops[|ops| - 1]
      case AppendOp(r) => AppendEffect(l, r);
      case _ =>
    }
  }

  /** The same with truncations anywhere in range: the replies are those of the flat list, whose low mark is
      moved by scanning the list itself. */
  method BytesAreFlat(c: Config, ops: seq<Op>) returns (replies: seq<Reply>)
    requires GoodConfig(Defaulted(c)) && LegalRun(Fresh(RuleOf(Defaulted(c)), c.initial), ops)
    ensures replies == FlatRun(RuleOf(Defaulted(c)), c.initial, Flat([], 0), ops).1
  {
    hide Layout.Valid, Log.Valid, RuleOf, LegalRun, Run, FlatRun, Matches, Fresh, Loadable;
    var dir := new Disk();
    NothingToLoad(c);
    FreshIsValid(RuleOf(Defaulted(c)), c.initial);
    var log := SetupLog(dir, c, Fresh(RuleOf(Defaulted(c)), c.initial));
    FreshMatches(RuleOf(log.config), c.initial);
    RunRefinesFlat(log.state, c.initial, Flat([], 0), ops);
    var final;
    final, replies := Drive(log, ops);
  }

  /** From an empty directory, through frames, buffers, index maps, rollovers and files, and through any
      number of closings and reopenings: every reply is that of the in-memory list, whatever the limits. */
  method BytesAreList(c: Config, ops: seq<Op>) returns (replies: seq<Reply>)
    requires GoodConfig(Defaulted(c)) && Plain(c.initial, ops)
    ensures replies == ListRun(c.initial, ops).1
  {
    hide Layout.Valid, Log.Valid, RuleOf, LegalRun, Run, ListRun, Matches, Fresh, Loadable;
    var dir := new Disk();
    NothingToLoad(c);
    var log := SetupLog(dir, c, Fresh(RuleOf(Defaulted(c)), c.initial));
    PlainIsLegal(RuleOf(log.config), c.initial, ops);
    LogIsList(RuleOf(log.config), c.initial, ops);
    var final;
    final, replies := Drive(log, ops);
  }
}
