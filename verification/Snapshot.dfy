/** internal/log/distributed.go, Restore: a log rebuilt from a snapshot stream. */
module Snapshots {
  import opened Bytes
  import opened Codec
  import opened Framing
  import opened Layouts
  import opened Logs
  import opened Fsms
  import opened Images
  import opened Disks

  /** One turn of the decode loop: eight bytes of length, that many bytes, one record. A length whose
      top bit is set is negative as an int64 and copies nothing. */
  function TakeRecord(s: seq<byte>): (r: Result<(Record, seq<byte>)>)
    requires s != []
    ensures r.Ok? ==> |r.value.1| < |s| && |r.value.0.value| <= |s|
  {
    if |s| < LEN_WIDTH then Err(UnexpectedEOF)
    else
      var n := FromBigEndian(s[..LEN_WIDTH]);
      var size := if n < 0x8000_0000_0000_0000 then n else 0;
      var rest := s[LEN_WIDTH..];
      if |rest| < size then Err(EOF)
      else
        match Unmarshal(rest[..size])
        case Err(e) => Err(e)
        case Ok(r) => Ok((r, rest[size..]))
  }

  /** What one turn makes of any length and any bytes after it: too few bytes for the length, or for what it asks,
      are two different errors; a message that does not decode is its own; a length with the top bit set takes no
      bytes and yields an empty record. */
  lemma TakeRecordIs(n: u64, rest: seq<byte>)
    ensures TakeRecord(BigEndian(n, 8) + rest)
            == if n >= 0x8000_0000_0000_0000 then Ok((EMPTY_RECORD, rest))
               else if |rest| < n then Err(EOF)
               else match Unmarshal(rest[..n])
                    case Err(e) => Err(e)
                    case Ok(r) => Ok((r, rest[n..]))
    ensures forall k | 0 < k < 8 :: TakeRecord(BigEndian(n, 8)[..k]) == Err(UnexpectedEOF)
  {
    hide Merge;
    WordRoundTrip(n, 8);
    var s := BigEndian(n, 8) + rest;
    assert s[..8] == BigEndian(n, 8) && s[8..] == rest;
    assert rest[..0] == [] && rest[0..] == rest;
    NothingMerged();
  }

  lemma NothingMerged()
    ensures Merge(EMPTY_RECORD, []) == Some(EMPTY_RECORD)
  {
  }

  /** The log a record is appended to: the first record resets it to start at that record's offset. */
  function Target(l: Layout, r: Record, first: bool): Layout {
    if first then Fresh(l.full, r.offset) else l
  }

  /** Every append of the restore gets an offset below 2^64 - 1. */
  predicate InDomain(l: Layout, s: seq<byte>, first: bool)
    decreases |s|
  {
    && l.chunks != []
    && (s == [] || match TakeRecord(s)
                   case Err(_) => true
                   case Ok((r, rest)) =>
                     var m := Target(l, r, first);
                     m.Next() < U64 - 1 && InDomain(m.Append(r), rest, false))
  }

  /** Restore with Reset taken by its comment. */
  function Restored(l: Layout, s: seq<byte>, first: bool): (Layout, Result<()>)
    requires InDomain(l, s, first)
    decreases |s|
  {
    if s == [] then (l, Ok(()))
    else
      match TakeRecord(s)
      case Err(e) => (l, Err(e))
      case Ok((r, rest)) => Restored(Target(l, r, first).Append(r), rest, false)
  }

  /** The first record of a stream is split off whole, whatever follows it. */
  lemma TakeFrame(r: Record, tail: seq<byte>)
    requires Storable(r)
    ensures TakeRecord(Frame(Marshal(r)) + tail) == Ok((r, tail))
  {
    hide Marshal, Unmarshal;
    MarshalRoundTrip(r);
    var p := Marshal(r);
    var s := Frame(p) + tail;
    WordRoundTrip(|p|, 8);
    assert s[..LEN_WIDTH] == BigEndian(|p|, LEN_WIDTH);
    assert s[LEN_WIDTH..] == p + tail;
    assert (p + tail)[..|p|] == p && (p + tail)[|p|..] == tail;
  }

  lemma TakeFirst(r: Record, rs: seq<Record>)
    requires Storable(r)
    ensures RecordFrames([r] + rs) != []
    ensures TakeRecord(RecordFrames([r] + rs)) == Ok((r, RecordFrames(rs)))
  {
    hide Marshal, RecordFrames, TakeRecord;
    RecordFramesCons(r, rs);
    TakeFrame(r, RecordFrames(rs));
  }

  /** A stream that ends inside a frame is an error: of one kind within the length, of another within
      the record. */
  lemma TakeCut(r: Record, cut: nat)
    requires Storable(r) && 0 < cut < |Frame(Marshal(r))|
    ensures TakeRecord(Frame(Marshal(r))[..cut]) == Err(if cut < LEN_WIDTH then UnexpectedEOF else EOF)
  {
    hide Marshal, Unmarshal;
    MarshalRoundTrip(r);
    var p := Marshal(r);
    WordRoundTrip(|p|, 8);
    if cut >= LEN_WIDTH {
      assert Frame(p)[..cut][..LEN_WIDTH] == BigEndian(|p|, LEN_WIDTH);
    }
  }

  /** Records whose offsets continue the log are appended as they are; then the loop is at the tail. */
  lemma {:induction false} RestoreTail(l: Layout, rs: seq<Record>, tail: seq<byte>) returns (m: Layout)
    requires l.Valid() && Stamped(l.Next(), rs) && l.Next() + |rs| < U64
    ensures m.Valid() && m.full == l.full && m.base == l.base && m.Records() == l.Records() + rs
    ensures InDomain(m, tail, false) ==>
              && InDomain(l, RecordFrames(rs) + tail, false)
              && Restored(l, RecordFrames(rs) + tail, false) == Restored(m, tail, false)
    decreases |rs|
  {
    hide TakeRecord, Layout.Valid, RecordFrames, Concat, Layout.Append, Frame, Marshal;
    ValidFacts(l);
    if rs == [] {
      m := l;
      EmptyStream();
      assert [] + tail == tail;
      assert l.Records() + [] == l.Records();
    } else {
      var r, rest := rs[0], rs[1..];
      assert rs == [r] + rest;
      RecordFramesCons(r, rest);
      assert RecordFrames(rs) + tail == Frame(Marshal(r)) + (RecordFrames(rest) + tail);
      StampedTail(l.Next(), rs);
      TakeFrame(r, RecordFrames(rest) + tail);
      AppendEffect(l, r);
      assert r.(offset := l.Next()) == r;
      m := RestoreTail(l.Append(r), rest, tail);
      assert l.Records() + [r] + rest == l.Records() + rs;
    }
  }

  lemma StampedTail(b: nat, rs: seq<Record>)
    requires Stamped(b, rs) && rs != []
    ensures rs[0].offset == b && Storable(rs[0]) && Stamped(b + 1, rs[1..])
  {
  }

  /** The same from the start of a stream, where the first record resets the log. */
  lemma RestoreRun(b: nat, rs: seq<Record>, tail: seq<byte>, dst: Layout) returns (m: Layout)
    requires dst.Valid() && rs != [] && Stamped(b, rs) && b + |rs| < U64
    ensures m.Valid() && m.full == dst.full && m.base == b && m.Records() == rs
    ensures InDomain(m, tail, false) ==>
              && InDomain(dst, RecordFrames(rs) + tail, true)
              && Restored(dst, RecordFrames(rs) + tail, true) == Restored(m, tail, false)
  {
    hide TakeRecord, RecordFrames, Concat, Layout.Append, Fresh, Frame, Marshal;
    var r, rest := rs[0], rs[1..];
    assert rs == [r] + rest;
    RecordFramesCons(r, rest);
    assert RecordFrames(rs) + tail == Frame(Marshal(r)) + (RecordFrames(rest) + tail);
    StampedTail(b, rs);
    TakeFrame(r, RecordFrames(rest) + tail);
    var f := Fresh(dst.full, r.offset);
    FreshIsValid(dst.full, r.offset);
    AppendEffect(f, r);
    assert r.(offset := f.Next()) == r;
    m := RestoreTail(f.Append(r), rest, tail);
    assert [] + [r] + rest == rs;
  }

  /** Restoring any non-empty run of consecutively numbered records gives a log of just those records
      at just those offsets, under the target's own segment limits. */
  lemma RestoreStream(b: nat, rs: seq<Record>, dst: Layout)
    requires dst.Valid() && rs != [] && Stamped(b, rs) && b + |rs| < U64
    ensures InDomain(dst, RecordFrames(rs), true)
    ensures var (m, r) := Restored(dst, RecordFrames(rs), true);
            && r == Ok(()) && m.Valid() && m.full == dst.full && m.base == b && m.Records() == rs
  {
    hide TakeRecord, RecordFrames, Concat, Layout.Valid;
    var m := RestoreRun(b, rs, [], dst);
    ValidFacts(m);
    assert RecordFrames(rs) + [] == RecordFrames(rs);
  }

  /** A snapshot cut short inside a frame is refused, after the whole frames before it are in place. */
  lemma RestoreCutShort(b: nat, rs: seq<Record>, r: Record, cut: nat, dst: Layout)
    requires dst.Valid() && rs != [] && Stamped(b, rs) && b + |rs| < U64
    requires Storable(r) && 0 < cut < |Frame(Marshal(r))|
    ensures var s := RecordFrames(rs) + Frame(Marshal(r))[..cut];
            && InDomain(dst, s, true)
            && Restored(dst, s, true).0.base == b && Restored(dst, s, true).0.Records() == rs
            && Restored(dst, s, true).1 == Err(if cut < LEN_WIDTH then UnexpectedEOF else EOF)
  {
    hide TakeRecord, RecordFrames, Concat, Layout.Valid, Frame, Marshal;
    var tail := Frame(Marshal(r))[..cut];
    var m := RestoreRun(b, rs, tail, dst);
    ValidFacts(m);
    TakeCut(r, cut);
  }

  ghost predicate SameLog(l: Layout, m: Layout) {
    l.base == m.base && l.Records() == m.Records()
  }

  /** Snapshot round trip: restoring the quiescent stream of a log that has records gives the same first
      offset, offsets and records. An empty snapshot has no first record, so nothing is reset and the target
      keeps what it had: the source is reproduced exactly when it has records or the target already agreed. */
  lemma RestoreReproduces(src: Layout, dst: Layout)
    requires src.Valid() && dst.Valid()
    ensures InDomain(dst, RecordFrames(src.Records()), true)
    ensures SameLog(Restored(dst, RecordFrames(src.Records()), true).0, src)
            <==> src.Records() != [] || SameLog(dst, src)
  {
    hide RecordFrames, Concat, TakeRecord;
    EmptyStream();
    if src.Records() != [] {
      RestoreStream(src.base, src.Records(), dst);
    }
  }

  /** The failing input: an empty source, and a target that holds a record and keeps it. */
  lemma RestoreKeepsTarget(full: Rule, b: nat, r: Record)
    requires !full([]) && b < U64 - 1 && Storable(r)
    ensures Fresh(full, b).Valid() && Fresh(full, b).Append(r).Valid()
    ensures var src, dst := Fresh(full, b), Fresh(full, b).Append(r);
            && InDomain(dst, RecordFrames(src.Records()), true)
            && Restored(dst, RecordFrames(src.Records()), true) == (dst, Ok(()))
            && !SameLog(dst, src)
  {
    hide RecordFrames, Concat, TakeRecord, Layout.Append, Fresh, Layout.Valid;
    FreshIsValid(full, b);
    ValidFacts(Fresh(full, b));
    AppendEffect(Fresh(full, b), r);
    ValidFacts(Fresh(full, b).Append(r));
    EmptyStream();
  }

  // ----- the state machine over the byte-level log -----

  datatype ResetMode = AsWritten | AsDocumented

  class Fsm {
    const log: Log

    constructor (log: Log)
      ensures this.log == log
    {
      this.log := log;
    }

    method Apply(cmd: seq<byte>) returns (response: Response)
      requires log.Valid() && Applicable(cmd) && log.state.Next() < U64 - 1
      modifies log, log.dir, log.Repr
      ensures log.Valid() && log.state.chunks != [] && fresh(log.Repr - old(log.Repr)) && log.mark == old(log.mark)
      ensures (log.state, response) == Fsms.Apply(old(log.state), cmd)
    {
      hide Layout.Valid, Holds, NamesOf, UnmarshalRequest;
      ValidState(log);
      if cmd[0] == APPEND_REQUEST {
        var req := UnmarshalRequest(cmd[1..]);
        match req {
          case Err(e) => response := Failed(e);
          case Ok(None) => response := Ignored;
          case Ok(Some(r)) =>
            var off := log.Append(r);
            ValidState(log);
            match off {
              case Err(e) => response := Failed(e);
              case Ok(o) => response := Produced(o);
            }
        }
      } else {
        response := Ignored;
      }
    }

    /** The decode loop. With Reset as written it fails on the first record of any snapshot, after the data is
        gone; a stream whose first frame cannot be read fails before that and leaves the log alone; so it
        succeeds exactly on the empty stream. With Reset as documented it computes Restored. */
    method Restore(stream: seq<byte>, mode: ResetMode) returns (r: Result<()>)
      requires log.Valid() && |stream| < MAX_VALUE
      requires mode.AsDocumented? ==> InDomain(log.state, stream, true)
      modifies log, log.dir, log.Repr
      ensures mode.AsWritten? ==> (r.Ok? <==> stream == [])
      ensures mode.AsWritten? && r.Ok? ==> log.Valid() && log.state == old(log.state)
      ensures mode.AsWritten? && stream != [] ==>
                match TakeRecord(stream)
                case Err(e) => r == Err(e) && log.Valid() && log.state == old(log.state)
                case Ok(_) =>
                  && r == Err(NotExist) && !log.dir.present && log.dir.files == map[]
                  && log.segments == old(log.segments)
      ensures mode.AsDocumented? ==>
                log.Valid() && (log.state, r) == Restored(old(log.state), stream, true)
                && fresh(log.Repr - old(log.Repr))
    {
      hide Layout.Valid, Log.Valid, TakeRecord, Layout.Append, Layout.Next, Fresh, RuleOf;
      ghost var l := log.state;
      var rest, i := stream, 0;
      while rest != []
        invariant log.Valid() && fresh(log.Repr - old(log.Repr)) && |rest| <= |stream| && i >= 0
        invariant mode.AsWritten? ==> i == 0 && rest == stream && log.state == l && log.segments == old(log.segments)
        invariant mode.AsDocumented? ==>
                    && InDomain(log.state, rest, i == 0)
                    && Restored(log.state, rest, i == 0) == Restored(l, stream, true)
        decreases |rest|
      {
        var next := TakeRecord(rest);
        match next {
          case Err(e) => return Err(e);
          case Ok((record, tail)) =>
            if i == 0 {
              var done := ResetTo(record.offset, mode);
              match done {
                case Err(e) => return Err(e);
                case Ok(_) =>
              }
            }
            var off := log.Append(record);
            match off {
              case Err(e) => return Err(e);
              case Ok(_) =>
            }
            rest, i := tail, i + 1;
        }
      }
      r := Ok(());
    }

    method ResetTo(off: u64, mode: ResetMode) returns (r: Result<()>)
      requires log.Valid()
      modifies log, log.dir, log.Repr
      ensures mode.AsWritten? ==>
                r == Err(NotExist) && !log.dir.present && log.dir.files == map[] && log.segments == old(log.segments)
      ensures mode.AsDocumented? ==>
                r == Ok(()) && log.Valid() && log.state == Fresh(old(log.state).full, off) && fresh(log.Repr)
    {
      hide Layout.Valid, Holds, NamesOf, Fresh, SizeRule;
      log.SetInitial(off);
      if mode.AsWritten? {
        r := log.Reset();
      } else {
        r := log.ResetAsDocumented();
      }
    }
  }

  /** A replica from an empty directory that applies a committed sequence through the byte-level log. */
  method RunReplica(c: Config, cmds: seq<seq<byte>>) returns (log: Log, responses: seq<Response>)
    requires GoodConfig(Defaulted(c)) && Committable(c.initial, cmds)
    ensures log.Valid() && (log.state, responses) == Replica(RuleOf(Defaulted(c)), c.initial, cmds)
    ensures log.mark == c.initial && fresh(log) && fresh(log.dir) && fresh(log.Repr)
  {
    hide Layout.Valid, Log.Valid, RuleOf, Apply, Applicable, Fresh, Loadable, Concat;
    NothingToLoad(c);
    FreshIsValid(RuleOf(Defaulted(c)), c.initial);
    var dir := new Disk();
    log := SetupLog(dir, c, Fresh(RuleOf(Defaulted(c)), c.initial));
    var fsm := new Fsm(log);
    var i := 0;
    responses := [];
    assert cmds[..0] == [];
    while i < |cmds|
      invariant i <= |cmds| && log.Valid() && fresh(log.Repr) && fresh(log) && fresh(log.dir)
      invariant log.mark == c.initial
      invariant (log.state, responses) == Replica(RuleOf(Defaulted(c)), c.initial, cmds[..i])
    {
      assert cmds[..i + 1][..i] == cmds[..i];
      ValidState(log);
      var response := fsm.Apply(cmds[i]);
      responses := responses + [response];
      i := i + 1;
    }
    assert cmds[..i] == cmds;
  }

}
