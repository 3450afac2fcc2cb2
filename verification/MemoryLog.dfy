/** _httpLogServer/server/log.go: the simple in-memory log the segmented one is measured against. */
module MemoryLogs {
  import opened Bytes
  import opened Codec
  import opened Layouts
  import opened Runs

  class MemoryLog {
    var records: seq<Record>

    constructor ()
      ensures records == []
    {
      records := [];
    }

    method Append(record: Record) returns (off: nat)
      requires |records| < U64
      modifies this
      ensures off == |old(records)| && Flat(records, 0) == Flat(old(records), 0).Append(record)
    {
      off := |records|;
      records := records + [record.(offset := off)];
    }

    /** None stands for the offset-not-found error. */
    method Read(off: nat) returns (r: Option<Record>)
      ensures r == Flat(records, 0).Read(off)
    {
      r := if off >= |records| then None else Some(records[off]);
    }
  }

  /** The in-memory log driven by a run, its offsets shifted by b as for a log that starts there. */
  method DriveMemory(b: nat, ops: seq<Op>) returns (replies: seq<Reply>)
    requires Plain(b, ops)
    ensures replies == ListRun(b, ops).1
  {
    var log := new MemoryLog();
    var i := 0;
    replies := [];
    assert ops[..0] == [];
    while i < |ops|
      invariant i <= |ops| && fresh(log) && |log.records| <= i
      invariant (Flat(log.records, 0), replies) == ListRun(b, ops[..i])
    {
      assert ops[..i + 1][..i] == ops[..i];
      var reply := Done;
      match ops[i] {
        case AppendOp(r) =>
          var off := log.Append(r);
          reply := Offset(b + off);
        case ReadOp(off) =>
          var found := None;
          if off >= b {
            found := log.Read(off - b);
          }
          match found {
            case Some(r) => reply := Found(Ok(Shift(b, r)));
            case None => reply := Found(Err(OffsetOutOfRange(off)));
          }
        case _ =>
      }
      replies := replies + [reply];
      i := i + 1;
    }
    assert ops[..i] == ops;
  }

  /** The two implementations side by side: the segmented byte-level log, closed and reopened wherever the
      run says, and the in-memory one give the same replies. */
  method SideBySide(c: Config, ops: seq<Op>) returns (segmented: seq<Reply>, simple: seq<Reply>)
    requires GoodConfig(Defaulted(c)) && Plain(c.initial, ops)
    ensures segmented == simple && |segmented| == |ops|
  {
    hide ListRun;
    segmented := BytesAreList(c, ops);
    simple := DriveMemory(c.initial, ops);
    ListReplies(c.initial, ops);
  }

  lemma {:induction false} ListReplies(b: nat, ops: seq<Op>)
    ensures |ListRun(b, ops).1| == |ops|
  {
    if ops != [] {
      ListReplies(b, ops[..|ops| - 1]);
    }
  }
}
