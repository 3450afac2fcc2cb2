/** Length-prefixed frames, the only structure a store file has. */
module Framing {
  import opened Bytes
  import opened Codec

  const LEN_WIDTH: nat := 8

  function Frame(p: seq<byte>): (s: seq<byte>)
    ensures |s| == LEN_WIDTH + |p|
  {
    BigEndian(|p|, LEN_WIDTH) + p
  }

  function Frames(ps: seq<seq<byte>>): seq<byte> {
    if ps == [] then [] else Frames(ps[..|ps| - 1]) + Frame(ps[|ps| - 1])
  }

  lemma FramesSnoc(ps: seq<seq<byte>>, p: seq<byte>)
    ensures Frames(ps + [p]) == Frames(ps) + Frame(p)
  {
    assert (ps + [p])[..|ps|] == ps;
  }

  lemma {:induction false} FramesConcat(a: seq<seq<byte>>, b: seq<seq<byte>>)
    ensures Frames(a + b) == Frames(a) + Frames(b)
    decreases |b|
  {
    if b == [] {
      assert a + b == a;
    } else {
      hide Frames, Frame;
      var b', p := b[..|b| - 1], b[|b| - 1];
      assert b == b' + [p] && a + b == (a + b') + [p];
      FramesConcat(a, b');
      FramesSnoc(a + b', p);
      FramesSnoc(b', p);
    }
  }

  /** What a positioned read of one frame yields: the length prefix first, then that many bytes. */
  function ReadFrame(data: seq<byte>, pos: nat): Result<seq<byte>> {
    if pos + LEN_WIDTH > |data| then Err(EOF)
    else
      var n := FromBigEndian(data[pos..pos + LEN_WIDTH]);
      if pos + LEN_WIDTH + n > |data| then Err(EOF)
      else Ok(data[pos + LEN_WIDTH..pos + LEN_WIDTH + n])
  }

  lemma ReadFrameBetween(before: seq<byte>, p: seq<byte>, after: seq<byte>)
    requires |p| < U64
    ensures ReadFrame(before + Frame(p) + after, |before|) == Ok(p)
  {
    var data, pos := before + Frame(p) + after, |before|;
    WordRoundTrip(|p|, 8);
    assert data[pos..pos + LEN_WIDTH] == BigEndian(|p|, LEN_WIDTH);
    assert data[pos + LEN_WIDTH..pos + LEN_WIDTH + |p|] == p;
  }

  /** Every position handed out by an append reads back its payload, whatever follows it. */
  lemma ReadFrameAt(ps: seq<seq<byte>>, k: nat, after: seq<byte>)
    requires k < |ps| && |ps[k]| < U64
    ensures ReadFrame(Frames(ps) + after, |Frames(ps[..k])|) == Ok(ps[k])
  {
    hide Frames, Frame, ReadFrame;
    var left, right := ps[..k], ps[k + 1..];
    assert ps == (left + [ps[k]]) + right;
    FramesConcat(left + [ps[k]], right);
    FramesSnoc(left, ps[k]);
    assert Frames(ps) + after == Frames(left) + Frame(ps[k]) + (Frames(right) + after);
    ReadFrameBetween(Frames(left), ps[k], Frames(right) + after);
  }

  // ----- frames of records -----

  function Payloads(rs: seq<Record>): (ps: seq<seq<byte>>)
    ensures |ps| == |rs| && forall i | 0 <= i < |rs| :: ps[i] == Marshal(rs[i])
  {
    seq(|rs|, i requires 0 <= i < |rs| => Marshal(rs[i]))
  }

  /** The store bytes of a run of records. */
  function RecordFrames(rs: seq<Record>): seq<byte> {
    Frames(Payloads(rs))
  }

  lemma EmptyStream()
    ensures RecordFrames([]) == []
  {
  }

  lemma RecordFramesSnoc(rs: seq<Record>, r: Record)
    ensures RecordFrames(rs + [r]) == RecordFrames(rs) + Frame(Marshal(r))
  {
    hide Frames, Frame, Marshal;
    assert Payloads(rs + [r]) == Payloads(rs) + [Marshal(r)];
    FramesSnoc(Payloads(rs), Marshal(r));
  }

  lemma RecordFramesConcat(a: seq<Record>, b: seq<Record>)
    ensures RecordFrames(a + b) == RecordFrames(a) + RecordFrames(b)
  {
    hide Frames, Marshal;
    assert Payloads(a + b) == Payloads(a) + Payloads(b);
    FramesConcat(Payloads(a), Payloads(b));
  }

  lemma RecordFramesCons(r: Record, rs: seq<Record>)
    ensures RecordFrames([r] + rs) == Frame(Marshal(r)) + RecordFrames(rs)
  {
    RecordFramesConcat([r], rs);
    RecordFramesSnoc([], r);
    assert [] + [r] == [r];
    assert RecordFrames([]) == [];
    assert RecordFrames([r]) == Frame(Marshal(r));
  }

  lemma RecordFrameAt(rs: seq<Record>, k: nat, after: seq<byte>)
    requires k < |rs| && Storable(rs[k])
    ensures ReadFrame(RecordFrames(rs) + after, |RecordFrames(rs[..k])|) == Ok(Marshal(rs[k]))
  {
    hide Frames, Marshal, ReadFrame, Unmarshal;
    MarshalRoundTrip(rs[k]);
    assert Payloads(rs)[..k] == Payloads(rs[..k]);
    ReadFrameAt(Payloads(rs), k, after);
  }
}
