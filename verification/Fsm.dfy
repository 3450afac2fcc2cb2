/** internal/log/distributed.go, fsm: committed commands applied to the logs of replicas. */
module Fsms {
  import opened Bytes
  import opened Codec
  import opened Layouts

  // ----- commands -----

  const APPEND_REQUEST: byte := 0

  /** The bytes DistributedLog.apply hands to Raft for an append. */
  function Command(r: Record): seq<byte> {
    [APPEND_REQUEST] + MarshalRequest(r)
  }

  /** The record a command makes the state machine append, if any. */
  function Decoded(cmd: seq<byte>): Option<Record>
    requires cmd != []
  {
    if cmd[0] != APPEND_REQUEST then None
    else
      match UnmarshalRequest(cmd[1..])
      case Ok(Some(r)) => Some(r)
      case _ => None
  }

  datatype Response = Ignored | Produced(offset: nat) | Failed(error: Error)

  /** Commands the process survives: not empty, of a size a slice can have, and not an append request
      without a record. */
  predicate Applicable(cmd: seq<byte>) {
    && 0 < |cmd| < MAX_VALUE
    && !(cmd[0] == APPEND_REQUEST && UnmarshalRequest(cmd[1..]) == Ok(None))
  }

  function Apply(l: Layout, cmd: seq<byte>): (Layout, Response)
    requires Applicable(cmd) && l.chunks != [] && l.Next() < U64
  {
    if cmd[0] != APPEND_REQUEST then (l, Ignored)
    else
      match UnmarshalRequest(cmd[1..])
      case Err(e) => (l, Failed(e))
      case Ok(None) => (l, Ignored)
      case Ok(Some(r)) => (l.Append(r), Produced(l.Next()))
  }

  lemma CommandRoundTrip(r: Record)
    requires Storable(r) && |r.value| < MAX_VALUE - 64
    ensures Applicable(Command(r)) && Decoded(Command(r)) == Some(r)
  {
    RequestRoundTrip(r);
    assert Command(r)[1..] == MarshalRequest(r);
  }

  lemma ApplyIsAppend(l: Layout, cmd: seq<byte>)
    requires Applicable(cmd) && l.chunks != [] && l.Next() < U64
    ensures match Decoded(cmd)
            case None => Apply(l, cmd).0 == l && !Apply(l, cmd).1.Produced?
            case Some(r) => Storable(r) && Apply(l, cmd) == (l.Append(r), Produced(l.Next()))
  {
  }

  /** What each command does and what Raft is told: the type in the first byte, 0 for an append; a type the state
      machine does not know changes nothing and answers nothing; a request that does not decode changes nothing and
      answers with its error; any other adds its record and answers with the offset it got. */
  lemma ApplyAnswers(l: Layout, cmd: seq<byte>)
    requires l.Valid() && Applicable(cmd) && l.Next() < U64 - 1
    ensures l.chunks != []
    ensures var (m, response) := Apply(l, cmd);
            && (cmd[0] != 0 ==> m == l && response == Ignored)
            && (cmd[0] == 0 ==>
                  match UnmarshalRequest(cmd[1..])
                  case Err(e) => m == l && response == Failed(e)
                  case Ok(None) => false
                  case Ok(Some(r)) =>
                    m.Records() == l.Records() + [r.(offset := l.Next())] && response == Produced(l.Next()))
  {
    hide Layout.Valid, Layout.Append, Concat, UnmarshalRequest;
    ValidFacts(l);
    if cmd[0] == 0 && UnmarshalRequest(cmd[1..]).Ok? {
      RequestIsStorable(cmd);
      AppendEffect(l, UnmarshalRequest(cmd[1..]).value.value);
    }
  }

  lemma RequestIsStorable(cmd: seq<byte>)
    requires Applicable(cmd) && cmd[0] == 0 && UnmarshalRequest(cmd[1..]).Ok?
    ensures var r := UnmarshalRequest(cmd[1..]).value; r.Some? && Storable(r.value)
  {
  }

  // ----- replicas -----

  predicate Committable(b: nat, cmds: seq<seq<byte>>) {
    && b + |cmds| < U64
    && forall i | 0 <= i < |cmds| :: Applicable(cmds[i])
  }

  /** The records a committed sequence stands for, stamped from b on. No layout is consulted. */
  function Effects(b: nat, cmds: seq<seq<byte>>): (rs: seq<Record>)
    requires Committable(b, cmds)
    ensures |rs| <= |cmds|
  {
    if cmds == [] then []
    else
      var rs := Effects(b, cmds[..|cmds| - 1]);
      match Decoded(cmds[|cmds| - 1])
      case None => rs
      case Some(r) => rs + [r.(offset := b + |rs|)]
  }

  /** A replica with any rollover rule after applying the sequence once, in order, from empty. */
  function Replica(full: Rule, b: nat, cmds: seq<seq<byte>>): (r: (Layout, seq<Response>))
    requires !full([]) && Committable(b, cmds)
    ensures r.0.Valid() && r.0.Next() <= b + |cmds| && |r.1| == |cmds|
  {
    FreshIsValid(full, b);
    if cmds == [] then (Fresh(full, b), [])
    else
      var (l, responses) := Replica(full, b, cmds[..|cmds| - 1]);
      ValidFacts(l);
      ApplyKeeps(l, cmds[|cmds| - 1]);
      var (m, response) := Apply(l, cmds[|cmds| - 1]);
      (m, responses + [response])
  }

  lemma ApplyKeeps(l: Layout, cmd: seq<byte>)
    requires l.Valid() && Applicable(cmd) && l.Next() < U64 - 1
    ensures Apply(l, cmd).0.Valid() && Apply(l, cmd).0.Next() <= l.Next() + 1
  {
    ApplyStep(l, cmd);
  }

  lemma {:induction false} ReplicaState(full: Rule, b: nat, cmds: seq<seq<byte>>)
    requires !full([]) && Committable(b, cmds)
    ensures Replica(full, b, cmds).0.base == b && Replica(full, b, cmds).0.Records() == Effects(b, cmds)
  {
    hide Apply, Applicable, Decoded, Layout.Valid, Concat, Fresh;
    FreshIsValid(full, b);
    if cmds != [] {
      ReplicaState(full, b, cmds[..|cmds| - 1]);
      var l := Replica(full, b, cmds[..|cmds| - 1]).0;
      ValidFacts(l);
      ApplyStep(l, cmds[|cmds| - 1]);
    }
  }

  lemma ApplyStep(l: Layout, cmd: seq<byte>)
    requires l.Valid() && Applicable(cmd) && l.Next() < U64 - 1
    ensures var m := Apply(l, cmd).0;
            && m.Valid() && m.base == l.base && m.full == l.full
            && m.Records() == match Decoded(cmd)
                              case None => l.Records()
                              case Some(r) => l.Records() + [r.(offset := l.Next())]
  {
    hide Layout.Valid, Layout.Append, Apply;
    ValidFacts(l);
    ApplyIsAppend(l, cmd);
    match Decoded(cmd)
    case None =>
    case Some(r) => AppendEffect(l, r);
  }

  lemma {:induction false} EffectsPrefix(b: nat, cmds: seq<seq<byte>>, i: nat)
    requires Committable(b, cmds) && i <= |cmds|
    ensures Effects(b, cmds[..i]) <= Effects(b, cmds)
    decreases |cmds|
  {
    hide Decoded, Applicable;
    if i == |cmds| {
      assert cmds[..i] == cmds;
    } else {
      var before := cmds[..|cmds| - 1];
      EffectsPrefix(b, before, i);
      assert before[..i] == cmds[..i];
    }
  }

  lemma EffectsSnoc(b: nat, cmds: seq<seq<byte>>, k: nat)
    requires Committable(b, cmds) && k < |cmds| && Decoded(cmds[k]).Some?
    ensures var rs := Effects(b, cmds[..k]);
            && b + |rs| < U64
            && Effects(b, cmds[..k + 1]) == rs + [Decoded(cmds[k]).value.(offset := b + |rs|)]
  {
    hide Decoded, Applicable;
    assert cmds[..k + 1][..k] == cmds[..k];
  }

  /** What a replica answers is a matter of the commands alone, not of its segment limits. */
  lemma ReplicaReads(full: Rule, b: nat, cmds: seq<seq<byte>>, off: nat)
    requires !full([]) && Committable(b, cmds)
    ensures var rs := Effects(b, cmds);
            Replica(full, b, cmds).0.Read(off)
            == if b <= off < b + |rs| then Ok(rs[off - b]) else Err(OffsetOutOfRange(off))
  {
    ReplicaState(full, b, cmds);
  }

  /** Replica agreement: replicas that have applied any two prefixes of one committed sequence return
      the same record at every offset both hold. */
  lemma ReplicasAgree(full1: Rule, full2: Rule, b: nat, cmds: seq<seq<byte>>, i: nat, j: nat, off: nat)
    requires !full1([]) && !full2([]) && Committable(b, cmds) && i <= |cmds| && j <= |cmds|
    ensures var l, m := Replica(full1, b, cmds[..i]).0, Replica(full2, b, cmds[..j]).0;
            l.Read(off).Ok? && m.Read(off).Ok? ==> l.Read(off) == m.Read(off)
  {
    hide Replica, Applicable, Effects, Layout.Read;
    ReplicaReads(full1, b, cmds[..i], off);
    ReplicaReads(full2, b, cmds[..j], off);
    EffectsPrefix(b, cmds, i);
    EffectsPrefix(b, cmds, j);
  }

  ghost predicate AgreeEverywhere(l: Layout, m: Layout) {
    forall off: nat | l.Read(off).Ok? && m.Read(off).Ok? :: l.Read(off) == m.Read(off)
  }

  /** How much of the hypothesis is needed: fed two arbitrary sequences, replicas agree everywhere if and
      only if one's effects are a prefix of the other's. The state machine keeps no applied index, so a
      command delivered twice counts twice. */
  lemma AgreementCondition(full1: Rule, full2: Rule, b: nat, cmds1: seq<seq<byte>>, cmds2: seq<seq<byte>>)
    requires !full1([]) && !full2([]) && Committable(b, cmds1) && Committable(b, cmds2)
    ensures var e1, e2 := Effects(b, cmds1), Effects(b, cmds2);
            AgreeEverywhere(Replica(full1, b, cmds1).0, Replica(full2, b, cmds2).0) <==> e1 <= e2 || e2 <= e1
  {
    hide Replica, Applicable, Effects, Layout.Read;
    var l, m := Replica(full1, b, cmds1).0, Replica(full2, b, cmds2).0;
    var e1, e2 := Effects(b, cmds1), Effects(b, cmds2);
    forall off: nat
      ensures l.Read(off) == if b <= off < b + |e1| then Ok(e1[off - b]) else Err(OffsetOutOfRange(off))
      ensures m.Read(off) == if b <= off < b + |e2| then Ok(e2[off - b]) else Err(OffsetOutOfRange(off))
    {
      ReplicaReads(full1, b, cmds1, off);
      ReplicaReads(full2, b, cmds2, off);
    }
    if AgreeEverywhere(l, m) {
      forall k | 0 <= k < |e1| && k < |e2| ensures e1[k] == e2[k] {
        assert l.Read(b + k) == m.Read(b + k);
      }
    }
  }

  // ----- composing and repeating -----

  /** The same records numbered from b. */
  function Restamp(b: nat, rs: seq<Record>): (out: seq<Record>)
    requires b + |rs| <= U64
    ensures |out| == |rs| && forall i | 0 <= i < |rs| :: out[i] == rs[i].(offset := b + i)
  {
    seq(|rs|, i requires 0 <= i < |rs| => rs[i].(offset := b + i))
  }

  lemma CommittableParts(b: nat, first: seq<seq<byte>>, second: seq<seq<byte>>)
    requires Committable(b, first + second)
    ensures Committable(b, first) && Committable(b + |Effects(b, first)|, second)
  {
    hide Applicable, Effects;
    forall i | 0 <= i < |first| ensures Applicable(first[i]) {
      assert (first + second)[i] == first[i];
    }
    forall i | 0 <= i < |second| ensures Applicable(second[i]) {
      assert (first + second)[|first| + i] == second[i];
    }
  }

  /** The effects of a sequence are those of its first part followed by those of the rest. */
  lemma {:induction false} EffectsConcat(b: nat, first: seq<seq<byte>>, second: seq<seq<byte>>)
    requires Committable(b, first + second)
    ensures Committable(b, first) && Committable(b + |Effects(b, first)|, second)
    ensures Effects(b, first + second) == Effects(b, first) + Effects(b + |Effects(b, first)|, second)
    decreases |second|
  {
    hide Decoded, Applicable;
    CommittableParts(b, first, second);
    if second == [] {
      assert first + second == first;
    } else {
      var front := second[..|second| - 1];
      assert (first + second)[..|first + second| - 1] == first + front;
      EffectsConcat(b, first, front);
    }
  }

  lemma {:induction false} EffectsRestamp(b: nat, c: nat, cmds: seq<seq<byte>>)
    requires Committable(b, cmds) && Committable(c, cmds)
    ensures Effects(c, cmds) == Restamp(c, Effects(b, cmds))
  {
    hide Decoded, Restamp, UnmarshalRequest;
    NoneRestamped(c);
    if cmds != [] {
      var front := cmds[..|cmds| - 1];
      EffectsRestamp(b, c, front);
      match Decoded(cmds[|cmds| - 1])
      case None =>
      case Some(r) => RestampSnoc(c, Effects(b, front), r, b + |Effects(b, front)|);
    }
  }

  lemma NoneRestamped(c: nat)
    requires c <= U64
    ensures Restamp(c, []) == []
  {
  }

  lemma RestampSnoc(c: nat, rs: seq<Record>, r: Record, off: u64)
    requires c + |rs| < U64
    ensures Restamp(c, rs + [r.(offset := off)]) == Restamp(c, rs) + [r.(offset := c + |rs|)]
  {
  }

  /** The sequence with its k-th command delivered twice. */
  function Redelivered(cmds: seq<seq<byte>>, k: nat): seq<seq<byte>>
    requires k < |cmds|
  {
    (cmds[..k + 1] + [cmds[k]]) + cmds[k + 1..]
  }

  lemma CommittableWithout(b: nat, head: seq<seq<byte>>, c: seq<byte>, tail: seq<seq<byte>>)
    requires Committable(b, (head + [c]) + tail)
    ensures c != [] && Committable(b, head + tail)
  {
    var whole := (head + [c]) + tail;
    assert whole[|head|] == c;
    hide Applicable;
    forall i | 0 <= i < |head + tail| ensures Applicable((head + tail)[i]) {
      assert (head + tail)[i] == whole[if i < |head| then i else i + 1];
    }
  }

  /** A command slipped in between two parts of a sequence adds its record there and moves the records of
      the second part up. */
  lemma EffectsInsert(b: nat, head: seq<seq<byte>>, c: seq<byte>, tail: seq<seq<byte>>)
    requires Committable(b, (head + [c]) + tail) && c != []
    ensures Committable(b, head + tail) && Committable(b, head)
    ensures var e, p := Effects(b, head + tail), |Effects(b, head)|;
            && p <= |e| && b + |e| + 1 < U64
            && Effects(b, (head + [c]) + tail)
               == match Decoded(c)
                  case None => e
                  case Some(r) => Inserted(b, e, p, r)
  {
    hide Decoded, Committable, Effects;
    CommittableWithout(b, head, c, tail);
    EffectsConcat(b, head + [c], tail);
    EffectsConcat(b, head, [c]);
    EffectsConcat(b, head, tail);
    var p := |Effects(b, head)|;
    OneEffect(b + p, c);
    EffectsRestamp(b + p, b + |Effects(b, head + [c])|, tail);
    EffectsRestamp(b + p, b + p, tail);
    assert Effects(b, head + tail)[p..] == Effects(b + p, tail);
    EffectsRoom(b, (head + [c]) + tail, head + tail);
  }

  lemma EffectsRoom(b: nat, longer: seq<seq<byte>>, shorter: seq<seq<byte>>)
    requires Committable(b, longer) && Committable(b, shorter) && |shorter| < |longer|
    ensures b + |Effects(b, shorter)| + 1 < U64
  {
  }

  /** From position p on, every record numbered from b is a copy of r. */
  ghost predicate AllCopies(b: nat, e: seq<Record>, p: nat, r: Record)
    requires b + |e| < U64
  {
    forall q | p <= q < |e| :: e[q] == r.(offset := b + q)
  }

  /** Records numbered from b with r put in at position p; every later one moves up by one. */
  function Inserted(b: nat, e: seq<Record>, p: nat, r: Record): seq<Record>
    requires p <= |e| && b + |e| + 1 < U64
  {
    e[..p] + [r.(offset := b + p)] + Restamp(b + p + 1, e[p..])
  }

  /** Since no applied index is kept, a command delivered twice inserts its record once more right after its
      first effect and moves every later record up by one; only a command without effect is harmless. */
  lemma DuplicateDelivery(b: nat, cmds: seq<seq<byte>>, k: nat)
    requires k < |cmds| && Committable(b, Redelivered(cmds, k)) && cmds[k] != []
    ensures Committable(b, cmds) && Committable(b, cmds[..k + 1])
    ensures var e, p := Effects(b, cmds), |Effects(b, cmds[..k + 1])|;
            && p <= |e| && b + |e| + 1 < U64
            && Effects(b, Redelivered(cmds, k))
               == match Decoded(cmds[k])
                  case None => e
                  case Some(r) => e[..p] + [r.(offset := b + p)] + Restamp(b + p + 1, e[p..])
  {
    hide Decoded, Committable, Effects;
    assert cmds == cmds[..k + 1] + cmds[k + 1..];
    EffectsInsert(b, cmds[..k + 1], cmds[k], cmds[k + 1..]);
  }

  lemma OneEffect(b: nat, c: seq<byte>)
    requires c != [] && Committable(b, [c])
    ensures Effects(b, [c]) == match Decoded(c)
                               case None => []
                               case Some(r) => [r.(offset := b)]
  {
    hide Decoded, Applicable;
    assert [c][..0] == [];
  }

  /** A second delivery goes unnoticed at the shared offsets if and only if every later record is a copy of
      the repeated one. */
  lemma DuplicateAgreement(full1: Rule, full2: Rule, b: nat, cmds: seq<seq<byte>>, k: nat, r: Record)
    requires !full1([]) && !full2([]) && k < |cmds| && Committable(b, Redelivered(cmds, k))
    requires cmds[k] != [] && Decoded(cmds[k]) == Some(r)
    ensures Committable(b, cmds) && Committable(b, cmds[..k + 1])
    ensures var e, p := Effects(b, cmds), |Effects(b, cmds[..k + 1])|;
            && b + |e| < U64
            && (AgreeEverywhere(Replica(full1, b, cmds).0, Replica(full2, b, Redelivered(cmds, k)).0)
                <==> AllCopies(b, e, p, r))
  {
    hide Replica, Applicable, Effects, Decoded, AgreeEverywhere, Committable, AllCopies;
    DuplicateDelivery(b, cmds, k);
    AgreementCondition(full1, full2, b, cmds, Redelivered(cmds, k));
    var e, p := Effects(b, cmds), |Effects(b, cmds[..k + 1])|;
    assert Effects(b, Redelivered(cmds, k)) == Inserted(b, e, p, r);
    InsertedAgrees(b, e, p, r);
  }

  lemma InsertedAgrees(b: nat, e: seq<Record>, p: nat, r: Record)
    requires p <= |e| && b + |e| + 1 < U64
    ensures var e' := Inserted(b, e, p, r);
            (e <= e' || e' <= e) <==> AllCopies(b, e, p, r)
  {
    var e' := e[..p] + [r.(offset := b + p)] + Restamp(b + p + 1, e[p..]);
    assert |e'| == |e| + 1;
    if e <= e' {
      forall q | p <= q < |e| ensures e[q] == r.(offset := b + q) {
        CopiesAfter(b, e, e', p, r, q);
      }
    }
    if forall q | p <= q < |e| :: e[q] == r.(offset := b + q) {
      forall q | 0 <= q < |e| ensures e[q] == e'[q] {
        if p < q {
          assert e'[q] == e[p..][q - p - 1].(offset := b + q);
        }
      }
    }
  }

  lemma {:induction false} CopiesAfter(b: nat, e: seq<Record>, e': seq<Record>, p: nat, r: Record, q: nat)
    requires p <= q < |e| && b + |e| + 1 < U64 && e <= e'
    requires e' == e[..p] + [r.(offset := b + p)] + Restamp(b + p + 1, e[p..])
    ensures e[q] == r.(offset := b + q)
    decreases q
  {
    assert e[q] == e'[q];
    if q > p {
      CopiesAfter(b, e, e', p, r, q - 1);
      assert e'[q] == e[p..][q - p - 1].(offset := b + q);
    }
  }

  /** The failing input: two different records, the first delivered twice to one of the replicas. */
  lemma DuplicateDisagrees(full1: Rule, full2: Rule, b: nat, r1: Record, r2: Record)
    requires !full1([]) && !full2([]) && b + 3 < U64
    requires |r1.value| < MAX_VALUE - 64 && |r2.value| < MAX_VALUE - 64
    requires r1.(offset := 0) != r2.(offset := 0)
    ensures var once, twice := [Command(r1), Command(r2)], [Command(r1), Command(r1), Command(r2)];
            && Committable(b, once) && Committable(b, twice)
            && !AgreeEverywhere(Replica(full1, b, once).0, Replica(full2, b, twice).0)
  {
    hide Replica, Command, Applicable, Decoded, AgreeEverywhere;
    CommandRoundTrip(r1);
    CommandRoundTrip(r2);
    var once, twice := [Command(r1), Command(r2)], [Command(r1), Command(r1), Command(r2)];
    assert Redelivered(once, 0) == twice;
    DuplicateAgreement(full1, full2, b, once, 0, r1);
    var head := [Command(r1)];
    assert once[..1] == head && head[..0] == [];
    assert Effects(b, head) == [r1.(offset := b)];
    assert Effects(b, once) == [r1.(offset := b), r2.(offset := b + 1)];
    assert r1.(offset := b + 1).(offset := 0) == r1.(offset := 0);
    assert r2.(offset := b + 1).(offset := 0) == r2.(offset := 0);
    assert Effects(b, once)[1] != r1.(offset := b + 1);
  }

  lemma {:induction false} ResponsesPrefix(full: Rule, b: nat, cmds: seq<seq<byte>>, i: nat)
    requires !full([]) && Committable(b, cmds) && i < |cmds|
    ensures Replica(full, b, cmds).1[i] == Apply(Replica(full, b, cmds[..i]).0, cmds[i]).1
    decreases |cmds|
  {
    hide Apply, Applicable, Layout.Valid;
    var before := cmds[..|cmds| - 1];
    if i < |before| {
      ResponsesPrefix(full, b, before, i);
      assert before[..i] == cmds[..i];
    }
  }

  /** The offset an append reports reads back the produced record on every replica that has applied
      that command, whatever the limits there. */
  lemma AppendReadsBack(leader: Rule, other: Rule, b: nat, cmds: seq<seq<byte>>, k: nat, j: nat, r: Record)
    requires !leader([]) && !other([]) && Committable(b, cmds) && k < j <= |cmds|
    requires Storable(r) && |r.value| < MAX_VALUE - 64 && cmds[k] == Command(r)
    ensures Replica(leader, b, cmds).1[k].Produced?
    ensures var off := Replica(leader, b, cmds).1[k].offset;
            off < U64 && Replica(other, b, cmds[..j]).0.Read(off) == Ok(r.(offset := off))
  {
    hide Replica, Applicable, Command, Layout.Valid, Layout.Read, Apply, Decoded, Effects;
    CommandRoundTrip(r);
    ResponsesPrefix(leader, b, cmds, k);
    var l := Replica(leader, b, cmds[..k]).0;
    ValidFacts(l);
    ReplicaState(leader, b, cmds[..k]);
    ApplyIsAppend(l, cmds[k]);
    var off := l.Next();
    EffectsSnoc(b, cmds, k);
    EffectsPrefix(b, cmds[..j], k + 1);
    assert cmds[..j][..k + 1] == cmds[..k + 1];
    ReplicaReads(other, b, cmds[..j], off);
  }
}
