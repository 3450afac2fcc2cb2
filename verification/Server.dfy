/** internal/server/server.go: produce and consume streams over one commit log. */
module Servers {
  import opened Bytes
  import opened Codec
  import opened Layouts
  import opened Logs
  import opened Runs

  /** One atomic action of the server. A produce stream receives a request, has its record appended and sends
      the response, in three separate steps; the consume stream makes one turn of its loop; maintenance
      truncates or reopens the log. */
  datatype Event =
    | Recv(stream: nat, record: Record)
    | Commit(stream: nat)
    | Send(stream: nat)
    | Poll
    | Maintain(lowest: u64)
    | Restart

  datatype Request = Request(stream: nat, record: Record)

  /** What a produce stream is told: its record got this offset. */
  datatype Ack = Ack(stream: nat, offset: nat, record: Record)

  /** Where a produce stream stands in its loop; one that waits for a request has no stage. */
  datatype Stage = Received(record: Record) | Committed(ack: Ack)

  /** The streams' side of the server: the consumer's position and what it was sent; the producers' stages,
      the requests received, the appends made and the responses sent, each in the order it happened. */
  datatype Session = Session(
    cursor: nat, sent: seq<Record>,
    stages: map<nat, Stage>, requests: seq<Request>, acks: seq<Ack>, responses: seq<Ack>)

  datatype World = World(log: Layout, io: Session)

  predicate Possible(w: World, e: Event) {
    match e
    case Recv(s, r) => s !in w.io.stages && Storable(r)
    case Commit(s) =>
      && s in w.io.stages && w.io.stages[s].Received? && Storable(w.io.stages[s].record)
      && w.log.chunks != [] && w.log.Next() < U64 - 1
    case Send(s) => s in w.io.stages && w.io.stages[s].Committed?
    case Poll => true
    case Maintain(lowest) => InRange(w.log, lowest)
    case Restart => true
  }

  /** One turn of ConsumeStream: out of range means try again, otherwise send and move on. */
  function Consume(io: Session, read: Result<Record>): Session {
    match read
    case Err(_) => io
    case Ok(r) => io.(sent := io.sent + [r], cursor := io.cursor + 1)
  }

  function Receive(io: Session, s: nat, r: Record): Session {
    io.(stages := io.stages[s := Received(r)], requests := io.requests + [Request(s, r)])
  }

  function Acknowledge(io: Session, a: Ack): Session {
    io.(stages := io.stages[a.stream := Committed(a)], acks := io.acks + [a])
  }

  function Respond(io: Session, a: Ack, s: nat): Session {
    io.(stages := io.stages - {s}, responses := io.responses + [a])
  }

  function React(w: World, e: Event): World
    requires Possible(w, e)
  {
    match e
    case Recv(s, r) => w.(io := Receive(w.io, s, r))
    case Commit(s) =>
      var r := w.io.stages[s].record;
      World(w.log.Append(r), Acknowledge(w.io, Ack(s, w.log.Next(), r)))
    case Send(s) => w.(io := Respond(w.io, w.io.stages[s].ack, s))
    case Poll => w.(io := Consume(w.io, w.log.Read(w.io.cursor)))
    case Maintain(lowest) => w.(log := Truncate(w.log, lowest))
    case Restart => w
  }

  predicate PossibleRun(w: World, events: seq<Event>)
    decreases |events|, 0
  {
    events == [] ||
    (PossibleRun(w, events[..|events| - 1]) && Possible(Serve(w, events[..|events| - 1]), events[|events| - 1]))
  }

  function Serve(w: World, events: seq<Event>): World
    requires PossibleRun(w, events)
    decreases |events|, 1
  {
    if events == [] then w else React(Serve(w, events[..|events| - 1]), events[|events| - 1])
  }

  const NO_STREAMS: map<nat, Stage> := map[]

  /** A server whose log is l, with a consumer that asked to start at `start`. */
  function Begin(l: Layout, start: u64): World {
    World(l, Session(start, [], NO_STREAMS, [], [], []))
  }

  // ----- the log and the consumer -----

  /** The records the acknowledgements stand for. */
  function Acked(acks: seq<Ack>): (rs: seq<Record>)
    ensures |rs| == |acks|
    ensures forall i | 0 <= i < |acks| :: rs[i] == acks[i].record.(offset := acks[i].offset % U64)
  {
    seq(|acks|, i requires 0 <= i < |acks| => acks[i].record.(offset := acks[i].offset % U64))
  }

  /** Everything ever in the log: what it held at the start and what was appended since. */
  function History(l: Layout, io: Session): seq<Record> {
    l.Records() + Acked(io.acks)
  }

  ghost predicate Consistent(l: Layout, start: nat, w: World) {
    && w.log.Valid() && l.base <= w.log.base
    && w.log.Next() == l.Next() + |w.io.acks|
    && w.log.Records() == History(l, w.io)[w.log.base - l.base..]
    && (forall i | 0 <= i < |w.io.acks| :: w.io.acks[i].offset == l.Next() + i)
    && w.io.cursor == start + |w.io.sent|
    && (w.io.sent != [] ==> l.base <= start && w.io.cursor <= w.log.Next())
    && forall i | 0 <= i < |w.io.sent| :: w.io.sent[i] == History(l, w.io)[start - l.base + i]
  }

  lemma CommitConsistent(l: Layout, start: nat, w: World, s: nat)
    requires Consistent(l, start, w) && Possible(w, Commit(s))
    ensures Consistent(l, start, React(w, Commit(s)))
  {
    hide Layout.Valid, Layout.Append, Concat, History;
    ValidFacts(w.log);
    var r := w.io.stages[s].record;
    AppendEffect(w.log, r);
    HistorySnoc(l, w.io, Ack(s, w.log.Next(), r));
    SuffixSnoc(History(l, w.io), w.log.base - l.base, r.(offset := w.log.Next()));
  }

  lemma HistorySnoc(l: Layout, io: Session, a: Ack)
    ensures History(l, Acknowledge(io, a)) == History(l, io) + [a.record.(offset := a.offset % U64)]
    ensures |History(l, io)| == |l.Records()| + |io.acks|
  {
    hide Concat;
    assert Acked(io.acks + [a]) == Acked(io.acks) + [a.record.(offset := a.offset % U64)];
  }

  lemma SuffixSnoc(h: seq<Record>, d: nat, r: Record)
    requires d <= |h|
    ensures (h + [r])[d..] == h[d..] + [r]
  {
  }

  lemma NextInHistory(rs: seq<Record>, h: seq<Record>, d: nat, at: nat)
    requires d <= |h| && rs == h[d..] && at < |rs|
    ensures rs[at] == h[d + at]
  {
  }

  lemma PollConsistent(l: Layout, start: nat, w: World)
    requires Consistent(l, start, w)
    ensures Consistent(l, start, React(w, Poll))
  {
    hide Layout.Valid, Concat, Acked;
    if w.log.Read(w.io.cursor).Ok? {
      NextInHistory(w.log.Records(), History(l, w.io), w.log.base - l.base, w.io.cursor - w.log.base);
    }
  }

  lemma MaintainConsistent(l: Layout, start: nat, w: World, lowest: u64)
    requires Consistent(l, start, w) && InRange(w.log, lowest)
    ensures Consistent(l, start, React(w, Maintain(lowest)))
  {
    hide Layout.Valid, Truncate, Concat, Acked, InRange;
    TruncateEffect(w.log, lowest);
    var t := Truncate(w.log, lowest);
    SuffixOfSuffix(History(l, w.io), w.log.base - l.base, t.base - w.log.base);
  }

  lemma SuffixOfSuffix(h: seq<Record>, d: nat, e: nat)
    requires d + e <= |h|
    ensures h[d..][e..] == h[d + e..]
  {
  }

  lemma BeginConsistent(l: Layout, start: u64)
    requires l.Valid()
    ensures Consistent(l, start, Begin(l, start))
  {
    hide Concat;
    assert Acked([]) == [];
    assert l.Records() + [] == l.Records();
  }

  /** Receiving and sending touch neither the log nor the consumer. */
  lemma QuietConsistent(l: Layout, start: nat, w: World, e: Event)
    requires Consistent(l, start, w) && Possible(w, e) && (e.Recv? || e.Send? || e.Restart?)
    ensures Consistent(l, start, React(w, e))
  {
    hide Layout.Valid, Concat, Acked;
  }

  lemma {:induction false} ServeConsistent(l: Layout, start: u64, events: seq<Event>)
    requires l.Valid() && PossibleRun(Begin(l, start), events)
    ensures Consistent(l, start, Serve(Begin(l, start), events))
  {
    hide Consistent, Possible, Layout.Valid, React;
    if events == [] {
      BeginConsistent(l, start);
    } else {
      var before, e := events[..|events| - 1], events[|events| - 1];
      ServeConsistent(l, start, before);
      var w := Serve(Begin(l, start), before);
      match e
      case Commit(s) => CommitConsistent(l, start, w, s);
      case Poll => PollConsistent(l, start, w);
      case Maintain(lowest) =>
        RangeOf(w, lowest);
        MaintainConsistent(l, start, w, lowest);
      case _ => QuietConsistent(l, start, w, e);
    }
  }

  lemma RangeOf(w: World, lowest: u64)
    requires Possible(w, Maintain(lowest))
    ensures InRange(w.log, lowest)
  {
  }

  /** Streaming consumer safety: whatever the interleaving with producers, truncations and restarts, the
      records sent so far are those at start, start + 1, and so on, with no gap, repetition or reordering. */
  lemma SentIsContiguous(l: Layout, start: u64, events: seq<Event>)
    requires l.Valid() && PossibleRun(Begin(l, start), events)
    ensures var io := Serve(Begin(l, start), events).io;
            && io.cursor == start + |io.sent|
            && (io.sent != [] ==> l.base <= start && start - l.base + |io.sent| <= |History(l, io)|)
            && (io.sent != [] ==> io.sent == History(l, io)[start - l.base..start - l.base + |io.sent|])
  {
    hide Serve, Layout.Valid, Concat, Acked;
    ServeConsistent(l, start, events);
    var io := Serve(Begin(l, start), events).io;
    if io.sent != [] {
      var lo := start - l.base;
      assert io.sent == History(l, io)[lo..lo + |io.sent|];
    }
  }

  // ----- progress -----

  /** A turn of the consume loop sends if and only if the position is live, and then just the record there. */
  lemma PollSends(w: World)
    ensures var io, next := w.io, React(w, Poll).io;
            && (next.sent != io.sent <==> w.log.base <= io.cursor < w.log.Next())
            && (next.sent != io.sent ==>
                  next.cursor == io.cursor + 1 && next.sent == io.sent + [w.log.Records()[io.cursor - w.log.base]])
  {
    hide Concat;
  }

  /** The server never moves the log's first offset back, and moves a consumer only by sending. */
  lemma OvertakenStep(w: World, e: Event)
    requires w.log.Valid() && Possible(w, e) && w.io.cursor < w.log.base
    ensures var v := React(w, e);
            v.log.Valid() && v.io.cursor == w.io.cursor < v.log.base && v.io.sent == w.io.sent
  {
    hide Layout.Valid, Layout.Append, Truncate, Concat;
    match e
    case Commit(s) => AppendEffect(w.log, w.io.stages[s].record);
    case Maintain(lowest) => TruncateEffect(w.log, lowest);
    case _ =>
  }

  /** Once a truncation has passed a consumer's position it is never sent anything again. */
  lemma {:induction false} OvertakenForever(w: World, more: seq<Event>)
    requires w.log.Valid() && PossibleRun(w, more) && w.io.cursor < w.log.base
    ensures var v := Serve(w, more);
            v.log.Valid() && v.io.cursor == w.io.cursor < v.log.base && v.io.sent == w.io.sent
  {
    hide Layout.Valid, React, Possible;
    if more != [] {
      OvertakenForever(w, more[..|more| - 1]);
      OvertakenStep(Serve(w, more[..|more| - 1]), more[|more| - 1]);
    }
  }

  /** A consumer behind the end of the log is stuck, whatever happens from here on, if and only if the first
      live offset has passed it. */
  lemma StuckForever(w: World)
    requires w.log.Valid() && w.io.cursor < w.log.Next()
    ensures (forall more: seq<Event> | PossibleRun(w, more) :: Serve(w, more).io.sent == w.io.sent)
            <==> w.io.cursor < w.log.base
  {
    hide Layout.Valid, Concat, Serve, PossibleRun, React;
    if w.io.cursor < w.log.base {
      forall more: seq<Event> | PossibleRun(w, more) ensures Serve(w, more).io.sent == w.io.sent {
        OvertakenForever(w, more);
      }
    } else {
      OnePoll(w);
      PollSends(w);
    }
  }

  lemma OnePoll(w: World)
    ensures PossibleRun(w, [Poll]) && Serve(w, [Poll]) == React(w, Poll)
  {
    hide React;
    assert [Poll][..0] == [];
  }

  /** A run of k turns of the consume loop. */
  function Polls(k: nat): (events: seq<Event>)
    ensures |events| == k
  {
    seq(k, _ => Poll)
  }

  /** A consumer whose position is live, or at the end, catches up: k turns send the next k records. */
  lemma {:induction false} CatchesUp(w: World, k: nat)
    requires w.log.base <= w.io.cursor && w.io.cursor + k <= w.log.Next()
    ensures PossibleRun(w, Polls(k))
    ensures var v, at := Serve(w, Polls(k)), w.io.cursor - w.log.base;
            v.log == w.log && v.io == w.io.(cursor := w.io.cursor + k, sent := w.io.sent + w.log.Records()[at..at + k])
  {
    hide Concat;
    var at := w.io.cursor - w.log.base;
    if k == 0 {
      assert w.io.sent + w.log.Records()[at..at] == w.io.sent;
    } else {
      assert Polls(k)[..k - 1] == Polls(k - 1);
      CatchesUp(w, k - 1);
      assert w.log.Records()[at..at + k] == w.log.Records()[at..at + k - 1] + [w.log.Records()[at + k - 1]];
    }
  }

  /** The failing input: three segments, the first removed while a consumer still waits for its record. */
  lemma ConsumerOvertaken(r: Record, more: seq<Event>)
    requires Storable(r)
    ensures var l := Layout(rs => |rs| >= 1, 0, [[r.(offset := 0)], [r.(offset := 1)], []]);
            && l.Valid() && l.Read(0).Ok? && PossibleRun(Begin(l, 0), [Maintain(0)])
            && var w := Serve(Begin(l, 0), [Maintain(0)]);
               PossibleRun(w, more) ==> Serve(w, more).io.sent == []
  {
    hide Serve, PossibleRun;
    var l := ThreeSegments(r);
    var w := World(Truncate(l, 0), Begin(l, 0).io);
    OneMaintain(Begin(l, 0), 0);
    TruncateEffect(l, 0);
    if PossibleRun(w, more) {
      OvertakenForever(w, more);
    }
  }

  lemma OneMaintain(w: World, lowest: u64)
    requires InRange(w.log, lowest)
    ensures PossibleRun(w, [Maintain(lowest)]) && Serve(w, [Maintain(lowest)]) == w.(log := Truncate(w.log, lowest))
  {
    hide Truncate;
    assert [Maintain(lowest)][..0] == [];
  }

  lemma ThreeSegments(r: Record) returns (l: Layout)
    requires Storable(r)
    ensures l == Layout(rs => |rs| >= 1, 0, [[r.(offset := 0)], [r.(offset := 1)], []])
    ensures l.Valid() && l.Next() == 2 && Truncate(l, 0).base == 1 && l.Read(0).Ok?
  {
    hide Concat;
    var a, b := r.(offset := 0), r.(offset := 1);
    l := Layout(rs => |rs| >= 1, 0, [[a], [b], []]);
    NoChunks();
    ConcatSnoc([], [a]);
    ConcatSnoc([[a]], [b]);
    ConcatSnoc([[a], [b]], []);
    assert l.chunks == [[a], [b]] + [[]] && [[a], [b]] == [[a]] + [[b]] && [[a]] == [] + [[a]];
    assert l.Records() == [a, b];
    assert l.chunks[..1] == [[a]];
    DropCountUnique(l, 1, 1);
  }

  lemma NoChunks()
    ensures Concat([]) == []
  {
  }

  /** Concurrent producers: over any number of interleaved streams the offsets given out form one contiguous
      range in the order of the appends, so they are distinct; and each one that has not been truncated reads
      back the record sent for it. */
  lemma ProducersGetDistinctOffsets(l: Layout, start: u64, events: seq<Event>)
    requires l.Valid() && PossibleRun(Begin(l, start), events)
    ensures var w := Serve(Begin(l, start), events);
            && (forall i | 0 <= i < |w.io.acks| :: w.io.acks[i].offset == l.Next() + i < w.log.Next() < U64)
            && (forall i | 0 <= i < |w.io.acks| && w.log.base <= w.io.acks[i].offset ::
                  w.log.Read(w.io.acks[i].offset)
                  == Ok(w.io.acks[i].record.(offset := w.io.acks[i].offset % U64)))
  {
    hide Serve, Concat, Acked;
    ServeConsistent(l, start, events);
    var w := Serve(Begin(l, start), events);
    forall i | 0 <= i < |w.io.acks| && w.log.base <= w.io.acks[i].offset
      ensures w.log.Read(w.io.acks[i].offset) == Ok(w.io.acks[i].record.(offset := w.io.acks[i].offset % U64))
    {
      AckReadsBack(l, start, w, i);
    }
  }

  lemma AckReadsBack(l: Layout, start: nat, w: World, i: nat)
    requires Consistent(l, start, w) && i < |w.io.acks| && w.log.base <= w.io.acks[i].offset
    ensures w.log.Read(w.io.acks[i].offset) == Ok(w.io.acks[i].record.(offset := w.io.acks[i].offset % U64))
  {
    hide Concat, Layout.Valid;
    var h, d, o := History(l, w.io), w.log.base - l.base, w.io.acks[i].offset;
    assert h[d..][o - w.log.base] == h[o - l.base];
    assert h[|l.Records()| + i] == Acked(w.io.acks)[i];
  }

  // ----- one produce stream among many -----

  /** The acknowledgements of one stream, in order. */
  function Of(s: nat, acks: seq<Ack>): seq<Ack> {
    if acks == [] then []
    else Of(s, acks[..|acks| - 1]) + if acks[|acks| - 1].stream == s then [acks[|acks| - 1]] else []
  }

  /** The records one stream has asked to have appended, in order. */
  function Asked(s: nat, requests: seq<Request>): seq<Record> {
    if requests == [] then []
    else Asked(s, requests[..|requests| - 1])
         + if requests[|requests| - 1].stream == s then [requests[|requests| - 1].record] else []
  }

  function RecordsOf(acks: seq<Ack>): (rs: seq<Record>)
    ensures |rs| == |acks| && forall i | 0 <= i < |acks| :: rs[i] == acks[i].record
  {
    seq(|acks|, i requires 0 <= i < |acks| => acks[i].record)
  }

  lemma OfSnoc(s: nat, acks: seq<Ack>, a: Ack)
    ensures Of(s, acks + [a]) == Of(s, acks) + if a.stream == s then [a] else []
  {
    assert (acks + [a])[..|acks|] == acks;
  }

  lemma AskedSnoc(s: nat, requests: seq<Request>, q: Request)
    ensures Asked(s, requests + [q]) == Asked(s, requests) + if q.stream == s then [q.record] else []
  {
    assert (requests + [q])[..|requests|] == requests;
  }

  /** The loop of stream s is between two of its steps: at most one request is under way. */
  predicate InStep(io: Session, s: nat) {
    var asked, done, told := Asked(s, io.requests), Of(s, io.acks), Of(s, io.responses);
    if s !in io.stages then done == told && asked == RecordsOf(told)
    else
      match io.stages[s]
      case Received(r) => done == told && asked == RecordsOf(told) + [r]
      case Committed(a) => a.stream == s && done == told + [a] && asked == RecordsOf(told) + [a.record]
  }

  lemma ReceiveInStep(io: Session, t: nat, r: Record, s: nat)
    requires InStep(io, s) && t !in io.stages
    ensures InStep(Receive(io, t, r), s)
  {
    hide Of, Asked;
    AskedSnoc(s, io.requests, Request(t, r));
  }

  lemma AcknowledgeInStep(io: Session, a: Ack, s: nat)
    requires InStep(io, s) && a.stream in io.stages && io.stages[a.stream] == Received(a.record)
    ensures InStep(Acknowledge(io, a), s)
  {
    hide Of, Asked;
    OfSnoc(s, io.acks, a);
  }

  lemma RespondInStep(io: Session, t: nat, s: nat)
    requires InStep(io, s) && InStep(io, t) && t in io.stages && io.stages[t].Committed?
    ensures InStep(Respond(io, io.stages[t].ack, t), s)
  {
    hide Of, Asked;
    var a := io.stages[t].ack;
    OfSnoc(s, io.responses, a);
    if s == t {
      assert RecordsOf(Of(s, io.responses) + [a]) == RecordsOf(Of(s, io.responses)) + [a.record];
    }
  }

  lemma ConsumeInStep(io: Session, read: Result<Record>, s: nat)
    requires InStep(io, s)
    ensures InStep(Consume(io, read), s)
  {
    hide Of, Asked;
  }

  lemma {:induction false} ServeInStep(l: Layout, start: u64, events: seq<Event>, s: nat)
    requires PossibleRun(Begin(l, start), events)
    ensures InStep(Serve(Begin(l, start), events).io, s)
    decreases |events|
  {
    hide InStep, Layout.Append, Truncate, Layout.Read, Consume, Receive, Acknowledge, Respond, Storable, Concat;
    if events == [] {
      NoneInStep(l, start, s);
    } else {
      var before, e := events[..|events| - 1], events[|events| - 1];
      ServeInStep(l, start, before, s);
      var w := Serve(Begin(l, start), before);
      match e
      case Recv(t, r) => ReceiveInStep(w.io, t, r, s);
      case Commit(t) => AcknowledgeInStep(w.io, Ack(t, w.log.Next(), w.io.stages[t].record), s);
      case Send(t) =>
        ServeInStep(l, start, before, t);
        RespondInStep(w.io, t, s);
      case Poll => ConsumeInStep(w.io, w.log.Read(w.io.cursor), s);
      case _ =>
    }
  }

  lemma NoneInStep(l: Layout, start: u64, s: nat)
    ensures InStep(Begin(l, start).io, s)
  {
    assert RecordsOf([]) == [];
  }

  predicate Increasing(acks: seq<Ack>) {
    forall i, j | 0 <= i < j < |acks| :: acks[i].offset < acks[j].offset
  }

  lemma {:induction false} OfAmong(s: nat, acks: seq<Ack>, i: nat)
    requires i < |Of(s, acks)|
    ensures Of(s, acks)[i] in acks && Of(s, acks)[i].stream == s
    decreases |acks|
  {
    var front, last := acks[..|acks| - 1], acks[|acks| - 1];
    assert acks == front + [last];
    if i < |Of(s, front)| {
      OfAmong(s, front, i);
    }
  }

  lemma {:induction false} OfIncreasing(s: nat, acks: seq<Ack>)
    requires Increasing(acks)
    ensures Increasing(Of(s, acks))
  {
    if acks != [] {
      var front, last := acks[..|acks| - 1], acks[|acks| - 1];
      OfIncreasing(s, front);
      forall i | 0 <= i < |Of(s, front)| ensures Of(s, front)[i].offset < last.offset {
        OfAmong(s, front, i);
      }
    }
  }

  // ----- what the events alone say -----

  /** The records stream s was sent, in order of arrival. */
  function Arrived(s: nat, events: seq<Event>): seq<Record> {
    if events == [] then []
    else
      Arrived(s, events[..|events| - 1])
      + match events[|events| - 1]
        case Recv(t, r) => if t == s then [r] else []
        case _ => []
  }

  /** How many appends stream s has made. */
  function Commits(s: nat, events: seq<Event>): (n: nat)
    ensures n <= |events|
  {
    if events == [] then 0
    else Commits(s, events[..|events| - 1]) + if events[|events| - 1] == Commit(s) then 1 else 0
  }

  /** How many responses stream s has sent. */
  function Sends(s: nat, events: seq<Event>): (n: nat)
    ensures n <= |events|
  {
    if events == [] then 0
    else Sends(s, events[..|events| - 1]) + if events[|events| - 1] == Send(s) then 1 else 0
  }

  /** The session's three lists are those of the events. */
  ghost predicate Counted(io: Session, s: nat, events: seq<Event>) {
    && Asked(s, io.requests) == Arrived(s, events)
    && |Of(s, io.acks)| == Commits(s, events)
    && |Of(s, io.responses)| == Sends(s, events)
  }

  lemma CountedStep(w: World, e: Event, s: nat, before: seq<Event>)
    requires Possible(w, e) && Counted(w.io, s, before)
    requires e.Send? ==> w.io.stages[e.stream].ack.stream == e.stream
    ensures Counted(React(w, e).io, s, before + [e])
  {
    hide Of, Asked, Storable, Layout.Append, Truncate, Layout.Read, Concat;
    assert (before + [e])[..|before|] == before;
    match e
    case Recv(t, r) => AskedSnoc(s, w.io.requests, Request(t, r));
    case Commit(t) => OfSnoc(s, w.io.acks, Ack(t, w.log.Next(), w.io.stages[t].record));
    case Send(t) => OfSnoc(s, w.io.responses, w.io.stages[t].ack);
    case _ =>
  }

  lemma {:induction false} ServeCounted(l: Layout, start: u64, events: seq<Event>, s: nat)
    requires PossibleRun(Begin(l, start), events)
    ensures Counted(Serve(Begin(l, start), events).io, s, events)
  {
    hide React, Possible, Counted;
    if events == [] {
      NoneCounted(l, start, s);
    } else {
      var before, e := events[..|events| - 1], events[|events| - 1];
      assert events == before + [e];
      ServeCounted(l, start, before, s);
      var w := Serve(Begin(l, start), before);
      if e.Send? {
        ServeInStep(l, start, before, e.stream);
        StageAck(w, e.stream);
      }
      CountedStep(w, e, s, before);
    }
  }

  lemma NoneCounted(l: Layout, start: u64, s: nat)
    ensures Counted(Begin(l, start).io, s, [])
  {
  }

  lemma StageAck(w: World, t: nat)
    requires InStep(w.io, t) && Possible(w, Send(t))
    ensures t in w.io.stages && w.io.stages[t].Committed? && w.io.stages[t].ack.stream == t
  {
  }

  /** The ProduceStream loop, one stream among any number, against the requests that arrived on it: its k-th append
      is of the k-th of them, unchanged, and its k-th response is the k-th append's; every Commit appends and every
      Send responds; the offsets strictly increase; and at most one request is unanswered at any time. */
  lemma ResponsesAnswerInOrder(l: Layout, start: u64, events: seq<Event>, s: nat)
    requires l.Valid() && PossibleRun(Begin(l, start), events)
    ensures var io := Serve(Begin(l, start), events).io;
            var arrived, done, told := Arrived(s, events), Of(s, io.acks), Of(s, io.responses);
            && told <= done && RecordsOf(told) <= arrived && RecordsOf(done) <= arrived
            && |done| == Commits(s, events) && |told| == Sends(s, events)
            && |told| <= |arrived| <= |told| + 1
            && Increasing(done) && Increasing(told)
  {
    hide Serve, Of, Asked, PossibleRun, Layout.Valid, Concat, History, Arrived, Commits, Sends;
    ServeInStep(l, start, events, s);
    ServeConsistent(l, start, events);
    ServeCounted(l, start, events, s);
    var io := Serve(Begin(l, start), events).io;
    OfIncreasing(s, io.acks);
    var told := Of(s, io.responses);
    if s in io.stages && io.stages[s].Committed? {
      assert RecordsOf(told + [io.stages[s].ack]) == RecordsOf(told) + [io.stages[s].ack.record];
    }
  }

  /** What the events do to the log, read off the events alone: the k-th Commit of a stream appends the k-th record
      that arrived on it. */
  function OpsOf(events: seq<Event>): seq<Op> {
    if events == [] then []
    else
      var before := events[..|events| - 1];
      OpsOf(before)
      + match events[|events| - 1]
        case Commit(s) =>
          if Commits(s, before) < |Arrived(s, before)| then [AppendOp(Arrived(s, before)[Commits(s, before)])] else []
        case Maintain(lowest) => [TruncateOp(lowest)]
        case Restart => [ReopenOp]
        case _ => []
  }

  lemma RunSnoc(l: Layout, ops: seq<Op>, op: Op)
    requires LegalRun(l, ops) && Legal(Run(l, ops).0, op)
    ensures LegalRun(l, ops + [op]) && Run(l, ops + [op]).0 == Step(Run(l, ops).0, op).0
  {
    hide Legal, Step;
    assert (ops + [op])[..|ops|] == ops;
  }

  /** The record a Commit appends is the one that arrived. */
  lemma NextArrived(l: Layout, start: u64, events: seq<Event>, s: nat)
    requires PossibleRun(Begin(l, start), events) && Possible(Serve(Begin(l, start), events), Commit(s))
    ensures Commits(s, events) < |Arrived(s, events)|
    ensures s in Serve(Begin(l, start), events).io.stages
    ensures Serve(Begin(l, start), events).io.stages[s] == Received(Arrived(s, events)[Commits(s, events)])
  {
    hide Serve, PossibleRun, Of, Asked, Arrived, Commits, Sends;
    ServeInStep(l, start, events, s);
    ServeCounted(l, start, events, s);
  }

  /** The server's log after any schedule is the log after the run of operations the events spell. */
  lemma {:induction false} ServedLog(l: Layout, start: u64, events: seq<Event>)
    requires PossibleRun(Begin(l, start), events)
    ensures LegalRun(l, OpsOf(events)) && Serve(Begin(l, start), events).log == Run(l, OpsOf(events)).0
  {
    hide Arrived, Commits, Layout.Append, Truncate, Layout.Read, Run, LegalRun, Storable, Concat;
    if events == [] {
      EmptyRun(l);
    } else {
      var before, e := events[..|events| - 1], events[|events| - 1];
      ServedLog(l, start, before);
      match e
      case Commit(s) =>
        NextArrived(l, start, before, s);
        RunSnoc(l, OpsOf(before), AppendOp(Arrived(s, before)[Commits(s, before)]));
      case Maintain(lowest) => RunSnoc(l, OpsOf(before), TruncateOp(lowest));
      case Restart => RunSnoc(l, OpsOf(before), ReopenOp);
      case _ => assert OpsOf(events) == OpsOf(before);
    }
  }

  lemma EmptyRun(l: Layout)
    ensures LegalRun(l, []) && Run(l, []).0 == l
  {
  }

  // ----- the loops over the byte-level log -----

  /** One event on the byte-level log. */
  method Handle(log: Log, io: Session, e: Event) returns (after: Log, io': Session)
    requires log.Valid() && Possible(World(log.state, io), e) && io.cursor < U64
    modifies log, log.dir, log.Repr
    ensures after.Valid() && after.dir == log.dir
    ensures World(after.state, io') == React(World(old(log.state), io), e)
    ensures after == log || fresh(after)
    ensures fresh(after.Repr - old(log.Repr))
  {
    hide Log.Valid, Layout.Append, Truncate, Layout.Read, Layout.Next;
    after, io' := log, io;
    var reply;
    match e {
      case Recv(s, r) => io' := Receive(io, s, r);
      case Commit(s) =>
        after, reply := Execute(log, AppendOp(io.stages[s].record));
        io' := Acknowledge(io, Ack(s, reply.off, io.stages[s].record));
      case Send(s) => io' := Respond(io, io.stages[s].ack, s);
      case Poll =>
        after, reply := Execute(log, ReadOp(io.cursor));
        io' := Consume(io, reply.result);
      case Maintain(lowest) =>
        after, reply := Execute(log, TruncateOp(lowest));
      case Restart =>
        after, reply := Execute(log, ReopenOp);
    }
  }

  /** Serves a schedule on real segments and files: the world that results is the one Serve describes. */
  method ServeLog(log: Log, start: u64, events: seq<Event>) returns (final: Log, io: Session)
    requires log.Valid() && PossibleRun(Begin(log.state, start), events)
    modifies log, log.dir, log.Repr
    ensures final.Valid()
    ensures World(final.state, io) == Serve(Begin(old(log.state), start), events)
  {
    hide Layout.Valid, Log.Valid, Consistent, Possible, React;
    ghost var l := log.state;
    ValidState(log);
    var i := 0;
    final, io := log, Session(start, [], NO_STREAMS, [], [], []);
    assert events[..0] == [];
    while i < |events|
      invariant i <= |events| && final.Valid() && final.dir == log.dir
      invariant final == log || fresh(final)
      invariant fresh(final.Repr - old(log.Repr))
      invariant PossibleRun(Begin(l, start), events[..i])
      invariant World(final.state, io) == Serve(Begin(l, start), events[..i])
    {
      ServePrefix(Begin(l, start), events, i);
      CursorFits(l, start, events, i);
      final, io := Handle(final, io, events[i]);
      i := i + 1;
    }
    assert events[..i] == events;
  }

  lemma CursorFits(l: Layout, start: u64, events: seq<Event>, i: nat)
    requires l.Valid() && i <= |events| && PossibleRun(Begin(l, start), events[..i])
    ensures Serve(Begin(l, start), events[..i]).io.cursor < U64
  {
    ServeConsistent(l, start, events[..i]);
  }

  lemma ServePrefix(w: World, events: seq<Event>, i: nat)
    requires PossibleRun(w, events) && i < |events|
    ensures PossibleRun(w, events[..i]) && PossibleRun(w, events[..i + 1])
    ensures Possible(Serve(w, events[..i]), events[i])
    ensures Serve(w, events[..i + 1]) == React(Serve(w, events[..i]), events[i])
    decreases |events|
  {
    hide React, Possible;
    assert events[..i + 1][..i] == events[..i];
    if i + 1 < |events| {
      var before := events[..|events| - 1];
      ServePrefix(w, before, i);
      assert before[..i] == events[..i] && before[..i + 1] == events[..i + 1];
    } else {
      assert events[..i + 1] == events;
    }
  }
}
