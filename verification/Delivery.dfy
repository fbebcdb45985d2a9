/**
 * What reaches the client of a dispatched route: the response writer, the recorder that the
 * dispatcher wraps around it, the SSE relay that writes through either, and what is recorded.
 */
module Delivery {
  import opened Common

  type Byte = bv8

  const OK := 200

  const SWITCHING_PROTOCOLS := 101

  /** A 1xx status other than 101 is sent ahead of the response and does not end its header. */
  predicate Informational(code: int) {
    100 <= code < 200 && code != SWITCHING_PROTOCOLS
  }

  /** What a handler does to its writer. */
  datatype Op = Header(code: int) | Body(data: seq<Byte>)

  /** The status of the response: that of the first operation which is not informational. */
  function Sent(ops: seq<Op>): Option<int> {
    if |ops| == 0 then None
    else match Sent(ops[..|ops| - 1])
      case Some(code) => Some(code)
      case None =>
        match ops[|ops| - 1]
        case Body(_) => Some(OK)
        case Header(code) => if Informational(code) then None else Some(code)
  }

  function BodyOf(ops: seq<Op>): seq<Byte> {
    if |ops| == 0 then []
    else BodyOf(ops[..|ops| - 1]) + if ops[|ops| - 1].Body? then ops[|ops| - 1].data else []
  }

  /** The operation at `i` is the first that is not an informational status. */
  ghost predicate FirstFinal(ops: seq<Op>, i: nat) {
    && i < |ops|
    && (ops[i].Header? ==> !(100 <= ops[i].code < 200 && ops[i].code != 101))
    && forall j :: 0 <= j < i ==> ops[j].Header? && 100 <= ops[j].code < 200 && ops[j].code != 101
  }

  lemma {:induction false} SentNone(ops: seq<Op>)
    ensures Sent(ops).None? <==>
            forall j :: 0 <= j < |ops| ==> ops[j].Header? && 100 <= ops[j].code < 200 && ops[j].code != 101
  {
    if |ops| > 0 {
      SentNone(ops[..|ops| - 1]);
    }
  }

  lemma {:induction false} SentIff(ops: seq<Op>, code: int)
    ensures Sent(ops) == Some(code) <==>
            exists i: nat :: FirstFinal(ops, i) && (ops[i] == Header(code) || (ops[i].Body? && code == 200))
  {
    if |ops| > 0 {
      var init, n := ops[..|ops| - 1], |ops| - 1;
      SentIff(init, code);
      assert forall j :: 0 <= j < n ==> init[j] == ops[j];
      assert forall i: nat :: i < n ==> (FirstFinal(init, i) <==> FirstFinal(ops, i));
      SentNone(init);
    }
  }

  /** The server answers 200 for a handler that sent no status. */
  function Final(ops: seq<Op>): int {
    match Sent(ops)
    case None => OK
    case Some(code) => code
  }

  lemma AppendOp(ops: seq<Op>, op: Op)
    ensures (ops + [op])[..|ops + [op]| - 1] == ops && (ops + [op])[|ops + [op]| - 1] == op
  {}

  /** The connection's writer. `flushes` lists how much of the body had been written at each flush. */
  class Writer {
    const flushable: bool
    var status: Option<int>
    var body: seq<Byte>
    var flushes: seq<nat>
    ghost var ops: seq<Op>

    constructor (flushable: bool)
      ensures this.flushable == flushable && Valid() && ops == [] && flushes == []
    {
      this.flushable := flushable;
      status, body, flushes, ops := None, [], [], [];
    }

    ghost predicate Valid()
      reads this
    {
      status == Sent(ops) && body == BodyOf(ops)
    }

    method WriteHeader(code: int)
      requires Valid()
      modifies this
      ensures Valid() && ops == old(ops) + [Header(code)] && flushes == old(flushes) && body == old(body)
      ensures status == if old(status).Some? || (100 <= code < 200 && code != 101) then old(status) else Some(code)
    {
      AppendOp(ops, Header(code));
      if status.None? && !Informational(code) {
        status := Some(code);
      }
      ops := ops + [Header(code)];
    }

    method Write(data: seq<Byte>)
      requires Valid()
      modifies this
      ensures Valid() && ops == old(ops) + [Body(data)] && flushes == old(flushes)
      ensures body == old(body) + data && status == if old(status).Some? then old(status) else Some(200)
    {
      AppendOp(ops, Body(data));
      if status.None? {
        status := Some(OK);
      }
      body := body + data;
      ops := ops + [Body(data)];
    }

    method Flush()
      requires Valid()
      modifies this
      ensures Valid() && ops == old(ops) && body == old(body) && flushes == old(flushes) + [|body|]
    {
      flushes := flushes + [|body|];
    }
  }

  // ----- the recorder -----

  /** The code of the first operation, whatever its kind. */
  function First(ops: seq<Op>): (r: Option<int>)
    ensures r.None? <==> |ops| == 0
  {
    if |ops| == 0 then None else Some(if ops[0].Header? then ops[0].code else OK)
  }

  /** The dispatcher's `responseRecorder`. It hides whatever else its writer can do, flushing included. */
  class Recorder {
    const inner: Writer
    var code: int
    var wroteHeader: bool

    constructor (inner: Writer)
      requires inner.Valid() && inner.ops == []
      ensures this.inner == inner && Valid()
    {
      this.inner := inner;
      code, wroteHeader := OK, false;
    }

    ghost predicate Valid()
      reads this, inner
    {
      && inner.Valid()
      && wroteHeader == First(inner.ops).Some?
      && code == (if First(inner.ops).Some? then First(inner.ops).value else OK)
    }

    method WriteHeader(code: int)
      requires Valid()
      modifies this, inner
      ensures Valid() && inner.ops == old(inner.ops) + [Header(code)] && inner.flushes == old(inner.flushes)
      ensures wroteHeader && this.code == if old(wroteHeader) then old(this.code) else code
    {
      if !wroteHeader {
        this.code := code;
        wroteHeader := true;
      }
      inner.WriteHeader(code);
    }

    method Write(data: seq<Byte>)
      requires Valid()
      modifies this, inner
      ensures Valid() && inner.ops == old(inner.ops) + [Body(data)] && inner.flushes == old(inner.flushes)
      ensures wroteHeader && code == if old(wroteHeader) then old(code) else 200
    {
      if !wroteHeader {
        code := OK;
        wroteHeader := true;
      }
      inner.Write(data);
    }
  }

  /** What the recorder holds when the handler returns. */
  function Recorded(ops: seq<Op>): int {
    if |ops| == 0 then OK else First(ops).value
  }

  lemma {:induction false} SentOfFirst(ops: seq<Op>)
    requires |ops| > 0
    ensures ops[0].Body? ==> Sent(ops) == Some(OK)
    ensures ops[0].Header? && !Informational(ops[0].code) ==> Sent(ops) == Some(ops[0].code)
    ensures Sent(ops).Some? ==> !Informational(Sent(ops).value)
  {
    if |ops| > 1 {
      SentOfFirst(ops[..|ops| - 1]);
    } else {
      assert Sent(ops[..0]) == None;
    }
  }

  /**
   * The recorded status is the one the client gets iff the handler does not start with an
   * informational status: an early hint (103) is recorded in place of the final status.
   */
  lemma RecordedIsSentIff(ops: seq<Op>)
    ensures Recorded(ops) == Final(ops) <==> (|ops| > 0 && ops[0].Header? ==> !Informational(ops[0].code))
  {
    if |ops| > 0 {
      SentOfFirst(ops);
    }
  }

  // ----- the relay of an SSE proxy -----

  /** One read of the upstream body: what it brought, and whether it also reported the end. */
  datatype Chunk = Chunk(data: seq<Byte>, last: bool)

  /** A whole body: only its last chunk reports the end. */
  ghost predicate Whole(chunks: seq<Chunk>) {
    |chunks| > 0 && forall i :: 0 <= i < |chunks| ==> (chunks[i].last <==> i == |chunks| - 1)
  }

  function Bytes(chunks: seq<Chunk>): seq<Byte> {
    if |chunks| == 0 then [] else Bytes(chunks[..|chunks| - 1]) + chunks[|chunks| - 1].data
  }

  /** How much has been delivered after each chunk that brought something. */
  function Marks(chunks: seq<Chunk>): seq<nat> {
    if |chunks| == 0 then []
    else Marks(chunks[..|chunks| - 1]) + if chunks[|chunks| - 1].data == [] then [] else [|Bytes(chunks)|]
  }

  datatype Upstream = Upstream(status: int, eventStream: bool, body: seq<Chunk>)

  /** The writer a proxy is given: the connection's own, or a recorder around it. */
  datatype Target = Direct(w: Writer) | Observed(rr: Recorder)
  {
    ghost function Connection(): Writer {
      if Direct? then w else rr.inner
    }

    ghost function Footprint(): set<object> {
      if Direct? then {w} else {rr, rr.inner}
    }

    ghost predicate Valid()
      reads Footprint()
    {
      if Direct? then w.Valid() else rr.Valid()
    }

    predicate Flushable() {
      Direct? && w.flushable
    }

    method WriteHeader(code: int)
      requires Valid()
      modifies Footprint()
      ensures Valid() && Connection().ops == old(Connection().ops) + [Header(code)]
      ensures Connection().flushes == old(Connection().flushes)
    {
      if Direct? {
        w.WriteHeader(code);
      } else {
        rr.WriteHeader(code);
      }
    }

    method Write(data: seq<Byte>)
      requires Valid()
      modifies Footprint()
      ensures Valid() && Connection().ops == old(Connection().ops) + [Body(data)]
      ensures Connection().flushes == old(Connection().flushes)
    {
      if Direct? {
        w.Write(data);
      } else {
        rr.Write(data);
      }
    }
  }

  /** The flushed part of the body after the given flushes. */
  function Flushed(flushes: seq<nat>): nat {
    if |flushes| == 0 then 0 else flushes[|flushes| - 1]
  }

  /** With these flushes, nothing that was read is held back when the upstream is read again. */
  lemma {:induction false} NothingHeldBack(chunks: seq<Chunk>, n: nat)
    requires n <= |chunks|
    ensures Marks(chunks[..n]) <= Marks(chunks)
    ensures Flushed(Marks(chunks[..n])) == |Bytes(chunks[..n])|
    decreases |chunks|
  {
    if n < |chunks| {
      var init := chunks[..|chunks| - 1];
      assert init[..n] == chunks[..n];
      NothingHeldBack(init, n);
    } else {
      assert chunks[..n] == chunks;
      if n > 0 {
        NothingHeldBack(chunks[..n - 1], n - 1);
        assert chunks[..n - 1][..n - 1] == chunks[..n - 1];
      }
    }
  }

  lemma AppendChunk(chunks: seq<Chunk>, n: nat)
    requires n < |chunks|
    ensures chunks[..n + 1][..n] == chunks[..n]
    ensures Bytes(chunks[..n + 1]) == Bytes(chunks[..n]) + chunks[n].data
    ensures Marks(chunks[..n + 1]) ==
            Marks(chunks[..n]) + if chunks[n].data == [] then [] else [|Bytes(chunks[..n + 1])|]
  {
    assert chunks[..n + 1][..n] == chunks[..n];
  }

  /** One chunk written through and, on a flushing relay, flushed. */
  method Forward(data: seq<Byte>, to: Target, flush: bool)
    requires to.Valid() && |to.Connection().ops| > 0 && Sent(to.Connection().ops).Some?
    requires flush ==> to.Flushable()
    modifies to.Footprint()
    ensures to.Valid()
    ensures to.Connection().ops == old(to.Connection().ops) + if data == [] then [] else [Body(data)]
    ensures Sent(to.Connection().ops) == old(Sent(to.Connection().ops))
    ensures First(to.Connection().ops) == old(First(to.Connection().ops))
    ensures BodyOf(to.Connection().ops) == old(BodyOf(to.Connection().ops)) + data
    ensures to.Connection().flushes ==
            old(to.Connection().flushes) + if flush && data != [] then [|BodyOf(to.Connection().ops)|] else []
  {
    if data != [] {
      AppendOp(to.Connection().ops, Body(data));
      to.Write(data);
      if flush {
        to.w.Flush();
      }
    }
  }

  ghost predicate Empty(chunks: seq<Chunk>) {
    forall i :: 0 <= i < |chunks| ==> chunks[i].data == []
  }

  lemma {:induction false} NoMarksIff(chunks: seq<Chunk>)
    ensures Marks(chunks) == [] <==> Empty(chunks)
  {
    if |chunks| > 0 {
      var init := chunks[..|chunks| - 1];
      NoMarksIff(init);
      assert forall i :: 0 <= i < |init| ==> init[i] == chunks[i];
    }
  }

  lemma StartOfRelay(status: int)
    requires !Informational(status)
    ensures Sent([Header(status)]) == First([Header(status)]) == Some(status) && BodyOf([Header(status)]) == []
  {
    AppendOp([], Header(status));
  }

  lemma LastChunk(chunks: seq<Chunk>, i: nat)
    requires Whole(chunks) && i <= |chunks|
    ensures |chunks| > 0
    ensures i < |chunks| ==> (chunks[i].last <==> i == |chunks| - 1)
  {}

  method RelayBody(up: Upstream, to: Target, flush: bool)
    requires Whole(up.body) && to.Valid()
    requires to.Connection().ops == [Header(up.status)] && to.Connection().flushes == []
    requires Sent(to.Connection().ops) == First(to.Connection().ops) == Some(up.status)
    requires BodyOf(to.Connection().ops) == []
    requires flush ==> to.Flushable()
    modifies to.Footprint()
    ensures to.Valid()
    ensures Sent(to.Connection().ops) == First(to.Connection().ops) == Some(up.status)
    ensures BodyOf(to.Connection().ops) == Bytes(up.body)
    ensures to.Connection().flushes == if flush then Marks(up.body) else []
  {
    assert Bytes(up.body[..0]) == [] && Marks(up.body[..0]) == [];
    LastChunk(up.body, 0);
    hide Sent, First, BodyOf, Bytes, Marks, Whole, Target.Valid, Target.Flushable;
    ghost var c := to.Connection();
    var i := 0;
    while true
      invariant 0 <= i < |up.body|
      invariant to.Valid() && |c.ops| > 0
      invariant Sent(c.ops) == First(c.ops) == Some(up.status)
      invariant BodyOf(c.ops) == Bytes(up.body[..i])
      invariant c.flushes == if flush then Marks(up.body[..i]) else []
      decreases |up.body| - i
    {
      AppendChunk(up.body, i);
      LastChunk(up.body, i);
      Forward(up.body[i].data, to, flush);
      if up.body[i].last {
        assert up.body[..i + 1] == up.body;
        break;
      }
      i := i + 1;
    }
  }

  /**
   * An upstream response relayed to the client: header, then chunk by chunk. An event stream is
   * flushed after each of its chunks iff the writer can flush or there is nothing to flush;
   * nothing else is flushed at all.
   */
  method Relay(up: Upstream, to: Target)
    requires Whole(up.body) && !Informational(up.status)
    requires to.Valid() && to.Connection().ops == [] && to.Connection().flushes == []
    modifies to.Footprint()
    ensures to.Valid()
    ensures Sent(to.Connection().ops) == Some(up.status) && BodyOf(to.Connection().ops) == Bytes(up.body)
    ensures First(to.Connection().ops) == Some(up.status)
    ensures up.eventStream ==>
              (to.Connection().flushes == Marks(up.body) <==> to.Flushable() || Empty(up.body))
    ensures !(up.eventStream && to.Flushable()) ==> to.Connection().flushes == []
  {
    NoMarksIff(up.body);
    AppendOp([], Header(up.status));
    to.WriteHeader(up.status);
    StartOfRelay(up.status);
    RelayBody(up, to, up.eventStream && to.Flushable());
  }

  /**
   * An event stream of a dispatched route. The dispatcher's recorder stands between the relay and
   * the connection, so the whole body goes out without a single flush even if the connection can
   * flush, and the chunks are not forwarded one by one unless there is nothing to forward.
   */
  method RelayDispatched(up: Upstream, w: Writer) returns (code: int)
    requires up.eventStream && Whole(up.body) && !Informational(up.status)
    requires w.Valid() && w.ops == [] && w.flushes == []
    modifies w
    ensures w.Valid() && w.body == Bytes(up.body) && w.status == Some(up.status) && code == up.status
    ensures w.flushes == []
    ensures w.flushes == Marks(up.body) <==> Empty(up.body)
  {
    var rr := new Recorder(w);
    Relay(up, Observed(rr));
    code := rr.code;
  }

  // ----- observation -----

  /** A request that has completed: its route, what its handler did, and how long it took. */
  datatype Completion = Completion(route: string, audited: bool, ops: seq<Op>, ms: int)

  type Label = (string, int)   // route, status

  function LabelOf(c: Completion): Label {
    (c.route, Recorded(c.ops))
  }

  function FinalLabel(c: Completion): Label {
    (c.route, Final(c.ops))
  }

  /** How many of the requests have kind `k`. */
  ghost function Tally(done: seq<Completion>, kind: Completion -> Label, k: Label): nat {
    if |done| == 0 then 0
    else Tally(done[..|done| - 1], kind, k) + if kind(done[|done| - 1]) == k then 1 else 0
  }

  ghost function Latency(done: seq<Completion>, route: string): int {
    if |done| == 0 then 0
    else Latency(done[..|done| - 1], route) + if done[|done| - 1].route == route then done[|done| - 1].ms else 0
  }

  ghost function Audited(done: seq<Completion>): seq<Label> {
    if |done| == 0 then []
    else Audited(done[..|done| - 1]) + if done[|done| - 1].audited then [LabelOf(done[|done| - 1])] else []
  }

  ghost predicate Counted(counts: map<Label, int>, done: seq<Completion>) {
    && (forall k :: k in counts ==> counts[k] == Tally(done, LabelOf, k) > 0)
    && (forall k :: Tally(done, LabelOf, k) > 0 ==> k in counts)
  }

  ghost predicate Summed(latencySum: map<string, int>, done: seq<Completion>) {
    forall r :: At(latencySum, r) == Latency(done, r)
  }

  lemma AnotherCompletion(done: seq<Completion>, c: Completion)
    ensures forall kind: Completion -> Label, k ::
              Tally(done + [c], kind, k) == Tally(done, kind, k) + if kind(c) == k then 1 else 0
    ensures forall r :: Latency(done + [c], r) == Latency(done, r) + if c.route == r then c.ms else 0
    ensures Audited(done + [c]) == Audited(done) + if c.audited then [LabelOf(c)] else []
  {
    assert (done + [c])[..|done|] == done;
  }

  lemma RecordKeeps(counts: map<Label, int>, latencySum: map<string, int>, done: seq<Completion>, c: Completion)
    requires Counted(counts, done) && Summed(latencySum, done)
    ensures Counted(Add(counts, LabelOf(c), 1), done + [c]) && Summed(Add(latencySum, c.route, c.ms), done + [c])
  {
    AnotherCompletion(done, c);
    hide Tally, Latency;
  }

  /** A handler's operations, one after the other, on a recorder. */
  method Replay(ops: seq<Op>, w: Writer) returns (code: int)
    requires w.Valid() && w.ops == []
    modifies w
    ensures w.Valid() && w.ops == ops && code == Recorded(ops)
  {
    var rr := new Recorder(w);
    for i := 0 to |ops|
      invariant rr.Valid() && rr.inner == w && w.ops == ops[..i]
    {
      assert ops[..i + 1] == ops[..i] + [ops[i]];
      match ops[i]
      case Header(code) => rr.WriteHeader(code);
      case Body(data) => rr.Write(data);
    }
    assert ops[..|ops|] == ops;
    code := rr.code;
  }

  /** The metrics registry and the audit log behind the dispatcher. */
  class Observer {
    var counts: map<Label, int>
    var latencySum: map<string, int>
    var auditLog: seq<Label>
    ghost var done: seq<Completion>

    constructor ()
      ensures Valid() && done == []
    {
      counts, latencySum, auditLog, done := map[], map[], [], [];
    }

    ghost predicate Valid()
      reads this
    {
      Counted(counts, done) && Summed(latencySum, done) && auditLog == Audited(done)
    }

    /** One observation, added to its counter and to the latency of its route. */
    method Record(route: string, status: int, ms: int)
      modifies this
      ensures counts == Add(old(counts), (route, status), 1)
      ensures latencySum == Add(old(latencySum), route, ms)
      ensures Moves(old(counts), counts, (route, status), 1)
      ensures Moves(old(latencySum), latencySum, route, ms)
      ensures auditLog == old(auditLog) && done == old(done)
    {
      var k := (route, status);
      counts := counts[k := 1 + if k in counts then counts[k] else 0];
      latencySum := latencySum[route := ms + if route in latencySum then latencySum[route] else 0];
    }

    /** Serves one request: the handler writes through a recorder, and the outcome is recorded once. */
    method Observe(route: string, audited: bool, ops: seq<Op>, ms: int, w: Writer)
      requires Valid() && w.Valid() && w.ops == []
      modifies this, w
      ensures Valid() && done == old(done) + [Completion(route, audited, ops, ms)]
      ensures w.Valid() && w.ops == ops
      ensures Moves(old(counts), counts, (route, Recorded(ops)), 1)
      ensures Moves(old(latencySum), latencySum, route, ms)
      ensures auditLog == old(auditLog) + if audited then [(route, Recorded(ops))] else []
    {
      ghost var c := Completion(route, audited, ops, ms);
      RecordKeeps(counts, latencySum, done, c);
      AnotherCompletion(done, c);
      hide Counted, Summed, Audited;
      var code := Replay(ops, w);
      Record(route, code, ms);
      if audited {
        auditLog := auditLog + [(route, code)];
      }
      done := done + [c];
    }
  }

  ghost function Total(done: seq<Completion>, kind: Completion -> Label, ks: seq<Label>): nat {
    if |ks| == 0 then 0 else Total(done, kind, ks[..|ks| - 1]) + Tally(done, kind, ks[|ks| - 1])
  }

  lemma {:induction false} TotalStep(done: seq<Completion>, kind: Completion -> Label, ks: seq<Label>)
    requires |done| > 0 && Injective(ks)
    ensures Total(done, kind, ks) ==
            Total(done[..|done| - 1], kind, ks) + if kind(done[|done| - 1]) in ks then 1 else 0
  {
    if |ks| > 0 {
      var init := ks[..|ks| - 1];
      TotalStep(done, kind, init);
      assert ks == init + [ks[|ks| - 1]];
    }
  }

  lemma {:induction false} EmptyTotal(kind: Completion -> Label, ks: seq<Label>)
    ensures Total([], kind, ks) == 0
  {
    if |ks| > 0 {
      EmptyTotal(kind, ks[..|ks| - 1]);
    }
  }

  /** Over any listing without repetitions of all the labels in use, the tallies add up to the requests. */
  lemma {:induction false} TalliesAddUp(done: seq<Completion>, kind: Completion -> Label, ks: seq<Label>)
    requires Injective(ks) && forall c :: c in done ==> kind(c) in ks
    ensures Total(done, kind, ks) == |done|
  {
    if |done| == 0 {
      EmptyTotal(kind, ks);
    } else {
      var init := done[..|done| - 1];
      assert forall c :: c in init ==> c in done;
      TalliesAddUp(init, kind, ks);
      TotalStep(done, kind, ks);
    }
  }

  ghost predicate StartsInformational(ops: seq<Op>) {
    |ops| > 0 && ops[0].Header? && Informational(ops[0].code)
  }

  lemma {:induction false} TallyMember(done: seq<Completion>, kind: Completion -> Label, k: Label)
    ensures Tally(done, kind, k) > 0 <==> exists c :: c in done && kind(c) == k
  {
    if |done| > 0 {
      var init, last := done[..|done| - 1], done[|done| - 1];
      TallyMember(init, kind, k);
      assert done == init + [last];
    }
  }

  lemma {:induction false} SameTallies(done: seq<Completion>, k: Label)
    requires forall c :: c in done ==> !StartsInformational(c.ops)
    ensures Tally(done, LabelOf, k) == Tally(done, FinalLabel, k)
  {
    if |done| > 0 {
      var init, last := done[..|done| - 1], done[|done| - 1];
      assert last in done && forall c :: c in init ==> c in done;
      SameTallies(init, k);
      RecordedIsSentIff(last.ops);
    }
  }

  /** Recorded and final statuses give the same tallies iff no handler started with an informational one. */
  lemma TalliesAgreeIff(done: seq<Completion>)
    ensures (forall k :: Tally(done, LabelOf, k) == Tally(done, FinalLabel, k))
       <==> (forall c :: c in done ==> !StartsInformational(c.ops))
  {
    if forall c :: c in done ==> !StartsInformational(c.ops) {
      forall k {
        SameTallies(done, k);
      }
    } else {
      var c :| c in done && StartsInformational(c.ops);
      var k := LabelOf(c);
      TallyMember(done, LabelOf, k);
      TallyMember(done, FinalLabel, k);
      forall d | d in done
        ensures FinalLabel(d) != k
      {
        if |d.ops| > 0 {
          SentOfFirst(d.ops);
        }
      }
    }
  }

  function Sum(counts: map<Label, int>, ks: seq<Label>): int {
    if |ks| == 0 then 0 else Sum(counts, ks[..|ks| - 1]) + At(counts, ks[|ks| - 1])
  }

  lemma {:induction false} SumIsTotal(counts: map<Label, int>, done: seq<Completion>, ks: seq<Label>)
    requires Counted(counts, done)
    ensures Sum(counts, ks) == Total(done, LabelOf, ks)
  {
    if |ks| > 0 {
      SumIsTotal(counts, done, ks[..|ks| - 1]);
    }
  }

  /**
   * Conservation: the registry's counters, listed once each as the exposition does, add up to the
   * number of completed requests.
   */
  lemma CountersAddUp(observer: Observer, ks: seq<Label>)
    requires observer.Valid() && Injective(ks) && forall k :: k in ks <==> k in observer.counts
    ensures Sum(observer.counts, ks) == |observer.done|
  {
    var counts, done := observer.counts, observer.done;
    forall c | c in done
      ensures LabelOf(c) in ks
    {
      TallyMember(done, LabelOf, LabelOf(c));
    }
    SumIsTotal(counts, done, ks);
    TalliesAddUp(done, LabelOf, ks);
  }

  /** The counters show the statuses that clients got iff no handler started with an informational one. */
  lemma CountersShowSentIff(observer: Observer)
    requires observer.Valid()
    ensures (forall k :: At(observer.counts, k) == Tally(observer.done, FinalLabel, k))
       <==> (forall c :: c in observer.done ==> !StartsInformational(c.ops))
  {
    TalliesAgreeIff(observer.done);
    forall k
      ensures At(observer.counts, k) == Tally(observer.done, LabelOf, k)
    {
      assert Tally(observer.done, LabelOf, k) > 0 ==> k in observer.counts;
    }
    hide Tally;
  }
}
