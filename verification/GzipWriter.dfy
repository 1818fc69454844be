/** The response writer that buffers until it can decide whether to compress, over a wire that records what the
    underlying writer is handed. The codec is the identity with a buffer, emptied on flush and close. */
module GzipWriter {
  import opened Text

  const MIN_GZIP_BYTES: nat := 256

  const NO_CONTENT := 204

  const NOT_MODIFIED := 304

  type Bytes = seq<bv8>

  /** The headers the writer looks at or changes; vary counts the "Vary: Accept-Encoding" lines. */
  datatype Header = Header(contentType: string, contentEncoding: string, hasLength: bool, vary: nat)

  datatype WireEvent = Head(status: int, header: Header) | Body(data: Bytes)

  datatype Writer = Writer(
    status: int, decided: bool, compress: bool, pending: Bytes, gz: Option<Bytes>, header: Header, wire: seq<WireEvent>)

  function MediaType(s: string): string {
    if s == [] || s[0] == ';' then [] else [s[0]] + MediaType(s[1..])
  }

  /** isCompressibleContentType. */
  predicate Compressible(contentType: string) {
    var ct := Trim(Lower(MediaType(contentType)));
    ct != "text/event-stream" &&
    ("application/json" <= ct || "application/javascript" <= ct || "application/xml" <= ct
     || "application/manifest+json" <= ct || "image/svg+xml" <= ct || "text/" <= ct)
  }

  predicate Bodiless(status: int) {
    status == NO_CONTENT || status == NOT_MODIFIED
  }

  function AddVary(h: Header): Header {
    h.(vary := h.vary + 1)
  }

  function AfterWriteHeader(w: Writer, status: int): Writer {
    if w.status != 0 then w
    else if !Bodiless(status) then w.(status := status)
    else
      var h := AddVary(w.header);
      w.(status := status, decided := true, compress := false, header := h, wire := w.wire + [Head(status, h)])
  }

  predicate WillCompress(w: Writer) {
    w.header.contentEncoding == "" && |w.pending| >= MIN_GZIP_BYTES && Compressible(w.header.contentType)
  }

  function AfterDecide(w: Writer): Writer {
    var zip := WillCompress(w);
    var h := AddVary(if zip then w.header.(hasLength := false, contentEncoding := "gzip") else w.header);
    var status := if w.status == 0 then 200 else w.status;
    var head := w.wire + [Head(status, h)];
    Writer(status, true, zip, [], if zip then Some(w.pending) else w.gz, h,
           if zip || w.pending == [] then head else head + [Body(w.pending)])
  }

  function AfterWrite(w: Writer, p: Bytes): Writer {
    if !w.decided then
      var grown := w.(pending := w.pending + p);
      if |grown.pending| < MIN_GZIP_BYTES then grown else AfterDecide(grown)
    else if w.compress && w.gz.Some? then w.(gz := Some(w.gz.value + p))
    else w.(wire := w.wire + [Body(p)])
  }

  function Emptied(w: Writer, close: bool): Writer {
    if w.gz.None? then w
    else w.(wire := w.wire + [Body(w.gz.value)], gz := if close then None else Some([]))
  }

  function Settled(w: Writer): Writer {
    if w.decided then w else AfterDecide(w)
  }

  function AfterFlush(w: Writer): Writer {
    Emptied(Settled(w), false)
  }

  function AfterClose(w: Writer): Writer {
    Emptied(Settled(w), true)
  }

  // --- The specification: what was written, what reached the wire ---

  ghost function Bodies(wire: seq<WireEvent>): Bytes {
    if wire == [] then []
    else
      var front, e := Bodies(wire[..|wire| - 1]), wire[|wire| - 1];
      if e.Body? then front + e.data else front
  }

  /** Everything handed on so far: the bytes on the wire and those inside the compressor. */
  ghost function Output(w: Writer): Bytes {
    Bodies(w.wire) + if w.gz.Some? then w.gz.value else []
  }

  /** The header goes out first and once. */
  ghost predicate HeaderFirst(wire: seq<WireEvent>) {
    wire != [] && wire[0].Head? && forall i :: 1 <= i < |wire| ==> wire[i].Body?
  }

  /** Before the decision nothing is sent; after it the header is out, marked for caches once. Bytes written before a
      drop are gone, all others are in order between the wire, the compressor and the buffer. */
  ghost predicate Conserves(w: Writer, written: Bytes, lost: Bytes) {
    if !w.decided then
      w.wire == [] && w.gz.None? && !w.compress && w.header.vary == 0 && lost == [] && w.pending == written
      && |w.pending| < MIN_GZIP_BYTES
    else
      && HeaderFirst(w.wire) && w.wire[0].header.vary == 1
      && (w.compress ==> w.wire[0].header.contentEncoding == "gzip" && !w.wire[0].header.hasLength)
      && w.status != 0
      && (w.gz.Some? ==> w.compress)
      && written == lost + Output(w)
  }

  /** What Flush and Close leave behind is complete: nothing waits in a buffer. */
  ghost predicate Drained(w: Writer) {
    w.decided && (w.gz.Some? ==> w.gz.value == [])
  }

  lemma BodiesAppend(wire: seq<WireEvent>, e: WireEvent)
    ensures Bodies(wire + [e]) == Bodies(wire) + if e.Body? then e.data else []
  {
    assert (wire + [e])[..|wire|] == wire;
  }

  lemma HeaderStaysFirst(wire: seq<WireEvent>, data: Bytes)
    requires HeaderFirst(wire)
    ensures HeaderFirst(wire + [Body(data)]) && (wire + [Body(data)])[0] == wire[0]
  {}

  lemma DecideConserves(w: Writer, written: Bytes)
    requires !w.decided && w.wire == [] && w.gz.None? && w.header.vary == 0 && w.pending == written
    ensures Conserves(AfterDecide(w), written, []) && Output(AfterDecide(w)) == written
    ensures AfterDecide(w).compress <==> WillCompress(w)
  {
    var d := AfterDecide(w);
    var head := Head(d.status, d.header);
    assert [] + [head] == [head];
    BodiesAppend([], head);
    if !d.compress && w.pending != [] {
      BodiesAppend([head], Body(w.pending));
    }
    assert [] + written == written;
  }

  /** The bytes a header call drops: a first 204 or 304 over a buffer that has not been sent. */
  function DroppedBy(w: Writer, status: int): Bytes {
    if w.status == 0 && !w.decided && Bodiless(status) then w.pending else []
  }

  lemma WriteHeaderConserves(w: Writer, status: int, written: Bytes, lost: Bytes)
    requires Conserves(w, written, lost)
    ensures Conserves(AfterWriteHeader(w, status), written, lost + DroppedBy(w, status))
  {
    if w.status == 0 && Bodiless(status) {
      var head := Head(status, AddVary(w.header));
      assert [] + [head] == [head];
      BodiesAppend([], head);
      assert written + [] == written && [] + w.pending == w.pending;
    } else {
      assert lost + [] == lost;
    }
  }

  lemma WriteConserves(w: Writer, p: Bytes, written: Bytes, lost: Bytes)
    requires Conserves(w, written, lost) && (w.compress ==> w.gz.Some?)
    ensures Conserves(AfterWrite(w, p), written + p, lost)
  {
    if !w.decided {
      var grown := w.(pending := w.pending + p);
      if |grown.pending| >= MIN_GZIP_BYTES {
        DecideConserves(grown, written + p);
      }
    } else if w.compress {
      assert Bodies(w.wire) + (w.gz.value + p) == Output(w) + p;
      assert lost + (Output(w) + p) == lost + Output(w) + p;
    } else {
      BodiesAppend(w.wire, Body(p));
      HeaderStaysFirst(w.wire, p);
      assert lost + (Output(w) + p) == lost + Output(w) + p;
    }
  }

  lemma EmptiedConserves(w: Writer, close: bool, written: Bytes, lost: Bytes)
    requires w.decided && Conserves(w, written, lost)
    ensures Conserves(Emptied(w, close), written, lost) && Drained(Emptied(w, close))
    ensures Bodies(Emptied(w, close).wire) == Output(w)
  {
    if w.gz.Some? {
      BodiesAppend(w.wire, Body(w.gz.value));
      HeaderStaysFirst(w.wire, w.gz.value);
    }
  }

  lemma SettledConserves(w: Writer, written: Bytes, lost: Bytes)
    requires Conserves(w, written, lost)
    ensures Settled(w).decided && Conserves(Settled(w), written, lost)
  {
    if !w.decided {
      DecideConserves(w, written);
    }
  }

  // --- Whole responses ---

  /** What a handler can do with the writer before it is closed. */
  datatype Op =
    | SetHeader(contentType: string, contentEncoding: string, hasLength: bool)
    | WriteHeader(status: int)
    | Write(data: Bytes)
    | Flush

  function Fresh(header: Header): Writer {
    Writer(0, false, false, [], None, header, [])
  }

  function Step(w: Writer, op: Op): Writer {
    match op
    case SetHeader(ct, ce, len) => w.(header := Header(ct, ce, len, w.header.vary))
    case WriteHeader(status) => AfterWriteHeader(w, status)
    case Write(p) => AfterWrite(w, p)
    case Flush => AfterFlush(w)
  }

  function Run(ops: seq<Op>): Writer {
    if ops == [] then Fresh(Header("", "", false, 0)) else Step(Run(ops[..|ops| - 1]), ops[|ops| - 1])
  }

  function Written(ops: seq<Op>): Bytes {
    if ops == [] then []
    else
      var front, op := Written(ops[..|ops| - 1]), ops[|ops| - 1];
      if op.Write? then front + op.data else front
  }

  /** The call meets the guard that loses buffered bytes. */
  predicate Drops(w: Writer, op: Op) {
    op.WriteHeader? && w.status == 0 && !w.decided && Bodiless(op.status) && w.pending != []
  }

  /** The i-th call of a response drops what was buffered before it. */
  predicate DropsAt(ops: seq<Op>, i: nat) {
    i < |ops| && Drops(Run(ops[..i]), ops[i])
  }

  /** All bytes dropped along the way. */
  function Lost(ops: seq<Op>): Bytes {
    if ops == [] then []
    else
      var front, op := ops[..|ops| - 1], ops[|ops| - 1];
      Lost(front) + if op.WriteHeader? then DroppedBy(Run(front), op.status) else []
  }

  /** The compressor exists exactly while the writer compresses. */
  predicate CompressorOpen(w: Writer) {
    w.compress <==> w.gz.Some?
  }

  lemma StepConserves(w: Writer, op: Op, written: Bytes, lost: Bytes)
    requires Conserves(w, written, lost) && CompressorOpen(w)
    ensures CompressorOpen(Step(w, op))
    ensures Conserves(Step(w, op), if op.Write? then written + op.data else written,
                      lost + if op.WriteHeader? then DroppedBy(w, op.status) else [])
  {
    assert lost + [] == lost;
    match op
    case SetHeader(_, _, _) =>
    case WriteHeader(status) => WriteHeaderConserves(w, status, written, lost);
    case Write(p) => WriteConserves(w, p, written, lost);
    case Flush =>
      SettledConserves(w, written, lost);
      EmptiedConserves(Settled(w), false, written, lost);
  }

  /** Once taken, the decision to compress never changes, and the header is never sent again. */
  lemma DecisionIsFinal(w: Writer, op: Op)
    requires w.decided && w.status != 0
    ensures Step(w, op).decided && Step(w, op).compress == w.compress
    ensures w.wire <= Step(w, op).wire && forall i :: |w.wire| <= i < |Step(w, op).wire| ==> Step(w, op).wire[i].Body?
  {}

  lemma {:induction false} RunConserves(ops: seq<Op>)
    ensures Conserves(Run(ops), Written(ops), Lost(ops)) && CompressorOpen(Run(ops))
  {
    if ops != [] {
      RunConserves(ops[..|ops| - 1]);
      StepConserves(Run(ops[..|ops| - 1]), ops[|ops| - 1], Written(ops[..|ops| - 1]), Lost(ops[..|ops| - 1]));
    }
  }

  /** A drop happens at most once and takes everything written so far. */
  lemma {:induction false} LostIff(ops: seq<Op>)
    ensures Lost(ops) != [] <==> exists i :: DropsAt(ops, i)
  {
    if ops != [] {
      var front, last := ops[..|ops| - 1], |ops| - 1;
      LostIff(front);
      if DropsAt(ops, last) {
        assert Lost(ops) != [];
      }
      forall i: nat | i < last ensures DropsAt(front, i) == DropsAt(ops, i) {
        assert front[..i] == ops[..i];
      }
      if Lost(ops) != [] && !DropsAt(ops, last) {
        assert Lost(front) != [];
        var i :| DropsAt(front, i);
        assert DropsAt(ops, i);
      }
    }
  }

  /** Conservation: after Close the wire carries one header before any byte, and the decoded body is everything
      written exactly when no 204 or 304 came first over buffered bytes. */
  lemma ResponseConservesIff(ops: seq<Op>)
    ensures var w := AfterClose(Run(ops));
      && HeaderFirst(w.wire) && w.wire[0].header.vary == 1
      && (w.compress ==> w.wire[0].header.contentEncoding == "gzip" && !w.wire[0].header.hasLength)
      && Written(ops) == Lost(ops) + Bodies(w.wire)
      && (Bodies(w.wire) == Written(ops) <==> !exists i :: DropsAt(ops, i))
  {
    RunConserves(ops);
    LostIff(ops);
    SettledConserves(Run(ops), Written(ops), Lost(ops));
    EmptiedConserves(Settled(Run(ops)), true, Written(ops), Lost(ops));
    var body := Bodies(AfterClose(Run(ops)).wire);
    assert Written(ops) == Lost(ops) + body;
    assert |Written(ops)| == |Lost(ops)| + |body|;
    if Lost(ops) == [] {
      assert [] + body == body;
    }
  }

  /** A short response followed by a 304 arrives empty. */
  lemma BufferedThenNotModified(p: Bytes)
    requires 0 < |p| < MIN_GZIP_BYTES
    ensures Bodies(AfterClose(Run([Write(p), WriteHeader(NOT_MODIFIED)])).wire) == []
  {
    var ops := [Write(p), WriteHeader(NOT_MODIFIED)];
    assert ops[..1] == [Write(p)] && [Write(p)][..0] == [];
    assert Run([Write(p)]) == Step(Run([]), Write(p));
    assert [] + p == p;
    var w := Run([Write(p)]);
    assert w.pending == p && !w.decided && w.status == 0;
    var head := Head(NOT_MODIFIED, AddVary(w.header));
    assert Run(ops).wire == [] + [head];
    BodiesAppend([], head);
  }

  class GzipResponseWriter {
    var status: int
    var decided: bool
    var compress: bool
    var pending: Bytes
    var gz: Option<Bytes>
    var header: Header
    var wire: seq<WireEvent>
    var flushAfter: bool

    function State(): Writer
      reads this
    {
      Writer(status, decided, compress, pending, gz, header, wire)
    }

    /** A compressing writer has a compressor, a flushed one has decided, a decided one has a status. */
    predicate Valid()
      reads this
    {
      (compress ==> decided && gz.Some?) && (flushAfter ==> decided) && (decided ==> status != 0)
    }

    constructor (header: Header)
      ensures Valid() && State() == Fresh(header)
    {
      status, decided, compress, pending, gz, wire, flushAfter := 0, false, false, [], None, [], false;
      this.header := header;
    }

    method WriteHeader(code: int)
      requires Valid()
      modifies this
      ensures Valid() && State() == AfterWriteHeader(old(State()), code)
    {
      if status != 0 {
        return;
      }
      status := code;
      if code == NO_CONTENT || code == NOT_MODIFIED {
        decided := true;
        compress := false;
        header := AddVary(header);
        wire := wire + [Head(code, header)];
      }
    }

    method Decide()
      modifies this
      ensures State() == AfterDecide(old(State())) && flushAfter == old(flushAfter)
      ensures status == (if old(status) == 0 then 200 else old(status)) && old(wire) + [Head(status, header)] <= wire
    {
      decided := true;
      compress := header.contentEncoding == "" && |pending| >= MIN_GZIP_BYTES && Compressible(header.contentType);
      if compress {
        header := header.(hasLength := false, contentEncoding := "gzip");
        gz := Some([]);
      }
      header := AddVary(header);
      if status == 0 {
        status := 200;
      }
      wire := wire + [Head(status, header)];
      var held := pending;
      if |held| > 0 {
        pending := [];
        if compress {
          assert [] + held == held;
          gz := Some(gz.value + held);
        } else {
          wire := wire + [Body(held)];
        }
      }
    }

    method Write(p: Bytes) returns (n: nat)
      requires Valid()
      modifies this
      ensures n == |p| && Valid() && State() == AfterWrite(old(State()), p)
    {
      n := |p|;
      if !decided {
        pending := pending + p;
        if |pending| < MIN_GZIP_BYTES && !flushAfter {
          return;
        }
        Decide();
        return;
      }
      if compress {
        gz := Some(gz.value + p);
      } else {
        wire := wire + [Body(p)];
      }
    }

    method Flush()
      requires Valid()
      modifies this
      ensures Valid() && State() == AfterFlush(old(State()))
    {
      if !decided {
        flushAfter := true;
        Decide();
      }
      if gz.Some? {
        wire := wire + [Body(gz.value)];
        gz := Some([]);
      }
    }

    method Close()
      requires Valid()
      modifies this
      ensures State() == AfterClose(old(State()))
    {
      if !decided {
        flushAfter := true;
        Decide();
      }
      if gz.Some? {
        wire := wire + [Body(gz.value)];
        gz := None;
      }
    }
  }
}
