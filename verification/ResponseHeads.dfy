/** The header a response goes out with: its status, and whose encoding it carries, from the handler's calls alone. */
module ResponseHeads {
  import opened GzipWriter
  import opened Text

  // --- The status ---

  /** The i-th call sets the status: a first one with a code, before a flush and before 256 bytes have forced the header out. */
  ghost predicate Announces(ops: seq<Op>, i: int) {
    && 0 <= i < |ops| && ops[i].WriteHeader? && ops[i].status != 0
    && |Written(ops[..i])| < 256
    && forall j :: 0 <= j < i ==> !ops[j].Flush? && (ops[j].WriteHeader? ==> ops[j].status == 0)
  }

  /** The status sent so far, or to be sent. */
  ghost predicate SendsStatus(w: Writer, status: int) {
    && w.status == status != 0
    && (w.decided ==> HeaderFirst(w.wire) && w.wire[0].status == status)
  }

  /** Before any header has to go out the writer has no status. */
  ghost predicate Open(w: Writer) {
    w.status == 0 && !w.decided
  }

  lemma StatusStays(ops: seq<Op>, op: Op, status: int)
    requires SendsStatus(Run(ops), status)
    ensures SendsStatus(Run(ops + [op]), status)
  {
    assert (ops + [op])[..|ops|] == ops;
    RunConserves(ops);
    RunConserves(ops + [op]);
    var w := Run(ops);
    if w.decided {
      DecisionIsFinal(w, op);
      assert Run(ops + [op]).wire[0] == w.wire[0];
    }
  }

  /** Without a call that forces it out, the header is still open. */
  lemma {:induction false} StaysOpen(ops: seq<Op>)
    requires |Written(ops)| < 256
    requires forall j :: 0 <= j < |ops| ==> !ops[j].Flush? && (ops[j].WriteHeader? ==> ops[j].status == 0)
    ensures Open(Run(ops))
  {
    if ops != [] {
      StaysOpen(ops[..|ops| - 1]);
      RunConserves(ops[..|ops| - 1]);
    }
  }

  lemma {:induction false} AnnouncedStays(ops: seq<Op>, i: int)
    requires Announces(ops, i)
    ensures SendsStatus(Run(ops), ops[i].status)
  {
    var front, last := ops[..|ops| - 1], |ops| - 1;
    assert front + [ops[last]] == ops;
    if i < last {
      assert front[..i] == ops[..i];
      AnnouncedStays(front, i);
      StatusStays(front, ops[last], ops[i].status);
    } else {
      assert ops[..i] == front;
      StaysOpen(front);
      RunConserves(ops);
    }
  }

  /** Without such a call the header is open or has gone out with 200. */
  lemma {:induction false} UnannouncedIsOK(ops: seq<Op>)
    requires forall i :: !Announces(ops, i)
    ensures if Run(ops).decided then SendsStatus(Run(ops), 200) else Open(Run(ops))
    ensures !Run(ops).decided ==>
      forall j :: 0 <= j < |ops| ==> !ops[j].Flush? && (ops[j].WriteHeader? ==> ops[j].status == 0)
  {
    if ops != [] {
      var front, op := ops[..|ops| - 1], ops[|ops| - 1];
      assert front + [op] == ops;
      forall i | Announces(front, i) ensures false {
        assert front[..i] == ops[..i];
        assert Announces(ops, i);
      }
      UnannouncedIsOK(front);
      RunConserves(front);
      RunConserves(ops);
      if Run(front).decided {
        StatusStays(front, op, 200);
      } else {
        assert !Announces(ops, |front|);
      }
    }
  }

  lemma ClosedStatus(ops: seq<Op>, status: int)
    requires SendsStatus(Run(ops), status) || (Open(Run(ops)) && status == 200)
    ensures var w := AfterClose(Run(ops)); HeaderFirst(w.wire) && w.wire[0].status == status
  {
    RunConserves(ops);
    SettledConserves(Run(ops), Written(ops), Lost(ops));
    var w := Settled(Run(ops));
    if w.gz.Some? {
      HeaderStaysFirst(w.wire, w.gz.value);
    }
  }

  /** The status on the wire is the one the handler announced in time, otherwise 200. */
  lemma StatusOnWire(ops: seq<Op>)
    ensures var w := AfterClose(Run(ops));
      && HeaderFirst(w.wire)
      && (forall i :: Announces(ops, i) ==> w.wire[0].status == ops[i].status)
      && ((forall i :: !Announces(ops, i)) ==> w.wire[0].status == 200)
  {
    if i :| Announces(ops, i) {
      AnnouncedStays(ops, i);
      ClosedStatus(ops, ops[i].status);
      forall j | Announces(ops, j) ensures j == i {}
    } else {
      UnannouncedIsOK(ops);
      ClosedStatus(ops, 200);
    }
  }

  // --- The encoding ---

  /** The handler says from the start, and always, that the content is encoded this way. */
  ghost predicate EncodesItself(ops: seq<Op>, encoding: string) {
    && ops != [] && ops[0].SetHeader?
    && forall i :: 0 <= i < |ops| && ops[i].SetHeader? ==> ops[i].contentEncoding == encoding
  }

  ghost predicate Encoded(w: Writer, encoding: string) {
    && !w.compress && w.gz.None? && w.header.contentEncoding == encoding
    && (w.decided ==> HeaderFirst(w.wire) && w.wire[0].header.contentEncoding == encoding)
  }

  lemma {:induction false} EncodedStays(ops: seq<Op>, encoding: string)
    requires EncodesItself(ops, encoding) && encoding != ""
    ensures Encoded(Run(ops), encoding)
  {
    var front, op := ops[..|ops| - 1], ops[|ops| - 1];
    if front != [] {
      EncodedStays(front, encoding);
      RunConserves(front);
      RunConserves(ops);
      if Run(front).decided {
        DecisionIsFinal(Run(front), op);
        assert Run(ops).wire[0] == Run(front).wire[0];
      }
    } else {
      assert Run(front) == Fresh(Header("", "", false, 0));
    }
  }

  /** A response that comes encoded is passed on as it is. */
  lemma OwnEncodingKept(ops: seq<Op>, encoding: string)
    requires EncodesItself(ops, encoding) && encoding != ""
    ensures var w := AfterClose(Run(ops));
      HeaderFirst(w.wire) && !w.compress && w.wire[0].header.contentEncoding == encoding
  {
    EncodedStays(ops, encoding);
    RunConserves(ops);
    SettledConserves(Run(ops), Written(ops), Lost(ops));
  }

  /** A plain response written at once is compressed if and only if it has 256 bytes and a type that compresses; the
      type reaches the client either way. */
  lemma CompressedIff(contentType: string, hasLength: bool, p: Bytes)
    ensures var w := AfterClose(Run([SetHeader(contentType, "", hasLength), Write(p)]));
      && HeaderFirst(w.wire) && Bodies(w.wire) == p
      && w.wire[0].header == if |p| >= 256 && Compressible(contentType) then Header(contentType, "gzip", false, 1)
                             else Header(contentType, "", hasLength, 1)
  {
    var typed, written := SetHeader(contentType, "", hasLength), Write(p);
    var w := Fresh(Header(contentType, "", hasLength, 0));
    var ops := [typed, written];
    assert ops[..|ops| - 1] == [typed] && ops[|ops| - 1] == written && [typed][..0] == [];
    assert Run([typed]) == Step(Fresh(Header("", "", false, 0)), typed) == w;
    assert Run(ops) == Step(w, written) == AfterWrite(w, p);
    ClosedAfterOne(w, p);
    HeadAtOnce(w.(pending := p));
  }

  lemma ClosedAfterOne(w: Writer, p: Bytes)
    requires !w.decided && w.pending == []
    ensures AfterClose(AfterWrite(w, p)) == Emptied(AfterDecide(w.(pending := p)), true)
  {
    assert [] + p == p;
  }

  lemma HeadAtOnce(w: Writer)
    requires Open(w) && w.wire == [] && w.gz.None? && !w.compress && w.header.vary == 0 && w.header.contentEncoding == ""
    ensures var sent, zip := Emptied(AfterDecide(w), true).wire, |w.pending| >= 256 && Compressible(w.header.contentType);
      && HeaderFirst(sent) && Bodies(sent) == w.pending
      && sent[0].header == w.header.(vary := 1, contentEncoding := if zip then "gzip" else "", hasLength := !zip && w.header.hasLength)
  {
    DecideConserves(w, w.pending);
    EmptiedConserves(AfterDecide(w), true, w.pending, []);
  }

  lemma {:induction false} MediaTypeEnds(t: string, params: string)
    requires ';' !in t
    ensures MediaType(t) == MediaType(t + ";" + params) == t
  {
    if t == [] {
      assert ([] + ";" + params)[0] == ';';
    } else {
      assert (t + ";" + params)[1..] == t[1..] + ";" + params && t == [t[0]] + t[1..];
      MediaTypeEnds(t[1..], params);
    }
  }

  /** Whatever parameters follow do not matter, nor does case or surrounding space. */
  lemma CompressibleType(t: string, u: string, params: string)
    requires ';' !in t && ';' !in u && Trim(Lower(t)) == Trim(Lower(u))
    ensures Compressible(t) == Compressible(u + ";" + params)
  {
    MediaTypeEnds(t, params);
    MediaTypeEnds(u, params);
  }

  /** A type in lower case compresses if it begins like one of these and is no event stream. */
  lemma CompressibleIff(t: string)
    requires ';' !in t && Lower(t) == t && Trim(t) == t
    ensures Compressible(t) <==> (t != "text/event-stream"
      && ("text/" <= t || "image/svg+xml" <= t || "application/json" <= t || "application/javascript" <= t
          || "application/xml" <= t || "application/manifest+json" <= t))
  {
    MediaTypeEnds(t, "");
  }

  /** A first header call goes out at once for 204 and 304 only. */
  lemma HeadAtOnceIff(status: int)
    requires status != 0
    ensures Run([WriteHeader(status)]).wire != [] <==> status == 204 || status == 304
  {
    var ops := [WriteHeader(status)];
    assert ops[..|ops| - 1] == [] && ops[|ops| - 1] == WriteHeader(status);
    assert Run(ops) == AfterWriteHeader(Fresh(Header("", "", false, 0)), status);
  }
}
