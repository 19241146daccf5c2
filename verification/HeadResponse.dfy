/** What a handler's calls do to a plain response and to the response of a HEAD request, as values. */
module ResponseCalls {
  import opened Wrappers

  type Byte = x: int | 0 <= x < 256
  type Bytes = seq<Byte>

  const STATUS_OK: nat := 200

  datatype Call =
    | WriteHeader(code: nat)
    | Write(b: Bytes)
    | Flush
    | SetContentLength(n: nat)
    | SetTransferEncoding

  /** The header fields that matter for the length of a body. */
  datatype Header = Header(contentLength: Option<nat>, transferEncoding: bool)

  /** What has gone out: interim responses, then one header with its length field, then the body. */
  datatype Wire = Wire(interim: seq<nat>, status: Option<nat>, length: Option<nat>, body: Bytes)

  /** An interim response, section 15.2 of RFC 9110; 101 is a final one. */
  predicate IsInterim(code: nat) {
    100 <= code < 200 && code != 101
  }

  function SendHeader(w: Wire, h: Header, code: nat): Wire {
    if w.status.Some? then w
    else if IsInterim(code) then w.(interim := w.interim + [code])
    else w.(status := Some(code), length := h.contentLength)
  }

  function SendBody(w: Wire, h: Header, b: Bytes): Wire {
    var w' := SendHeader(w, h, STATUS_OK);
    w'.(body := w'.body + b)
  }

  /** The fields of a response; the counters tell how often its hooks have run. */
  datatype Get = Get(status: nat, size: nat, committed: bool, beforeRuns: nat, afterRuns: nat, header: Header, wire: Wire)

  function GetHeader(r: Get, code: nat): Get {
    if r.committed then r
    else r.(status := code, beforeRuns := r.beforeRuns + 1, wire := SendHeader(r.wire, r.header, code), committed := true)
  }

  function GetWrite(r: Get, b: Bytes): Get {
    var r' := if r.committed then r else GetHeader(r, if r.status == 0 then STATUS_OK else r.status);
    r'.(wire := SendBody(r'.wire, r'.header, b), size := r'.size + |b|, afterRuns := r'.afterRuns + 1)
  }

  function GetStep(r: Get, c: Call): Get {
    match c
    case WriteHeader(code) => GetHeader(r, code)
    case Write(b) => GetWrite(r, b)
    case Flush => r.(wire := SendHeader(r.wire, r.header, STATUS_OK))
    case SetContentLength(n) => r.(header := r.header.(contentLength := Some(n)))
    case SetTransferEncoding => r.(header := r.header.(transferEncoding := true))
  }

  /** The writer of a HEAD request, around the response. */
  datatype Head = Head(status: nat, wroteStatus: bool, bodyBytes: nat, rw: Get)

  function HeadStep(w: Head, c: Call): Head {
    match c
    case WriteHeader(code) =>
      if w.wroteStatus then w else w.(wroteStatus := true, status := code, rw := w.rw.(committed := true))
    case Write(b) =>
      var w' := if w.wroteStatus then w else w.(wroteStatus := true, status := STATUS_OK, rw := w.rw.(committed := true));
      w'.(bodyBytes := w'.bodyBytes + |b|)
    case Flush => w
    case SetContentLength(_) => w.(rw := GetStep(w.rw, c))
    case SetTransferEncoding => w.(rw := GetStep(w.rw, c))
  }

  predicate StatusMustNotHaveBody(code: nat) {
    100 <= code < 200 || code == 204 || code == 205 || code == 304
  }

  /** The length field of a HEAD response: as it was set, or the size of the body where there may be one. */
  function LengthField(h: Header, code: nat, size: nat): Option<nat> {
    if h.contentLength.Some? || h.transferEncoding || StatusMustNotHaveBody(code) then h.contentLength else Some(size)
  }

  function Commit(w: Head): Head {
    if !w.wroteStatus then w
    else
      var header := w.rw.header.(contentLength := LengthField(w.rw.header, w.status, w.bodyBytes));
      var r := GetHeader(w.rw.(header := header, committed := false), w.status);
      w.(rw := r.(size := w.bodyBytes, afterRuns := r.afterRuns + 1))
  }

  /** The end of the request: a missing header is sent. */
  function End(r: Get): Get {
    r.(wire := SendHeader(r.wire, r.header, STATUS_OK))
  }

  function GetRun(r: Get, calls: seq<Call>): Get {
    if calls == [] then r else GetStep(GetRun(r, calls[..|calls| - 1]), calls[|calls| - 1])
  }

  function HeadRun(w: Head, calls: seq<Call>): Head {
    if calls == [] then w else HeadStep(HeadRun(w, calls[..|calls| - 1]), calls[|calls| - 1])
  }

  /** A response before its handler runs. */
  function Fresh(suggested: nat, h: Header): Get {
    Get(suggested, 0, false, 0, 0, h, Wire([], None, None, []))
  }
}

/** The answer to a HEAD request against the answer to the same GET request. */
module HeadAgainstGet {
  import opened Wrappers
  import opened ResponseCalls

  /** The status that the first header or body call gives. */
  function Given(calls: seq<Call>): Option<nat> {
    if calls == [] then None
    else
      var before, last := Given(calls[..|calls| - 1]), calls[|calls| - 1];
      if before.Some? then before
      else match last case WriteHeader(code) => Some(code) case Write(_) => Some(STATUS_OK) case _ => None
  }

  /** A flush has come before any header or body call. */
  predicate FlushedEarly(calls: seq<Call>) {
    calls != [] && (FlushedEarly(calls[..|calls| - 1])
                    || (calls[|calls| - 1].Flush? && Given(calls[..|calls| - 1]).None?))
  }

  function Written(calls: seq<Call>): nat {
    if calls == [] then 0
    else Written(calls[..|calls| - 1]) + if calls[|calls| - 1].Write? then |calls[|calls| - 1].b| else 0
  }

  /** The header fields after some calls. */
  function HeaderAfter(h: Header, calls: seq<Call>): Header {
    if calls == [] then h
    else GetStep(Fresh(0, HeaderAfter(h, calls[..|calls| - 1])), calls[|calls| - 1]).header
  }

  lemma {:induction false} GetFacts(suggested: nat, h: Header, calls: seq<Call>)
    requires suggested == 0 || suggested == STATUS_OK
    ensures var r := GetRun(Fresh(suggested, h), calls);
            && r.committed == Given(calls).Some? && r.size == Written(calls) == |r.wire.body|
            && r.header == HeaderAfter(h, calls)
            && r.beforeRuns == (if Given(calls).Some? then 1 else 0)
            && r.status == Given(calls).GetOr(suggested)
            && GetSent(calls, r.wire)
  {
    if calls != [] {
      var before := calls[..|calls| - 1];
      GetFacts(suggested, h, before);
    }
  }

  /** What a GET request has sent after some calls. */
  predicate GetSent(calls: seq<Call>, w: Wire) {
    if FlushedEarly(calls) then w.interim == [] && w.status == Some(STATUS_OK)
    else match Given(calls)
      case None => w.interim == [] && w.status == None
      case Some(code) =>
        if IsInterim(code) then w.interim == [code] && (w.status == None || w.status == Some(STATUS_OK))
        else w.interim == [] && w.status == Some(code)
  }

  lemma {:induction false} HeadFacts(suggested: nat, h: Header, calls: seq<Call>)
    ensures var w := HeadRun(Head(0, false, 0, Fresh(suggested, h)), calls);
            && w.wroteStatus == Given(calls).Some? && w.status == Given(calls).GetOr(0) && w.bodyBytes == Written(calls)
            && w.rw == Fresh(suggested, HeaderAfter(h, calls)).(committed := w.wroteStatus)
  {
    if calls != [] {
      var before := calls[..|calls| - 1];
      HeadFacts(suggested, h, before);
    }
  }

  /** No flush forces a 200 out before the handler gives another status. */
  predicate FlushDoesNotDecide(calls: seq<Call>) {
    FlushedEarly(calls) ==> Given(calls).GetOr(STATUS_OK) == STATUS_OK
  }

  /**
   The HEAD run sends one header and no body, records the size of the GET body, and its length field is
   the one that was set, or that size where the status allows a body.
   */
  lemma HeadSendsHeaderOnly(suggested: nat, h: Header, calls: seq<Call>)
    requires suggested == 0 || suggested == STATUS_OK
    ensures var get := End(GetRun(Fresh(suggested, h), calls));
            var head := End(Commit(HeadRun(Head(0, false, 0, Fresh(suggested, h)), calls)).rw);
            && head.wire.status.Some? && head.wire.body == []
            && head.size == get.size == |get.wire.body| && head.beforeRuns == get.beforeRuns
            && head.wire.length == (match Given(calls)
                                    case Some(code) => LengthField(HeaderAfter(h, calls), code, |get.wire.body|)
                                    case None => HeaderAfter(h, calls).contentLength)
  {
    GetFacts(suggested, h, calls);
    HeadFacts(suggested, h, calls);
  }

  /** The HEAD run sends the same status as the GET run, unless an early flush has decided the latter. */
  lemma SameStatus(suggested: nat, h: Header, calls: seq<Call>)
    requires suggested == 0 || suggested == STATUS_OK
    ensures var get := End(GetRun(Fresh(suggested, h), calls));
            var head := End(Commit(HeadRun(Head(0, false, 0, Fresh(suggested, h)), calls)).rw);
            (head.wire.status == get.wire.status && head.wire.interim == get.wire.interim) <==> FlushDoesNotDecide(calls)
  {
    GetFacts(suggested, h, calls);
    HeadFacts(suggested, h, calls);
  }

  // ---------------------------------------------------------------------------
  // What both answers are.

  /** Calls that only set header fields. */
  predicate IsQuiet(calls: seq<Call>) {
    forall c :: c in calls ==> c.SetContentLength? || c.SetTransferEncoding?
  }

  lemma {:induction false} QuietGivesNothing(calls: seq<Call>)
    requires IsQuiet(calls)
    ensures Given(calls) == None && !FlushedEarly(calls) && Written(calls) == 0
  {
    if calls != [] {
      QuietGivesNothing(calls[..|calls| - 1]);
      assert calls[|calls| - 1] in calls;
    }
  }

  lemma {:induction false} FirstGives(before: seq<Call>, c: Call, after: seq<Call>)
    requires IsQuiet(before) && (c.WriteHeader? || c.Write?)
    ensures var calls := before + [c] + after;
            Given(calls) == Some(if c.WriteHeader? then c.code else 200) && !FlushedEarly(calls)
    decreases |after|
  {
    var calls := before + [c] + after;
    if after == [] {
      assert calls == before + [c] && calls[..|calls| - 1] == before;
      QuietGivesNothing(before);
    } else {
      assert calls[..|calls| - 1] == before + [c] + after[..|after| - 1];
      FirstGives(before, c, after[..|after| - 1]);
    }
  }

  /** The first call that gives a status decides that of both answers: a header call its own, a body call 200. */
  lemma FirstCallDecides(suggested: nat, h: Header, before: seq<Call>, c: Call, after: seq<Call>)
    requires (suggested == 0 || suggested == 200) && IsQuiet(before) && (c.WriteHeader? || c.Write?)
    requires c.WriteHeader? ==> c.code >= 200 || c.code == 101
    ensures var calls, status := before + [c] + after, if c.WriteHeader? then c.code else 200;
            && End(GetRun(Fresh(suggested, h), calls)).wire.status == Some(status)
            && End(Commit(HeadRun(Head(0, false, 0, Fresh(suggested, h)), calls)).rw).wire.status == Some(status)
  {
    var calls := before + [c] + after;
    FirstGives(before, c, after);
    GetFacts(suggested, h, calls);
    HeadFacts(suggested, h, calls);
  }

  /** Without a header, body or flush call both answers are 200. */
  lemma QuietIsOk(suggested: nat, h: Header, calls: seq<Call>)
    requires (suggested == 0 || suggested == 200) && IsQuiet(calls)
    ensures End(GetRun(Fresh(suggested, h), calls)).wire.status == Some(200)
    ensures End(Commit(HeadRun(Head(0, false, 0, Fresh(suggested, h)), calls)).rw).wire.status == Some(200)
  {
    QuietGivesNothing(calls);
    GetFacts(suggested, h, calls);
    HeadFacts(suggested, h, calls);
  }

  /** All that the handler writes. */
  function AllWritten(calls: seq<Call>): Bytes {
    if calls == [] then []
    else AllWritten(calls[..|calls| - 1]) + if calls[|calls| - 1].Write? then calls[|calls| - 1].b else []
  }

  /** The GET answer has all that was written as its body. */
  lemma {:induction false} BodyIsWritten(suggested: nat, h: Header, calls: seq<Call>)
    ensures GetRun(Fresh(suggested, h), calls).wire.body == AllWritten(calls)
    ensures |AllWritten(calls)| == Written(calls)
  {
    if calls != [] {
      BodyIsWritten(suggested, h, calls[..|calls| - 1]);
    }
  }

  lemma {:induction false} NoFieldsSet(h: Header, calls: seq<Call>)
    requires forall c :: c in calls ==> !c.SetContentLength? && !c.SetTransferEncoding?
    ensures HeaderAfter(h, calls) == h
  {
    if calls != [] {
      NoFieldsSet(h, calls[..|calls| - 1]);
      assert calls[|calls| - 1] in calls;
    }
  }

  /**
   Where nobody sets a length or a transfer encoding, the HEAD answer tells the size of the GET body, unless its status
   is one of 1xx, 204, 205 and 304.
   */
  lemma HeadTellsSize(suggested: nat, calls: seq<Call>, code: nat)
    requires (suggested == 0 || suggested == 200) && Given(calls) == Some(code)
    requires forall c :: c in calls ==> !c.SetContentLength? && !c.SetTransferEncoding?
    ensures var head := End(Commit(HeadRun(Head(0, false, 0, Fresh(suggested, Header(None, false))), calls)).rw);
            head.wire.length == if 100 <= code <= 199 || code in {204, 205, 304} then None else Some(|AllWritten(calls)|)
  {
    var h := Header(None, false);
    NoFieldsSet(h, calls);
    BodyIsWritten(suggested, h, calls);
    HeadSendsHeaderOnly(suggested, h, calls);
    GetFacts(suggested, h, calls);
  }

  /** The number of body calls. */
  function Writes(calls: seq<Call>): nat {
    if calls == [] then 0 else Writes(calls[..|calls| - 1]) + if calls[|calls| - 1].Write? then 1 else 0
  }

  lemma {:induction false} AfterEachWrite(suggested: nat, h: Header, calls: seq<Call>)
    ensures GetRun(Fresh(suggested, h), calls).afterRuns == Writes(calls)
  {
    if calls != [] {
      AfterEachWrite(suggested, h, calls[..|calls| - 1]);
    }
  }

  /** The hooks before the header run once; those after a write run after each write of GET, and once for HEAD. */
  lemma HooksRun(suggested: nat, h: Header, calls: seq<Call>)
    requires suggested == 0 || suggested == 200
    ensures var get := End(GetRun(Fresh(suggested, h), calls));
            var head := End(Commit(HeadRun(Head(0, false, 0, Fresh(suggested, h)), calls)).rw);
            var given := if Given(calls).Some? then 1 else 0;
            && get.beforeRuns == head.beforeRuns == given && get.afterRuns == Writes(calls) && head.afterRuns == given
  {
    GetFacts(suggested, h, calls);
    HeadFacts(suggested, h, calls);
    AfterEachWrite(suggested, h, calls);
  }

  /** A status that somebody has suggested goes out with the first body call of GET. */
  lemma SuggestedIsSent(suggested: nat, h: Header, b: Bytes)
    requires suggested >= 200 || suggested == 101
    ensures GetStep(Fresh(suggested, h), Write(b)).wire.status == Some(suggested)
  {
  }

  /** A length that is set in the end is kept. */
  lemma HeadKeepsLength(suggested: nat, h: Header, before: seq<Call>, n: nat, after: seq<Call>)
    requires suggested == 0 || suggested == 200
    requires forall c :: c in after ==> !c.SetContentLength?
    ensures var calls := before + [SetContentLength(n)] + after;
            End(Commit(HeadRun(Head(0, false, 0, Fresh(suggested, h)), calls)).rw).wire.length == Some(n)
  {
    var calls := before + [SetContentLength(n)] + after;
    LengthStays(h, before, n, after);
    HeadSendsHeaderOnly(suggested, h, calls);
  }

  lemma {:induction false} LengthStays(h: Header, before: seq<Call>, n: nat, after: seq<Call>)
    requires forall c :: c in after ==> !c.SetContentLength?
    ensures HeaderAfter(h, before + [SetContentLength(n)] + after).contentLength == Some(n)
    decreases |after|
  {
    var calls := before + [SetContentLength(n)] + after;
    if after == [] {
      assert calls == before + [SetContentLength(n)] && calls[..|calls| - 1] == before;
    } else {
      assert calls[..|calls| - 1] == before + [SetContentLength(n)] + after[..|after| - 1];
      assert after[|after| - 1] in after;
      LengthStays(h, before, n, after[..|after| - 1]);
    }
  }

  /** A flush and then a 404: the GET request has sent 200 by then, the HEAD request sends 404. */
  lemma EarlyFlushDiffers()
    ensures var calls, h := [Flush, WriteHeader(404)], Header(None, false);
            && End(GetRun(Fresh(0, h), calls)).wire.status == Some(200)
            && End(Commit(HeadRun(Head(0, false, 0, Fresh(0, h)), calls)).rw).wire.status == Some(404)
  {
    var calls, h := [Flush, WriteHeader(404)], Header(None, false);
    assert calls[..1] == [Flush] && [Flush][..0] == [];
    assert GetRun(Fresh(0, h), [Flush]) == GetStep(GetRun(Fresh(0, h), []), Flush);
    assert HeadRun(Head(0, false, 0, Fresh(0, h)), [Flush]) == HeadStep(HeadRun(Head(0, false, 0, Fresh(0, h)), []), Flush);
  }
}

/** The two writers. */
module HeadResponse {
  import opened Wrappers
  import opened ResponseCalls

  class Response {
    var Status: nat
    var Size: nat
    var Committed: bool
    var header: Header
    /** The connection below. */
    var wire: Wire
    /** How often the hooks have run. */
    var beforeRuns: nat
    var afterRuns: nat

    ghost function Now(): Get
      reads this
    {
      Get(Status, Size, Committed, beforeRuns, afterRuns, header, wire)
    }

    constructor (suggested: nat, header: Header)
      ensures Now() == Fresh(suggested, header)
    {
      Status, Size, Committed, this.header := suggested, 0, false, header;
      wire, beforeRuns, afterRuns := Wire([], None, None, []), 0, 0;
    }

    method WriteHeader(code: nat)
      modifies this
      ensures Now() == GetStep(old(Now()), ResponseCalls.WriteHeader(code))
    {
      if Committed {
        return;
      }
      Status := code;
      beforeRuns := beforeRuns + 1;
      wire := SendHeader(wire, header, Status);
      Committed := true;
    }

    method Write(b: Bytes)
      modifies this
      ensures Now() == GetStep(old(Now()), ResponseCalls.Write(b))
    {
      if !Committed {
        if Status == 0 {
          Status := STATUS_OK;
        }
        WriteHeader(Status);
      }
      wire := SendBody(wire, header, b);
      Size := Size + |b|;
      afterRuns := afterRuns + 1;
    }

    method Flush()
      modifies this
      ensures Now() == GetStep(old(Now()), ResponseCalls.Flush)
    {
      wire := SendHeader(wire, header, STATUS_OK);
    }
  }

  /** Holds the status back until the handler is done, and counts the body instead of sending it. */
  class HeadResponseWriter {
    const rw: Response
    var status: nat
    var wroteStatus: bool
    var bodyBytes: nat

    ghost function Now(): Head
      reads this, rw
    {
      Head(status, wroteStatus, bodyBytes, rw.Now())
    }

    constructor (rw: Response)
      ensures this.rw == rw && Now() == Head(0, false, 0, rw.Now())
    {
      this.rw, status, wroteStatus, bodyBytes := rw, 0, false, 0;
    }

    method WriteHeader(code: nat)
      modifies this, rw
      ensures Now() == HeadStep(old(Now()), ResponseCalls.WriteHeader(code))
    {
      if wroteStatus {
        return;
      }
      wroteStatus := true;
      status := code;
      rw.Committed := true;
    }

    method Write(b: Bytes)
      modifies this, rw
      ensures Now() == HeadStep(old(Now()), ResponseCalls.Write(b))
    {
      if !wroteStatus {
        WriteHeader(STATUS_OK);
      }
      bodyBytes := bodyBytes + |b|;
    }

    /** Does nothing: a header sent early could not be given its length any more. */
    method Flush()
      ensures Now() == HeadStep(old(Now()), ResponseCalls.Flush)
    {
    }

    method FinishHead()
      modifies this, rw
      ensures Now() == Commit(old(Now()))
    {
      var dst := rw.header;
      if wroteStatus && dst.contentLength.None? && !dst.transferEncoding && !StatusMustNotHaveBody(status) {
        rw.header := dst.(contentLength := Some(bodyBytes));
      }
      if wroteStatus {
        rw.Committed := false;
        rw.WriteHeader(status);
        rw.Size := bodyBytes;
        rw.afterRuns := rw.afterRuns + 1;
      }
    }
  }
}
