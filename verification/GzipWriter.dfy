/** What the gzip writer promises, in terms of the calls that a handler makes. */
module GzipCalls {
  type Byte = x: int | 0 <= x < 256
  type Bytes = seq<Byte>

  datatype Call = WriteHeader(code: nat) | Write(b: Bytes) | Flush

  const STATUS_OK: nat := 200

  /** All that the handler writes. */
  function Data(calls: seq<Call>): Bytes {
    if calls == [] then []
    else
      var last := calls[|calls| - 1];
      Data(calls[..|calls| - 1]) + if last.Write? then last.b else []
  }

  predicate HasWrite(calls: seq<Call>) {
    calls != [] && (calls[|calls| - 1].Write? || HasWrite(calls[..|calls| - 1]))
  }

  predicate HasHeader(calls: seq<Call>) {
    calls != [] && (calls[|calls| - 1].WriteHeader? || HasHeader(calls[..|calls| - 1]))
  }

  predicate HasFlush(calls: seq<Call>) {
    calls != [] && (calls[|calls| - 1].Flush? || HasFlush(calls[..|calls| - 1]))
  }

  /** The status of the latest WriteHeader. */
  function Code(calls: seq<Call>): nat {
    if calls == [] then STATUS_OK
    else
      var last := calls[|calls| - 1];
      if last.WriteHeader? then last.code else Code(calls[..|calls| - 1])
  }

  /** Compression is chosen: there has been a flush, or as many bytes as the minimum. */
  predicate IsCompressed(calls: seq<Call>, minLength: nat) {
    HasFlush(calls) || (HasWrite(calls) && |Data(calls)| >= minLength)
  }

  /** The status that goes out: the latest one when the choice is made, or at the end. */
  function StatusSent(calls: seq<Call>, minLength: nat): nat {
    if calls != [] && IsCompressed(calls, minLength) then StatusSent(calls[..|calls| - 1], minLength) else Code(calls)
  }

  lemma Snoc(calls: seq<Call>, c: Call)
    ensures Data(calls + [c]) == Data(calls) + if c.Write? then c.b else []
    ensures HasWrite(calls + [c]) <==> HasWrite(calls) || c.Write?
    ensures HasHeader(calls + [c]) <==> HasHeader(calls) || c.WriteHeader?
    ensures HasFlush(calls + [c]) <==> HasFlush(calls) || c.Flush?
    ensures Code(calls + [c]) == if c.WriteHeader? then c.code else Code(calls)
  {
    var all := calls + [c];
    assert all[..|all| - 1] == calls && all[|calls|] == c;
  }

  lemma SnocStatus(calls: seq<Call>, c: Call, minLength: nat)
    ensures StatusSent(calls + [c], minLength)
         == if IsCompressed(calls + [c], minLength) then StatusSent(calls, minLength) else Code(calls + [c])
    ensures IsCompressed(calls, minLength) ==> IsCompressed(calls + [c], minLength)
    ensures !IsCompressed(calls, minLength) ==> StatusSent(calls, minLength) == Code(calls)
  {
    Snoc(calls, c);
    assert (calls + [c])[..|calls + [c]| - 1] == calls;
  }

  lemma AfterWrite(calls: seq<Call>, b: Bytes, minLength: nat)
    ensures var after := calls + [Write(b)];
            && Data(after) == Data(calls) + b && HasWrite(after) && Code(after) == Code(calls)
            && (HasHeader(after) <==> HasHeader(calls))
            && (IsCompressed(after, minLength) <==> IsCompressed(calls, minLength) || |Data(calls) + b| >= minLength)
            && (IsCompressed(after, minLength) ==> StatusSent(after, minLength) == StatusSent(calls, minLength))
            && (!IsCompressed(calls, minLength) ==> StatusSent(calls, minLength) == Code(calls))
  {
    Snoc(calls, Write(b));
    SnocStatus(calls, Write(b), minLength);
  }

  /** Without a header call the status is the default one. */
  lemma {:induction false} NoHeaderNoCode(calls: seq<Call>)
    requires !HasHeader(calls)
    ensures Code(calls) == STATUS_OK
  {
    if calls != [] {
      var before, last := calls[..|calls| - 1], calls[|calls| - 1];
      assert calls == before + [last];
      Snoc(before, last);
      NoHeaderNoCode(before);
    }
  }

  // ---------------------------------------------------------------------------
  // The status.

  lemma {:induction false} CodeStays(before: seq<Call>, after: seq<Call>)
    requires !HasHeader(after)
    ensures Code(before + after) == Code(before)
    decreases |after|
  {
    if after == [] {
      assert before + after == before;
    } else {
      var all := before + after;
      assert all[..|all| - 1] == before + after[..|after| - 1];
      CodeStays(before, after[..|after| - 1]);
    }
  }

  /** Once the body is being compressed, no call changes the status that has gone out. */
  lemma {:induction false} StatusStays(before: seq<Call>, after: seq<Call>, minLength: nat)
    requires IsCompressed(before, minLength)
    ensures IsCompressed(before + after, minLength)
    ensures StatusSent(before + after, minLength) == StatusSent(before, minLength)
    decreases |after|
  {
    if after == [] {
      assert before + after == before;
    } else {
      var all, last := before + after, after[|after| - 1];
      assert all == before + after[..|after| - 1] + [last];
      StatusStays(before, after[..|after| - 1], minLength);
      SnocStatus(before + after[..|after| - 1], last, minLength);
    }
  }

  /** The latest status that is given before the body is being compressed, or at all, is the one that goes out. */
  lemma {:induction false} LatestStatusIsSent(before: seq<Call>, code: nat, after: seq<Call>, minLength: nat)
    requires !IsCompressed(before, minLength) && !HasHeader(after)
    ensures StatusSent(before + [WriteHeader(code)] + after, minLength) == code
    decreases |after|
  {
    var calls := before + [WriteHeader(code)];
    Snoc(before, WriteHeader(code));
    if after == [] {
      assert calls + after == calls;
      SnocStatus(before, WriteHeader(code), minLength);
    } else {
      var all, last := calls + after, after[|after| - 1];
      assert all == calls + after[..|after| - 1] + [last];
      LatestStatusIsSent(before, code, after[..|after| - 1], minLength);
      SnocStatus(calls + after[..|after| - 1], last, minLength);
      CodeStays(calls, after);
    }
  }

  /** Without a status the answer is 200. */
  lemma {:induction false} NoStatusIsOk(calls: seq<Call>, minLength: nat)
    requires !HasHeader(calls)
    ensures StatusSent(calls, minLength) == 200
  {
    NoHeaderNoCode(calls);
    if calls != [] {
      NoStatusIsOk(calls[..|calls| - 1], minLength);
    }
  }

  // ---------------------------------------------------------------------------
  // The compressor.

  datatype GzipOp = Feed(b: Bytes) | Sync | Close

  function Fed(ops: seq<GzipOp>): Bytes {
    if ops == [] then []
    else
      var last := ops[|ops| - 1];
      Fed(ops[..|ops| - 1]) + if last.Feed? then last.b else []
  }

  /** `emit` gives all bytes that a compressor has put out after some operations. */
  datatype Codec = Codec(emit: seq<GzipOp> -> Bytes, decode: Bytes -> Bytes)

  ghost predicate OnlyGrows(c: Codec, ops: seq<GzipOp>, op: GzipOp) {
    c.emit(ops) <= c.emit(ops + [op])
  }

  ghost predicate DecodesFed(c: Codec, ops: seq<GzipOp>) {
    c.decode(c.emit(ops + [Close])) == Fed(ops)
  }

  /** The output only grows, and once it is closed it decodes to what was fed. */
  ghost predicate IsCodec(c: Codec) {
    c.emit([]) == [] && (forall ops, op :: OnlyGrows(c, ops, op)) && (forall ops :: DecodesFed(c, ops))
  }

  /** The compressor has not been closed. */
  predicate IsOpen(ops: seq<GzipOp>) {
    ops == [] || (!ops[|ops| - 1].Close? && IsOpen(ops[..|ops| - 1]))
  }

  /** Everything that the compressor has been fed can be read by the client. */
  predicate IsSynchronized(ops: seq<GzipOp>) {
    ops != [] && ops[|ops| - 1] == Sync
  }

  lemma FedSnoc(ops: seq<GzipOp>, op: GzipOp)
    ensures Fed(ops + [op]) == Fed(ops) + if op.Feed? then op.b else []
    ensures IsOpen(ops + [op]) <==> IsOpen(ops) && !op.Close?
  {
    assert (ops + [op])[..|ops + [op]| - 1] == ops;
  }

  lemma FedFirst(ops: seq<GzipOp>, b: Bytes)
    requires ops == []
    ensures Fed(ops + [Feed(b)]) == b && IsOpen(ops + [Feed(b)])
  {
    FedSnoc(ops, Feed(b));
    assert Fed(ops) + b == b;
  }

  lemma {:induction false} NothingWritten(calls: seq<Call>)
    requires !HasWrite(calls)
    ensures Data(calls) == [] && (calls != [] ==> HasHeader(calls) || HasFlush(calls))
  {
    if calls != [] {
      NothingWritten(calls[..|calls| - 1]);
    }
  }

  /** Nothing has gone out yet, and the buffer holds all that was written. */
  ghost predicate Holding(calls: seq<Call>, buffer: Bytes, ops: seq<GzipOp>, body: Bytes, touched: bool) {
    buffer == Data(calls) && ops == [] && body == [] && !touched
  }

  /** All that was written has been given to the compressor, and its output has been passed on. */
  ghost predicate Passing(c: Codec, calls: seq<Call>, minLength: nat, ops: seq<GzipOp>, body: Bytes, sentGzip: bool,
                          status: nat) {
    && Fed(ops) == Data(calls) && IsOpen(ops) && body == c.emit(ops) && sentGzip
    && status == StatusSent(calls, minLength)
  }

  /** A compressor that stores what it is fed is a codec. */
  lemma StoringIsCodec()
    ensures IsCodec(Codec(ops => Fed(ops), b => b))
  {
    var c := Codec((ops: seq<GzipOp>) => Fed(ops), (b: Bytes) => b);
    forall ops, op ensures OnlyGrows(c, ops, op) {
      FedSnoc(ops, op);
    }
    forall ops ensures DecodesFed(c, ops) {
      FedSnoc(ops, Close);
    }
  }
}

/** The writer that decides late whether to compress. */
module GzipWriter {
  import opened GzipCalls

  /** The underlying response: the first WriteHeader counts, and the first byte sends a missing one. */
  class Transport {
    var committed: bool
    var status: nat
    var body: Bytes
    /** The header field Content-Encoding, as it is now and as it was sent. */
    var encodingIsGzip: bool
    var sentGzip: bool

    constructor ()
      ensures !committed && body == [] && !encodingIsGzip
    {
      committed, status, body, encodingIsGzip, sentGzip := false, 0, [], false, false;
    }

    method WriteHeader(code: nat)
      modifies this`committed, this`status, this`sentGzip
      ensures committed
      ensures if old(committed) then status == old(status) && sentGzip == old(sentGzip)
              else status == code && sentGzip == encodingIsGzip
    {
      if !committed {
        committed, status, sentGzip := true, code, encodingIsGzip;
      }
    }

    method Write(b: Bytes)
      modifies this`committed, this`status, this`sentGzip, this`body
      ensures committed && body == old(body) + b
      ensures if old(committed) then status == old(status) && sentGzip == old(sentGzip)
              else status == STATUS_OK && sentGzip == encodingIsGzip
    {
      WriteHeader(STATUS_OK);
      body := body + b;
    }

    method Flush()
      modifies this`committed, this`status, this`sentGzip
      ensures committed
      ensures if old(committed) then status == old(status) && sentGzip == old(sentGzip)
              else status == STATUS_OK && sentGzip == encodingIsGzip
    {
      WriteHeader(STATUS_OK);
    }
  }

  class GzipResponseWriter {
    const rw: Transport
    const minLength: nat
    const codec: Codec
    var wroteHeader: bool
    var wroteBody: bool
    var minLengthExceeded: bool
    var code: nat
    var buffer: Bytes
    /** What the compressor has been given. */
    var ops: seq<GzipOp>
    ghost var calls: seq<Call>

    ghost predicate Valid()
      reads this, rw
    {
      && IsCodec(codec)
      && (wroteHeader <==> HasHeader(calls)) && (wroteBody <==> HasWrite(calls))
      && (wroteHeader ==> code == Code(calls))
      && (minLengthExceeded <==> IsCompressed(calls, minLength))
      && (if minLengthExceeded then Passing(codec, calls, minLength, ops, rw.body, rw.committed && rw.sentGzip, rw.status)
          else Holding(calls, buffer, ops, rw.body, rw.committed || rw.encodingIsGzip))
    }

    constructor (rw: Transport, minLength: nat, codec: Codec)
      requires IsCodec(codec) && !rw.committed && rw.body == [] && !rw.encodingIsGzip
      ensures Valid() && calls == [] && this.rw == rw && this.minLength == minLength && this.codec == codec
    {
      this.rw, this.minLength, this.codec := rw, minLength, codec;
      wroteHeader, wroteBody, minLengthExceeded, code, buffer, ops := false, false, false, 0, [], [];
      calls := [];
    }

    /** The status is remembered until it is known whether the body is compressed. */
    method WriteHeader(c: nat)
      requires Valid()
      modifies this
      ensures Valid() && calls == old(calls) + [GzipCalls.WriteHeader(c)]
    {
      Snoc(calls, GzipCalls.WriteHeader(c));
      SnocStatus(calls, GzipCalls.WriteHeader(c), minLength);
      calls := calls + [GzipCalls.WriteHeader(c)];
      wroteHeader := true;
      code := c;
    }

    /** Gives bytes to the compressor, which passes its output on. */
    method Compress(op: GzipOp)
      requires IsCodec(codec) && rw.body == codec.emit(ops)
      modifies this`ops, rw`committed, rw`status, rw`sentGzip, rw`body
      ensures ops == old(ops) + [op] && rw.body == codec.emit(ops) && rw.committed
      ensures if old(rw.committed) then rw.status == old(rw.status) && rw.sentGzip == old(rw.sentGzip)
              else rw.status == STATUS_OK && rw.sentGzip == rw.encodingIsGzip
    {
      var before, after := codec.emit(ops), codec.emit(ops + [op]);
      assert OnlyGrows(codec, ops, op);
      rw.Write(after[|before|..]);
      ops := ops + [op];
    }

    /** The body is going to be compressed: the header goes out with the status so far, then the buffer. */
    method StartCompression(ghost before: seq<Call>)
      requires IsCodec(codec) && !rw.committed && rw.body == [] && ops == []
      requires (wroteHeader <==> HasHeader(before)) && (wroteHeader ==> code == Code(before))
      modifies this`minLengthExceeded, this`ops, rw
      ensures minLengthExceeded && Fed(ops) == buffer && IsOpen(ops) && rw.body == codec.emit(ops)
      ensures rw.committed && rw.sentGzip && rw.status == Code(before)
    {
      minLengthExceeded := true;
      rw.encodingIsGzip := true;
      if wroteHeader {
        rw.WriteHeader(code);
      } else {
        NoHeaderNoCode(before);
      }
      FedFirst(ops, buffer);
      Compress(Feed(buffer));
    }

    method Write(b: Bytes)
      requires Valid()
      modifies this, rw
      ensures Valid() && calls == old(calls) + [GzipCalls.Write(b)]
    {
      ghost var before := calls;
      AfterWrite(calls, b, minLength);
      calls := calls + [GzipCalls.Write(b)];
      wroteBody := true;
      if !minLengthExceeded {
        BufferMore(b, before);
      } else {
        FeedMore(b);
      }
    }

    /** The bytes join the buffer; compression starts when the buffer has reached the minimum. */
    method BufferMore(b: Bytes, ghost before: seq<Call>)
      requires IsCodec(codec) && !rw.committed && rw.body == [] && ops == [] && !minLengthExceeded && !rw.encodingIsGzip
      requires (wroteHeader <==> HasHeader(before)) && (wroteHeader ==> code == Code(before))
      modifies this`buffer, this`minLengthExceeded, this`ops, rw
      ensures buffer == old(buffer) + b && (minLengthExceeded <==> |buffer| >= minLength)
      ensures if minLengthExceeded then
                && Fed(ops) == buffer && IsOpen(ops) && rw.body == codec.emit(ops)
                && rw.committed && rw.sentGzip && rw.status == Code(before)
              else ops == [] && rw.body == [] && !rw.committed && !rw.encodingIsGzip
    {
      buffer := buffer + b;
      if |buffer| >= minLength {
        StartCompression(before);
      }
    }

    method FeedMore(b: Bytes)
      requires IsCodec(codec) && rw.body == codec.emit(ops) && rw.committed
      modifies this`ops, rw`committed, rw`status, rw`sentGzip, rw`body
      ensures Fed(ops) == old(Fed(ops)) + b && rw.body == codec.emit(ops) && (IsOpen(old(ops)) ==> IsOpen(ops))
      ensures rw.committed && rw.status == old(rw.status) && rw.sentGzip == old(rw.sentGzip)
    {
      FedSnoc(ops, Feed(b));
      Compress(Feed(b));
    }

    /** A flush enforces compression, since nobody knows how much is still to come. */
    method Flush()
      requires Valid()
      modifies this, rw
      ensures Valid() && calls == old(calls) + [GzipCalls.Flush]
      ensures IsSynchronized(ops)
    {
      ghost var before := calls;
      Snoc(calls, GzipCalls.Flush);
      SnocStatus(calls, GzipCalls.Flush, minLength);
      calls := calls + [GzipCalls.Flush];
      if !minLengthExceeded {
        StartCompression(before);
      }
      Synchronize();
    }

    /** What has been compressed so far goes to the client. */
    method Synchronize()
      requires IsCodec(codec) && rw.body == codec.emit(ops) && rw.committed
      modifies this`ops, rw`committed, rw`status, rw`sentGzip, rw`body
      ensures IsSynchronized(ops)
      ensures Fed(ops) == old(Fed(ops)) && rw.body == codec.emit(ops) && (IsOpen(old(ops)) ==> IsOpen(ops))
      ensures rw.committed && rw.status == old(rw.status) && rw.sentGzip == old(rw.sentGzip)
    {
      FedSnoc(ops, Sync);
      Compress(Sync);
      rw.Flush();
    }

    /**
     The deferred end of the middleware. Of a handler that has flushed without writing, the stream is never closed; else
     the client gets exactly what was written.
     */
    method Finish()
      requires Valid()
      modifies this, rw
      ensures calls == old(calls) && (rw.committed <==> calls != [])
      ensures rw.committed ==> rw.status == StatusSent(calls, minLength)
      ensures rw.committed ==> (rw.sentGzip <==> HasFlush(calls) || (HasWrite(calls) && |Data(calls)| >= minLength))
      ensures HasWrite(calls) || !HasFlush(calls) ==>
                (if rw.committed && rw.sentGzip then codec.decode(rw.body) else rw.body) == Data(calls)
      ensures !HasWrite(calls) && HasFlush(calls) ==> rw.body == codec.emit(ops) && IsOpen(ops) && Fed(ops) == []
    {
      if !wroteBody {
        FinishEmpty();
      } else if !minLengthExceeded {
        if wroteHeader {
          rw.WriteHeader(code);
        } else {
          NoHeaderNoCode(calls);
        }
        rw.Write(buffer);
        assert [] + buffer == buffer;
      } else {
        assert DecodesFed(codec, ops);
        Compress(Close);
      }
    }

    /** Nothing was written: the status goes out if there is one, and what the compressor still has is discarded. */
    method FinishEmpty()
      requires Valid() && !wroteBody
      modifies rw
      ensures rw.committed <==> calls != []
      ensures rw.committed ==> rw.status == StatusSent(calls, minLength) && (rw.sentGzip <==> HasFlush(calls))
      ensures rw.body == old(rw.body) && Data(calls) == []
    {
      NothingWritten(calls);
      if rw.encodingIsGzip {
        rw.encodingIsGzip := false;
      }
      if wroteHeader {
        rw.WriteHeader(code);
      }
    }
  }
}

/** A stream that is not closed. */
module OpenStreams {
  import opened GzipCalls

  /** A compressor that marks each byte by a 0 and the end by a 1. */
  function Marked(ops: seq<GzipOp>): Bytes {
    if ops == [] then [] else Marked(ops[..|ops| - 1]) + MarkedOp(ops[|ops| - 1])
  }

  function MarkedOp(op: GzipOp): Bytes {
    match op
    case Feed(b) => MarkAll(b)
    case Sync => []
    case Close => [1]
  }

  function MarkAll(b: Bytes): Bytes {
    if b == [] then [] else [0, b[0]] + MarkAll(b[1..])
  }

  /** The marked bytes. */
  function Unmarked(b: Bytes): Bytes {
    if b == [] then []
    else if b[0] == 0 && |b| >= 2 then [b[1]] + Unmarked(b[2..])
    else Unmarked(b[1..])
  }

  /** What a client makes of a stream; a stream without an end is an error, for which the 0 stands. */
  function Decoded(b: Bytes): Bytes {
    if b == [] then [0] else Unmarked(b)
  }

  lemma UnmarkedByte(x: Byte, rest: Bytes)
    ensures Unmarked([0, x] + rest) == [x] + Unmarked(rest) && Unmarked([1] + rest) == Unmarked(rest)
  {
    assert ([0, x] + rest)[2..] == rest && ([1] + rest)[1..] == rest;
  }

  lemma Associative(a: Bytes, b: Bytes, c: Bytes)
    ensures (a + b) + c == a + (b + c)
  {
  }

  lemma {:induction false} UnmarkedMarks(b: Bytes, rest: Bytes)
    ensures Unmarked(MarkAll(b) + rest) == b + Unmarked(rest)
  {
    if b == [] {
      assert MarkAll(b) + rest == rest;
    } else {
      UnmarkedMarks(b[1..], rest);
      UnmarkedByte(b[0], MarkAll(b[1..]) + rest);
      Associative([0, b[0]], MarkAll(b[1..]), rest);
      Associative([b[0]], b[1..], Unmarked(rest));
    }
  }

  lemma UnmarkedOp(op: GzipOp, rest: Bytes)
    ensures Unmarked(MarkedOp(op) + rest) == (if op.Feed? then op.b else []) + Unmarked(rest)
  {
    match op
    case Feed(b) => UnmarkedMarks(b, rest);
    case Sync => assert [] + rest == rest;
    case Close => UnmarkedByte(0, rest);
  }

  lemma {:induction false} UnmarkedIsFed(ops: seq<GzipOp>, rest: Bytes)
    ensures Unmarked(Marked(ops) + rest) == Fed(ops) + Unmarked(rest)
  {
    if ops == [] {
      assert [] + rest == rest;
    } else {
      var before, last := ops[..|ops| - 1], ops[|ops| - 1];
      UnmarkedIsFed(before, MarkedOp(last) + rest);
      UnmarkedOp(last, rest);
      Associative(Marked(before), MarkedOp(last), rest);
      Associative(Fed(before), if last.Feed? then last.b else [], Unmarked(rest));
    }
  }

  /** There is a compressor of which the client cannot read what an unclosed stream holds, be it nothing. */
  lemma UnclosedIsUnreadable()
    ensures IsCodec(Codec(Marked, Decoded)) && Decoded(Marked([Feed([]), Sync])) != Fed([Feed([]), Sync])
  {
    var c := Codec(Marked, Decoded);
    forall ops, op ensures OnlyGrows(c, ops, op) {
      assert (ops + [op])[..|ops + [op]| - 1] == ops;
    }
    forall ops ensures DecodesFed(c, ops) {
      assert (ops + [Close])[..|ops + [Close]| - 1] == ops;
      UnmarkedIsFed(ops, [1]);
      assert Unmarked([1]) == [] && Marked(ops + [Close]) == Marked(ops) + [1];
    }
    assert [Feed([]), Sync][..1] == [Feed([])] && [Feed([])][..0] == [];
  }
}
