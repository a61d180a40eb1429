/** The writer that keeps the start of error responses for the log: pkg/http/middleware/response.go. */
module ResponseCapture {
  import opened Wrappers

  type Bytes = seq<bv8>

  const MAX_RESPONSE_BODY_IN_LOGS := 4096

  /** "..." */
  const ELLIPSIS: Bytes := [0x2e, 0x2e, 0x2e]

  datatype Call = Header(statusCode: int) | Body(data: Bytes)

  predicate IsErrorHeader(c: Call) {
    c.Header? && (c.statusCode >= 500 || c.statusCode == 400)
  }

  // ---- what a history of calls amounts to ----

  predicate HasErrorHeader(h: seq<Call>) {
    exists i :: 0 <= i < |h| && IsErrorHeader(h[i])
  }

  /** All that was written after the first error header. */
  function ErrorBody(h: seq<Call>): Bytes {
    if h == [] then []
    else
      var before, last := h[..|h| - 1], h[|h| - 1];
      if last.Body? && HasErrorHeader(before) then ErrorBody(before) + last.data else ErrorBody(before)
  }

  /** The data of all writes among some calls. */
  function Written(h: seq<Call>): Bytes {
    if h == [] then []
    else Written(h[..|h| - 1]) + if h[|h| - 1].Body? then h[|h| - 1].data else []
  }

  /** Before the first header of 400 or at least 500 there is no error body, and from then on it is all that is written,
      whatever headers follow. */
  lemma {:induction false} ErrorBodyIsWrittenAfter(before: seq<Call>, code: int, after: seq<Call>)
    requires forall c :: c in before && c.Header? ==> !(c.statusCode >= 500 || c.statusCode == 400)
    requires code >= 500 || code == 400
    ensures ErrorBody(before) == [] && !HasErrorHeader(before)
    ensures ErrorBody(before + [Header(code)] + after) == Written(after)
    ensures HasErrorHeader(before + [Header(code)] + after)
  {
    var h := before + [Header(code)];
    if after == [] {
      NoErrorBody(before);
      assert h + after == h && h[..|h| - 1] == before && h[|before|] == Header(code);
    } else {
      var init, last := after[..|after| - 1], after[|after| - 1];
      ErrorBodyIsWrittenAfter(before, code, init);
      assert h + after == h + init + [last] && (h + after)[..|h + after| - 1] == h + init;
      assert (h + after)[|before|] == Header(code);
    }
  }

  lemma {:induction false} NoErrorBody(h: seq<Call>)
    requires forall c :: c in h && c.Header? ==> !(c.statusCode >= 500 || c.statusCode == 400)
    ensures ErrorBody(h) == [] && !HasErrorHeader(h)
  {
    if h != [] {
      NoErrorBody(h[..|h| - 1]);
    }
  }

  predicate Overflowed(h: seq<Call>) {
    |ErrorBody(h)| > MAX_RESPONSE_BODY_IN_LOGS
  }

  /** A write that takes the error body past the limit, or adds to it past the limit. */
  predicate PassesLimit(before: seq<Call>, data: Bytes) {
    data != [] && |ErrorBody(before)| + |data| > MAX_RESPONSE_BODY_IN_LOGS
  }

  /** The next write is captured: there was an error header, and since then no write past the limit. */
  predicate Logging(h: seq<Call>) {
    if h == [] then false
    else
      var before, last := h[..|h| - 1], h[|h| - 1];
      if last.Header? then IsErrorHeader(last) || Logging(before)
      else Logging(before) && !PassesLimit(before, last.data)
  }

  /** How often the end of the captured text was marked. */
  function Marks(h: seq<Call>): nat {
    if h == [] then 0
    else
      var before, last := h[..|h| - 1], h[|h| - 1];
      Marks(before) + (if last.Body? && Logging(before) && PassesLimit(before, last.data) then 1 else 0)
  }

  function Ellipses(n: nat): Bytes {
    if n == 0 then [] else Ellipses(n - 1) + ELLIPSIS
  }

  function Prefix(s: Bytes, n: nat): Bytes {
    if |s| <= n then s else s[..n]
  }

  /** The buffer: the first bytes of the error body, then one ellipsis for every time the end was marked. */
  function Captured(h: seq<Call>): Bytes {
    Prefix(ErrorBody(h), MAX_RESPONSE_BODY_IN_LOGS) + Ellipses(Marks(h))
  }

  function StatusAfter(h: seq<Call>): int {
    if h == [] then 200
    else if h[|h| - 1].Header? then h[|h| - 1].statusCode
    else StatusAfter(h[..|h| - 1])
  }

  // ---- the writer ----

  class LoggingWriter {
    /** The calls passed on to the wrapped writer. */
    var rw: seq<Call>
    var buffer: Bytes
    var logBody: bool
    var bodyBytesLeft: int
    var statusCode: int
    var writeError: Option<string>

    ghost predicate Valid()
      reads this
    {
      && statusCode == StatusAfter(rw)
      && logBody == Logging(rw)
      && bodyBytesLeft == BytesLeft(rw)
      && buffer == Captured(rw)
    }

    constructor ()
      ensures Valid() && rw == [] && writeError.None? && statusCode == 200
    {
      rw, buffer, logBody, bodyBytesLeft, statusCode, writeError := [], [], false, MAX_RESPONSE_BODY_IN_LOGS, 200, None;
    }

    method WriteHeader(statusCode: int)
      requires Valid()
      modifies this
      ensures Valid() && rw == old(rw) + [Header(statusCode)] && writeError == old(writeError)
      ensures this.statusCode == statusCode
    {
      this.statusCode := statusCode;
      if statusCode >= 500 || statusCode == 400 {
        logBody := true;
      }
      rw := rw + [Header(statusCode)];
      assert rw[..|rw| - 1] == old(rw);
    }

    /** n and err are what the wrapped writer answers. */
    method Write(data: Bytes, n: int, err: Option<string>) returns (n': int, err': Option<string>)
      requires Valid()
      modifies this
      ensures Valid() && n' == n && err' == err
      ensures rw == old(rw) + (if old(statusCode) == 0 then [Header(200)] else []) + [Body(data)]
      ensures writeError == if err.Some? then err else old(writeError)
      ensures statusCode == if old(statusCode) == 0 then 200 else old(statusCode)
    {
      hide Logging, Captured, BytesLeft, StatusAfter;
      if statusCode == 0 {
        WriteHeader(200);
      }
      ghost var before := rw;
      rw := rw + [Body(data)];
      assert rw[..|rw| - 1] == before;
      WriteStep(before, data);
      if logBody {
        CaptureResponseBody(data);
      }
      if err.Some? {
        writeError := err;
      }
      return n, err;
    }

    method CaptureResponseBody(data: Bytes)
      requires 0 <= bodyBytesLeft
      modifies this`buffer, this`bodyBytesLeft, this`logBody
      ensures |data| > old(bodyBytesLeft) ==>
        buffer == old(buffer) + data[..old(bodyBytesLeft)] + ELLIPSIS && bodyBytesLeft == 0 && !logBody
      ensures |data| <= old(bodyBytesLeft) ==>
        buffer == old(buffer) + data && bodyBytesLeft == old(bodyBytesLeft) - |data| && logBody == old(logBody)
    {
      if |data| > bodyBytesLeft {
        buffer := buffer + data[..bodyBytesLeft];
        buffer := buffer + ELLIPSIS;
        bodyBytesLeft := 0;
        logBody := false;
      } else {
        buffer := buffer + data;
        bodyBytesLeft := bodyBytesLeft - |data|;
      }
    }
  }

  /** Logging is off only before the first error header and after the limit was passed; until then nothing is marked. */
  lemma {:induction false} LoggingUntilFull(h: seq<Call>)
    ensures Logging(h) ==> HasErrorHeader(h)
    ensures HasErrorHeader(h) && !Overflowed(h) ==> Logging(h)
    ensures !HasErrorHeader(h) ==> ErrorBody(h) == []
    ensures Marks(h) == 0 <==> !Overflowed(h)
  {
    if h != [] {
      var before := h[..|h| - 1];
      LoggingUntilFull(before);
      assert h == before + [h[|h| - 1]];
      assert HasErrorHeader(h) <==> HasErrorHeader(before) || IsErrorHeader(h[|h| - 1]) by {
        assert forall i :: 0 <= i < |before| ==> before[i] == h[i];
      }
    }
  }

  function BytesLeft(h: seq<Call>): int {
    MAX_RESPONSE_BODY_IN_LOGS - Min(|ErrorBody(h)|, MAX_RESPONSE_BODY_IN_LOGS)
  }

  lemma WriteStep(before: seq<Call>, data: Bytes)
    ensures var h, left := before + [Body(data)], BytesLeft(before);
      StatusAfter(h) == StatusAfter(before) && CapturesStep(before, h, data, left)
  {
    assert (before + [Body(data)])[..|before|] == before;
    LoggingUntilFull(before);
  }

  predicate CapturesStep(before: seq<Call>, h: seq<Call>, data: Bytes, left: int)
  {
    if !Logging(before) then
      !Logging(h) && Captured(h) == Captured(before) && BytesLeft(h) == BytesLeft(before)
    else if |data| > left then
      left >= 0 && !Logging(h) && Captured(h) == Captured(before) + data[..left] + ELLIPSIS && BytesLeft(h) == 0
    else
      Logging(h) && Captured(h) == Captured(before) + data && BytesLeft(h) == left - |data|
  }

  // ---- when the captured text is the error body, cut once ----

  function Truncated(body: Bytes): Bytes {
    if |body| <= MAX_RESPONSE_BODY_IN_LOGS then body else body[..MAX_RESPONSE_BODY_IN_LOGS] + ELLIPSIS
  }

  /** An error header after the body went over the limit. */
  predicate ReopensAt(h: seq<Call>, i: int) {
    0 <= i < |h| && IsErrorHeader(h[i]) && Overflowed(h[..i])
  }

  predicate WritesAt(h: seq<Call>, j: int) {
    0 <= j < |h| && h[j].Body? && h[j].data != []
  }

  predicate Reopened(h: seq<Call>) {
    exists i :: 0 <= i < |h| && ReopensAt(h, i)
  }

  /** ... and something written after that. */
  predicate WrittenAgain(h: seq<Call>) {
    exists i, j :: 0 <= i < j < |h| && ReopensAt(h, i) && WritesAt(h, j)
  }

  lemma SnocReopened(before: seq<Call>, c: Call)
    ensures var h := before + [c];
      && (Reopened(h) <==> Reopened(before) || (IsErrorHeader(c) && Overflowed(before)))
      && (WrittenAgain(h) <==> WrittenAgain(before) || (Reopened(before) && c.Body? && c.data != []))
  {
    var h := before + [c];
    assert h[..|before|] == before;
    forall i | 0 <= i < |before| ensures h[..i] == before[..i] && h[i] == before[i] {
    }
    assert forall i :: 0 <= i < |before| ==> (ReopensAt(h, i) <==> ReopensAt(before, i));
    assert forall j :: 0 <= j < |before| ==> (WritesAt(h, j) <==> WritesAt(before, j));
    assert ReopensAt(h, |before|) <==> IsErrorHeader(c) && Overflowed(before);
    assert WritesAt(h, |before|) <==> c.Body? && c.data != [];
    if WrittenAgain(h) {
      var i, j :| 0 <= i < j < |h| && ReopensAt(h, i) && WritesAt(h, j);
      assert ReopensAt(before, i);
    }
  }

  /** The end is marked a second time exactly after a reopening and a write. */
  lemma {:induction false} MarkedTwiceIff(h: seq<Call>)
    ensures Marks(h) >= 2 <==> WrittenAgain(h)
    ensures Marks(h) == 1 ==> (Logging(h) <==> Reopened(h))
    ensures Marks(h) == 0 ==> !Reopened(h)
  {
    LoggingUntilFull(h);
    if h != [] {
      var before, c := h[..|h| - 1], h[|h| - 1];
      assert h == before + [c];
      MarkedTwiceIff(before);
      LoggingUntilFull(before);
      SnocReopened(before, c);
    }
  }

  lemma {:induction false} EllipsesLength(n: nat)
    ensures |Ellipses(n)| == 3 * n
  {
    if n > 0 {
      EllipsesLength(n - 1);
    }
  }

  /** The captured text is the error body, whole up to the limit and else cut there and marked once, exactly when no
      error header and non-empty write come after the body went over the limit. */
  lemma CapturedIsTruncatedIff(h: seq<Call>)
    ensures Captured(h) == Truncated(ErrorBody(h)) <==> !WrittenAgain(h)
  {
    MarkedTwiceIff(h);
    LoggingUntilFull(h);
    EllipsesLength(Marks(h));
    assert Ellipses(1) == Ellipses(0) + ELLIPSIS == ELLIPSIS;
  }

  /** A body over the limit, then a second error header and more body: a second ellipsis. */
  lemma SecondHeaderMarksAgain(body: Bytes, more: Bytes)
    requires |body| > MAX_RESPONSE_BODY_IN_LOGS && more != []
    ensures var h := [] + [Header(500)] + [Body(body)] + [Header(500)] + [Body(more)];
      && Captured(h) == body[..MAX_RESPONSE_BODY_IN_LOGS] + ELLIPSIS + ELLIPSIS
      && Captured(h) != Truncated(ErrorBody(h))
  {
    var h1: seq<Call> := [] + [Header(500)];
    var h2 := h1 + [Body(body)];
    var h3 := h2 + [Header(500)];
    var h := h3 + [Body(more)];
    assert h1[..0] == [] && h2[..1] == h1 && h3[..2] == h2 && h[..3] == h3;
    assert IsErrorHeader(h1[0]) && IsErrorHeader(h2[0]) && IsErrorHeader(h3[0]);
    assert HasErrorHeader(h1) && HasErrorHeader(h2) && HasErrorHeader(h3);
    assert ErrorBody(h1) == [];
    assert ErrorBody(h2) == [] + body == body;
    assert ErrorBody(h3) == body;
    assert ErrorBody(h) == body + more;
    assert Marks(h1) == 0 && Marks(h2) == 1 && Marks(h3) == 1 && Marks(h) == 2;
    assert Ellipses(2) == Ellipses(1) + ELLIPSIS && Ellipses(1) == Ellipses(0) + ELLIPSIS == ELLIPSIS;
    assert (body + more)[..MAX_RESPONSE_BODY_IN_LOGS] == body[..MAX_RESPONSE_BODY_IN_LOGS];
  }

  // ---- one header before the body ----

  function Bodies(chunks: seq<Bytes>): seq<Call> {
    seq(|chunks|, i requires 0 <= i < |chunks| => Body(chunks[i]))
  }

  function Concat(chunks: seq<Bytes>): Bytes {
    if chunks == [] then [] else Concat(chunks[..|chunks| - 1]) + chunks[|chunks| - 1]
  }

  lemma {:induction false} ErrorBodyOfResponse(code: int, chunks: seq<Bytes>)
    ensures var h := [Header(code)] + Bodies(chunks);
      && ErrorBody(h) == (if IsErrorHeader(Header(code)) then Concat(chunks) else [])
      && (HasErrorHeader(h) <==> IsErrorHeader(Header(code)))
      && !Reopened(h)
  {
    var h := [Header(code)] + Bodies(chunks);
    assert h[0] == Header(code);
    if chunks == [] {
      assert h == [] + [Header(code)];
      SnocReopened([], Header(code));
    } else {
      var init := chunks[..|chunks| - 1];
      ErrorBodyOfResponse(code, init);
      var before := [Header(code)] + Bodies(init);
      assert h == before + [Body(chunks[|chunks| - 1])] && h[..|h| - 1] == before;
      SnocReopened(before, Body(chunks[|chunks| - 1]));
    }
  }

  /** With one header before the body, the captured text depends on the body alone, not on how it was split into
      writes: nothing unless the header is an error, and else the body, cut once if it is over the limit. */
  lemma CapturedOfResponse(code: int, chunks: seq<Bytes>)
    ensures var body, dots: Bytes := Concat(chunks), [0x2e, 0x2e, 0x2e];
      Captured([Header(code)] + Bodies(chunks)) ==
        if !(code >= 500 || code == 400) then []
        else if |body| <= 4096 then body
        else body[..4096] + dots
  {
    var h := [Header(code)] + Bodies(chunks);
    ErrorBodyOfResponse(code, chunks);
    CapturedIsTruncatedIff(h);
    assert WrittenAgain(h) ==> Reopened(h);
  }
}
