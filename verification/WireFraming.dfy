/** Cutting the byte stream of a connection into messages (MongoRequestHandler.handle, _read_bytes)
    and the reply that is sent back (OpMsgResponder.to_bytes). */
module WireFraming {
  import opened Options
  import opened WireFormat
  import opened OpMsg

  const HEADER_LENGTH := 16
  const OP_INSERT := 2002
  const OP_QUERY := 2004
  const OP_MSG := 2013

  predicate KnownOpcode(op: int) { op == OP_INSERT || op == OP_QUERY || op == OP_MSG }

  // ---- the socket ----

  /** A connection that the client has closed after sending; how the bytes are split is arbitrary. */
  class Socket {
    var chunks: seq<Bytes>
    ghost var stream: Bytes   // everything that is still to be received

    constructor (chunks: seq<Bytes>)
      requires forall i :: 0 <= i < |chunks| ==> chunks[i] != []
      ensures Valid() && stream == Join(chunks)
    {
      this.chunks := chunks;
      stream := Join(chunks);
    }

    ghost predicate Valid()
      reads this
    {
      stream == Join(chunks) && forall i :: 0 <= i < |chunks| ==> chunks[i] != []
    }

    /** At least one byte and at most n, or nothing once the connection is closed. */
    method Recv(n: nat) returns (chunk: Bytes)
      requires Valid() && n > 0
      modifies this
      ensures Valid() && chunk + stream == old(stream)
      ensures |chunk| <= n && (chunk == [] ==> old(stream) == [])
    {
      if chunks == [] {
        return [];
      }
      chunk := chunks[0];
      if |chunk| <= n {
        chunks := chunks[1..];
      } else {
        chunk := chunks[0][..n];
        chunks := [chunks[0][n..]] + chunks[1..];
        assert chunks[1..] == old(chunks)[1..];
        assert old(chunks)[0] == chunk + chunks[0];
        assert chunk + (chunks[0] + Join(chunks[1..])) == chunk + chunks[0] + Join(chunks[1..]);
      }
      stream := Join(chunks);
    }
  }

  /** Reads exactly `length` bytes however they are split; none if the connection closes before. */
  method ReadBytes(s: Socket, length: nat) returns (r: Option<Bytes>)
    requires s.Valid()
    modifies s
    ensures s.Valid()
    ensures var stream := old(s.stream);
            if length <= |stream| then r == Some(stream[..length]) && s.stream == stream[length..]
            else r == None && s.stream == []
  {
    var buffer: Bytes, left: nat := [], length;
    while left != 0
      invariant s.Valid() && left <= length && |buffer| == length - left
      invariant buffer + s.stream == old(s.stream)
      decreases left
    {
      var chunk := s.Recv(left);
      if chunk == [] {
        return None;
      }
      left := left - |chunk|;
      assert buffer + (chunk + s.stream) == buffer + chunk + s.stream;
      buffer := buffer + chunk;
    }
    return Some(buffer);
  }

  // ---- the request loop ----

  /** A request handed to a responder; the body is absent if the connection closed in the middle of it. */
  datatype Request = Request(id: int, responseTo: int, opcode: int, body: Option<Bytes>)

  /** How the loop ends: the client closed the connection, or an exception ended it. */
  datatype End = Closed | Aborted

  datatype Header = Header(length: int, id: int, responseTo: int, opcode: int)

  function HeaderOf(b: Bytes): Header
    requires |b| == HEADER_LENGTH
  {
    Header(IntOf(b[0..4]), IntOf(b[4..8]), IntOf(b[8..12]), IntOf(b[12..16]))
  }

  function TakeBody(stream: Bytes, n: nat): Option<Bytes> {
    if n <= |stream| then Some(stream[..n]) else None
  }

  function DropBody(stream: Bytes, n: nat): Bytes {
    if n <= |stream| then stream[n..] else []
  }

  /** One turn of the loop: a request and the bytes after it, or the end. */
  datatype Turn = Next(request: Request, rest: Bytes) | Stop(end: End)

  function FirstTurn(stream: Bytes): (t: Turn)
    ensures t.Next? ==> |t.rest| < |stream|
  {
    if |stream| < HEADER_LENGTH then Stop(Closed)
    else
      var h := HeaderOf(stream[..HEADER_LENGTH]);
      var rest := stream[HEADER_LENGTH..];
      if h.length < HEADER_LENGTH || !KnownOpcode(h.opcode) then Stop(Aborted)
      else
        var n := h.length - HEADER_LENGTH;
        Next(Request(h.id, h.responseTo, h.opcode, TakeBody(rest, n)), DropBody(rest, n))
  }

  /** The requests in a byte stream and how reading it ends. */
  function Requests(stream: Bytes): (seq<Request>, End)
    decreases |stream|
  {
    match FirstTurn(stream)
    case Stop(end) => ([], end)
    case Next(r, rest) => Preceded(r, Requests(rest))
  }

  function Preceded(r: Request, later: (seq<Request>, End)): (seq<Request>, End) {
    ([r] + later.0, later.1)
  }

  /** Reads one request. A length below that of the header or an unknown opcode raises. */
  method ReadRequest(s: Socket) returns (r: Option<Request>, end: End)
    requires s.Valid()
    modifies s
    ensures s.Valid()
    ensures r.None? ==> Requests(old(s.stream)) == ([], end)
    ensures r.Some? ==> |s.stream| < |old(s.stream)| &&
                        Requests(old(s.stream)) == Preceded(r.value, Requests(s.stream))
  {
    var header := ReadBytes(s, HEADER_LENGTH);
    if header.None? {
      return None, Closed;
    }
    var h := HeaderOf(header.value);
    if h.length < HEADER_LENGTH {
      return None, Aborted;
    }
    var body := ReadBytes(s, h.length - HEADER_LENGTH);
    if !KnownOpcode(h.opcode) {
      return None, Aborted;
    }
    return Some(Request(h.id, h.responseTo, h.opcode, body)), Closed;
  }

  /** The loop over a connection: what it hands out depends on the bytes only, not on how they arrive. */
  method Serve(s: Socket) returns (requests: seq<Request>, end: End)
    requires s.Valid()
    modifies s
    ensures (requests, end) == Requests(old(s.stream))
  {
    hide Requests;
    requests, end := [], Closed;
    ghost var all := Requests(s.stream);
    ghost var left := all;
    while true
      invariant s.Valid() && left == Requests(s.stream)
      invariant all.0 == requests + left.0 && all.1 == left.1
      decreases |s.stream|
    {
      var r, e := ReadRequest(s);
      if r.None? {
        assert requests + [] == requests;
        return requests, e;
      }
      assert requests + left.0 == requests + [r.value] + left.0[1..];
      requests := requests + [r.value];
      left := Requests(s.stream);
    }
  }

  // ---- frames ----

  predicate IsInt(v: int) { -INT_LIMIT <= v < INT_LIMIT }

  /** These are the numbers that four bytes can hold. */
  lemma FourBytesHoldIff(v: int)
    ensures IsInt(v) <==> exists b: Bytes :: |b| == 4 && IntOf(b) == v
  {
    if IsInt(v) {
      IntRoundTrip(v);
      assert |PackInt(v)| == 4;
    }
  }

  predicate Sendable(r: Request) {
    IsInt(r.id) && IsInt(r.responseTo) && KnownOpcode(r.opcode) &&
    r.body.Some? && HEADER_LENGTH + |r.body.value| < INT_LIMIT
  }

  function HeaderBytes(h: Header): (b: Bytes)
    requires IsInt(h.length) && IsInt(h.id) && IsInt(h.responseTo) && IsInt(h.opcode)
    ensures |b| == HEADER_LENGTH
  {
    PackInt(h.length) + PackInt(h.id) + PackInt(h.responseTo) + PackInt(h.opcode)
  }

  function Frame(r: Request): Bytes
    requires Sendable(r)
  {
    HeaderBytes(Header(HEADER_LENGTH + |r.body.value|, r.id, r.responseTo, r.opcode)) + r.body.value
  }

  function Frames(rs: seq<Request>): Bytes
    requires forall i :: 0 <= i < |rs| ==> Sendable(rs[i])
  {
    if rs == [] then [] else Frame(rs[0]) + Frames(rs[1..])
  }

  lemma HeaderRoundTrip(h: Header)
    requires IsInt(h.length) && IsInt(h.id) && IsInt(h.responseTo) && IsInt(h.opcode)
    ensures HeaderOf(HeaderBytes(h)) == h
  {
    IntRoundTrip(h.length);
    IntRoundTrip(h.id);
    IntRoundTrip(h.responseTo);
    IntRoundTrip(h.opcode);
    FourParts(PackInt(h.length), PackInt(h.id), PackInt(h.responseTo), PackInt(h.opcode));
  }

  lemma FourParts(a: Bytes, b: Bytes, c: Bytes, d: Bytes)
    requires |a| == |b| == |c| == |d| == 4
    ensures var s := a + b + c + d;
            s[0..4] == a && s[4..8] == b && s[8..12] == c && s[12..16] == d
  {
  }

  lemma FirstFrame(head: Bytes, body: Bytes, later: Bytes, h: Header)
    requires |head| == HEADER_LENGTH && HeaderOf(head) == h
    requires h.length == HEADER_LENGTH + |body| && KnownOpcode(h.opcode)
    ensures Requests(head + body + later) ==
            ([Request(h.id, h.responseTo, h.opcode, Some(body))] + Requests(later).0, Requests(later).1)
  {
    var stream := head + body + later;
    assert stream[..HEADER_LENGTH] == head && stream[HEADER_LENGTH..] == body + later;
    assert TakeBody(body + later, |body|) == Some(body) && DropBody(body + later, |body|) == later;
  }

  /** Any sequence of requests is recovered from its frames. */
  lemma {:induction false} FramesRoundTrip(rs: seq<Request>)
    requires forall i :: 0 <= i < |rs| ==> Sendable(rs[i])
    ensures Requests(Frames(rs)) == (rs, Closed)
  {
    if rs != [] {
      var r := rs[0];
      var h := Header(HEADER_LENGTH + |r.body.value|, r.id, r.responseTo, r.opcode);
      HeaderRoundTrip(h);
      FramesRoundTrip(rs[1..]);
      FirstFrame(HeaderBytes(h), r.body.value, Frames(rs[1..]), h);
      assert [r] + rs[1..] == rs;
    }
  }

  /** What comes after well-formed frames does not change them. */
  lemma {:induction false} FramesThenMore(rs: seq<Request>, tail: Bytes)
    requires forall i :: 0 <= i < |rs| ==> Sendable(rs[i])
    ensures Requests(Frames(rs) + tail) == (rs + Requests(tail).0, Requests(tail).1)
  {
    hide Requests;
    if rs == [] {
      assert [] + tail == tail && [] + Requests(tail).0 == Requests(tail).0;
    } else {
      FramesThenMore(rs[1..], tail);
      OneFrameThenMore(rs[0], Frames(rs[1..]) + tail);
      assert Frame(rs[0]) + Frames(rs[1..]) + tail == Frame(rs[0]) + (Frames(rs[1..]) + tail);
      assert [rs[0]] + (rs[1..] + Requests(tail).0) == rs + Requests(tail).0;
    }
  }

  lemma OneFrameThenMore(r: Request, later: Bytes)
    requires Sendable(r)
    ensures Requests(Frame(r) + later) == ([r] + Requests(later).0, Requests(later).1)
  {
    hide Requests, HeaderOf, HeaderBytes;
    var h := Header(HEADER_LENGTH + |r.body.value|, r.id, r.responseTo, r.opcode);
    HeaderRoundTrip(h);
    FirstFrame(HeaderBytes(h), r.body.value, later, h);
  }

  /** How a stream ends: fewer than 16 bytes are a closed connection; a length below 16 or an opcode other than 2002,
      2004 and 2013 aborts it; and a body that is cut short is handed on as absent, and nothing more. */
  lemma HowAStreamEnds(tail: Bytes)
    ensures |tail| < 16 ==> Requests(tail) == ([], Closed)
    ensures |tail| >= 16 ==>
      var length, id, to, op := IntOf(tail[0..4]), IntOf(tail[4..8]), IntOf(tail[8..12]), IntOf(tail[12..16]);
      && (length < 16 || op !in {2002, 2004, 2013} ==> Requests(tail) == ([], Aborted))
      && (16 <= length && length > |tail| && op in {2002, 2004, 2013} ==>
            Requests(tail) == ([Request(id, to, op, None)], Closed))
  {
    if |tail| >= 16 {
      HeaderFields(tail);
      var h := HeaderOf(tail[..HEADER_LENGTH]);
      hide HeaderOf, IntOf;
      assert KnownOpcode(h.opcode) <==> h.opcode in {2002, 2004, 2013};
      if 16 <= h.length && h.length > |tail| && KnownOpcode(h.opcode) {
        NothingMore();
        var r := Request(h.id, h.responseTo, h.opcode, None);
        assert FirstTurn(tail) == Next(r, []) && Preceded(r, ([], Closed)) == ([r] + [], Closed) && [r] + [] == [r];
      }
    }
  }

  lemma NothingMore()
    ensures Requests([]) == ([], Closed)
  {
  }

  lemma HeaderFields(s: Bytes)
    requires |s| >= HEADER_LENGTH
    ensures HeaderOf(s[..HEADER_LENGTH]) == Header(IntOf(s[0..4]), IntOf(s[4..8]), IntOf(s[8..12]), IntOf(s[12..16]))
  {
    var h := s[..HEADER_LENGTH];
    assert h[0..4] == s[0..4] && h[4..8] == s[4..8] && h[8..12] == s[8..12] && h[12..16] == s[12..16];
  }

  /** A whole request, byte by byte: length 21, id 1, in response to 2, opcode 2013, and a body of five bytes. */
  lemma OneRequest(a: Byte, b: Byte, c: Byte, d: Byte, e: Byte)
    ensures Requests([21, 0, 0, 0, 1, 0, 0, 0, 2, 0, 0, 0, 221, 7, 0, 0, a, b, c, d, e]) ==
            ([Request(1, 2, 2013, Some([a, b, c, d, e]))], Closed)
  {
    var head: Bytes, body: Bytes := [21, 0, 0, 0, 1, 0, 0, 0, 2, 0, 0, 0, 221, 7, 0, 0], [a, b, c, d, e];
    OneHeader(head);
    NothingMore();
    hide HeaderOf, IntOf, Requests;
    FirstFrame(head, body, [], Header(21, 1, 2, 2013));
    assert head + body + [] == [21, 0, 0, 0, 1, 0, 0, 0, 2, 0, 0, 0, 221, 7, 0, 0, a, b, c, d, e];
    assert [Request(1, 2, 2013, Some(body))] + [] == [Request(1, 2, 2013, Some(body))];
  }

  lemma OneHeader(head: Bytes)
    requires head == [21, 0, 0, 0, 1, 0, 0, 0, 2, 0, 0, 0, 221, 7, 0, 0]
    ensures HeaderOf(head) == Header(21, 1, 2, 2013)
  {
    var a: Bytes, b: Bytes, c: Bytes, d: Bytes := [21, 0, 0, 0], [1, 0, 0, 0], [2, 0, 0, 0], [221, 7, 0, 0];
    FourParts(a, b, c, d);
    assert head == a + b + c + d;
  }

  /** A stream of OP_MSG requests, with or without checksums, is recovered down to its sections, and the
      i-th message comes out as it was written exactly when its section names are ASCII. */
  lemma MessagesRoundTrip(rs: seq<Request>, ms: seq<Message>, checksums: seq<Bytes>, i: nat)
    requires |rs| == |ms| == |checksums| && i < |rs|
    requires forall k :: 0 <= k < |rs| ==>
      Sendable(rs[k]) && 0 <= ms[k].flags < UINT_LIMIT && AllWritable(ms[k].sections) && |checksums[k]| == 4 &&
      rs[k].body == Some(MessageBytes(ms[k], checksums[k]))
    ensures var got := Requests(Frames(rs));
            && got.1 == Closed && |got.0| == |rs| && got.0[i] == rs[i]
            && (ParseMessage(got.0[i].body.value) == Ok(ms[i]) <==>
                forall k :: 0 <= k < |ms[i].sections| ==> NameIsAscii(ms[i].sections[k]))
  {
    FramesRoundTrip(rs);
    RoundTripIffAscii(ms[i], checksums[i]);
  }

  // ---- the reply ----

  const ERROR_FLAGS := 2

  /** The bytes of a reply document. */
  function ReplyBytes(doc: Bytes, requestId: int, isError: bool): Bytes
    requires IsDoc(doc) && IsInt(requestId) && HEADER_LENGTH + 5 + |doc| < INT_LIMIT
  {
    var data := PackUint(if isError then ERROR_FLAGS else 0) + ([0] + doc);
    HeaderBytes(Header(HEADER_LENGTH + |data|, 0, requestId, OP_MSG)) + data
  }

  /** A reply is one well-formed frame that answers the request, and a reader of its body finds the
      document and whether it is an error. */
  lemma ReplyIsReadBack(doc: Bytes, requestId: int, isError: bool)
    requires IsDoc(doc) && IsInt(requestId) && HEADER_LENGTH + 5 + |doc| < INT_LIMIT
    ensures var r := Requests(ReplyBytes(doc, requestId, isError));
            && r.1 == Closed && |r.0| == 1
            && r.0[0].id == 0 && r.0[0].responseTo == requestId && r.0[0].opcode == OP_MSG
            && r.0[0].body.Some?
            && ParseMessage(r.0[0].body.value) == Ok(Message(if isError then ERROR_FLAGS else 0, [Body(doc)]))
  {
    var m := Message(if isError then ERROR_FLAGS else 0, [Body(doc)]);
    var data := ReplyBody(doc, m.flags);
    var r := Request(0, requestId, OP_MSG, Some(data));
    hide PackUint, SectionsBytes, MessageBytes, ParseMessage, UintOf, IntOf, Requests, Frame, Frames;
    FramesRoundTrip([r]);
    OneFrame(r);
  }

  lemma ReplyBody(doc: Bytes, flags: int) returns (data: Bytes)
    requires IsDoc(doc) && (flags == 0 || flags == ERROR_FLAGS)
    ensures data == PackUint(flags) + ([0] + doc) && |data| == 5 + |doc|
    ensures ParseMessage(data) == Ok(Message(flags, [Body(doc)]))
  {
    var m := Message(flags, [Body(doc)]);
    assert SectionsBytes([Body(doc)]) == [0] + doc by {
      assert [Body(doc)][1..] == [];
      assert [0] + doc + [] == [0] + doc;
    }
    data := PackUint(flags) + ([0] + doc);
    assert MessageBytes(m, [0, 0, 0, 0]) == data + [] == data;
    RoundTripIffAscii(m, [0, 0, 0, 0]);
  }

  lemma OneFrame(r: Request)
    requires Sendable(r)
    ensures Frames([r]) == Frame(r)
  {
    assert [r][1..] == [];
    assert Frames([r]) == Frame(r) + [] == Frame(r);
  }

  /** A reply, byte by byte: 21 bytes and the document, id 0, in response to the request, opcode 2013, flags 2 for an
      error and 0 otherwise, kind 0. */
  lemma ReplyBytesAre(doc: Bytes)
    requires IsDoc(doc) && |doc| == 5
    ensures ReplyBytes(doc, 7, true) == [26, 0, 0, 0, 0, 0, 0, 0, 7, 0, 0, 0, 221, 7, 0, 0, 2, 0, 0, 0, 0] + doc
    ensures ReplyBytes(doc, 7, false) == [26, 0, 0, 0, 0, 0, 0, 0, 7, 0, 0, 0, 221, 7, 0, 0, 0, 0, 0, 0, 0] + doc
  {
    assert PackUint(2) == [2, 0, 0, 0] && PackUint(0) == [0, 0, 0, 0];
    assert HeaderBytes(Header(26, 0, 7, 2013)) == [26, 0, 0, 0, 0, 0, 0, 0, 7, 0, 0, 0, 221, 7, 0, 0];
  }
}
