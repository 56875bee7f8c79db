/** Parsing and writing of OP_MSG bodies (OpMsgResponder.handle and to_bytes), after the message
    format of the MongoDB Wire Protocol: flags, sections of kind 0 and 1, optional checksum. */
module OpMsg {
  import opened Options
  import opened WireFormat

  datatype Section = Body(doc: Bytes) | Sequence(name: Bytes, docs: seq<Bytes>)

  datatype Message = Message(flags: int, sections: seq<Section>)

  predicate ChecksumPresent(flags: int) { flags % 2 == 1 }

  // ---- writing ----

  function SectionBytes(s: Section): (r: Bytes)
    requires Writable(s)
    ensures r != [] && r[0] == (if s.Body? then 0 else 1)
  {
    match s
    case Body(doc) => [0] + doc
    case Sequence(name, docs) => [1] + PackInt(SequenceSize(name, docs)) + (name + [0]) + Join(docs)
  }

  function SequenceSize(name: Bytes, docs: seq<Bytes>): nat {
    4 + |name| + 1 + |Join(docs)|
  }

  /** What a client may send: whole documents, valid UTF-8 names without a zero byte, 32-bit sizes. */
  predicate Writable(s: Section) {
    match s
    case Body(doc) => IsDoc(doc)
    case Sequence(name, docs) =>
      AllDocs(docs) && CharCount(name).Some? && 0 !in name && SequenceSize(name, docs) < INT_LIMIT
  }

  predicate AllWritable(ss: seq<Section>) {
    forall i :: 0 <= i < |ss| ==> Writable(ss[i])
  }

  function SectionsBytes(ss: seq<Section>): Bytes
    requires AllWritable(ss)
  {
    if ss == [] then [] else SectionBytes(ss[0]) + SectionsBytes(ss[1..])
  }

  function MessageBytes(m: Message, checksum: Bytes): Bytes
    requires 0 <= m.flags < UINT_LIMIT && AllWritable(m.sections)
  {
    PackUint(m.flags) + SectionsBytes(m.sections) + if ChecksumPresent(m.flags) then checksum else []
  }

  // ---- reading ----

  /** The section at `pos`, none for an unknown kind, and the position after it. A declared size that
      would not take the reader forward is an error here. */
  function ParseSection(buffer: Bytes, pos: nat): (r: Result<(Option<Section>, nat)>)
    requires pos < |buffer|
    ensures r.Ok? ==> r.value.1 > pos
  {
    if buffer[pos] == 0 then ParseBody(buffer, pos + 1)
    else if buffer[pos] == 1 then ParseSequence(buffer, pos + 1)
    else Ok((None, pos + 1))
  }

  function ParseBody(buffer: Bytes, pos: nat): (r: Result<(Option<Section>, nat)>)
    ensures r.Ok? ==> r.value.1 >= pos
  {
    match UnpackInt(buffer, pos)
    case Err(e) => Err(e)
    case Ok((size, _)) =>
      if size < 0 then Err("no progress")
      else
        match DecodeAll(Slice(buffer, pos, size))
        case Err(e) => Err(e)
        case Ok(docs) => if docs == [] then Err("no document") else Ok((Some(Body(docs[0])), pos + size))
  }

  datatype SequenceHeader = SequenceHeader(name: Bytes, start: nat, docsLength: nat)

  /** Size and name of a kind 1 section. What is subtracted from the size is the length of the decoded
      name, not that of its bytes. */
  function ParseHeader(buffer: Bytes, pos: nat): (r: Result<SequenceHeader>)
    ensures r.Ok? ==> r.value.start >= pos
  {
    match UnpackInt(buffer, pos)
    case Err(e) => Err(e)
    case Ok((size, start)) =>
      match FindZero(buffer, start)
      case None => Err("unterminated name")
      case Some(end) => HeaderOf(buffer[start..end], size, end)
  }

  function HeaderOf(name: Bytes, size: int, end: nat): (r: Result<SequenceHeader>)
    ensures r.Ok? ==> r.value.start == end + 1
  {
    match CharCount(name)
    case None => Err("invalid utf-8")
    case Some(chars) =>
      var docsLength := size - 4 - chars - 1;
      if docsLength < 0 then Err("no progress") else Ok(SequenceHeader(name, end + 1, docsLength))
  }

  function ParseSequence(buffer: Bytes, pos: nat): (r: Result<(Option<Section>, nat)>)
    ensures r.Ok? ==> r.value.1 >= pos
  {
    match ParseHeader(buffer, pos)
    case Err(e) => Err(e)
    case Ok(h) => SequenceOf(h.name, DecodeAll(Slice(buffer, h.start, h.docsLength)), h.start + h.docsLength)
  }

  function SequenceOf(name: Bytes, r: Result<seq<Bytes>>, end: nat): Result<(Option<Section>, nat)> {
    match r
    case Err(e) => Err(e)
    case Ok(docs) => Ok((Some(Sequence(name, docs)), end))
  }

  function Optional<T>(o: Option<T>): seq<T> {
    match o case None => [] case Some(x) => [x]
  }

  /** The result of reading on, with the sections `ss` read before. */
  function Before(ss: seq<Section>, r: Result<(seq<Section>, nat)>): Result<(seq<Section>, nat)> {
    match r
    case Err(e) => Err(e)
    case Ok((rest, end)) => Ok((ss + rest, end))
  }

  function ParseSections(buffer: Bytes, pos: nat, limit: int): Result<(seq<Section>, nat)>
    requires limit <= |buffer|
    decreases limit - pos
  {
    if pos >= limit then Ok(([], pos))
    else
      match ParseSection(buffer, pos)
      case Err(e) => Err(e)
      case Ok((s, next)) => Before(Optional(s), ParseSections(buffer, next, limit))
  }

  function ParseMessage(buffer: Bytes): Result<Message> {
    match UnpackUint(buffer, 0)
    case Err(e) => Err(e)
    case Ok((flags, pos)) =>
      var trailer := if ChecksumPresent(flags) then 4 else 0;
      match ParseSections(buffer, pos, |buffer| - trailer)
      case Err(e) => Err(e)
      case Ok((ss, end)) =>
        if |buffer| - end != trailer then Err("bytes left") else Ok(Message(flags, ss))
  }

  lemma BeforeTwice(a: seq<Section>, b: seq<Section>, r: Result<(seq<Section>, nat)>)
    ensures Before(a, Before(b, r)) == Before(a + b, r)
  {
    if r.Ok? {
      assert a + (b + r.value.0) == a + b + r.value.0;
    }
  }

  lemma BeforeNothing(r: Result<(seq<Section>, nat)>)
    ensures Before([], r) == r
  {
    if r.Ok? {
      assert [] + r.value.0 == r.value.0;
    }
  }

  /** The reader itself, with its position and its loop. */
  method Handle(buffer: Bytes) returns (r: Result<Message>)
    ensures r == ParseMessage(buffer)
  {
    var header := UnpackUint(buffer, 0);
    if header.Err? {
      return Err(header.reason);
    }
    var flags, pos := header.value.0, header.value.1;
    var limit := |buffer|;
    if ChecksumPresent(flags) {
      limit := |buffer| - 4;
    }
    var sections: seq<Section> := [];
    BeforeNothing(ParseSections(buffer, pos, limit));
    while pos < limit
      invariant ParseSections(buffer, 4, limit) == Before(sections, ParseSections(buffer, pos, limit))
      decreases limit - pos
    {
      var step := ParseSection(buffer, pos);
      if step.Err? {
        return Err(step.reason);
      }
      BeforeTwice(sections, Optional(step.value.0), ParseSections(buffer, step.value.1, limit));
      sections := sections + Optional(step.value.0);
      pos := step.value.1;
    }
    assert sections + [] == sections;
    var remaining := |buffer| - pos;
    if remaining != |buffer| - limit {
      return Err("bytes left");
    }
    return Ok(Message(flags, sections));
  }

  // ---- reading what was written ----

  /** `part` stands at `pos`, and `rest` is what follows it. */
  predicate At(buffer: Bytes, pos: nat, part: Bytes, rest: Bytes) {
    && pos + |part| + |rest| == |buffer|
    && buffer[pos..pos + |part|] == part
    && buffer[pos + |part|..] == rest
  }

  lemma AtTwo(buffer: Bytes, pos: nat, a: Bytes, b: Bytes, rest: Bytes)
    requires At(buffer, pos, a + b, rest)
    ensures At(buffer, pos, a, b + rest) && At(buffer, pos + |a|, b, rest)
  {
    var whole := buffer[pos..pos + |a + b|];
    assert buffer[pos..pos + |a|] == whole[..|a|];
    assert buffer[pos + |a|..pos + |a| + |b|] == whole[|a|..];
  }

  lemma AtBounds(buffer: Bytes, pos: nat, part: Bytes, rest: Bytes)
    requires At(buffer, pos, part, rest)
    ensures pos + |part| + |rest| == |buffer|
  {
  }

  lemma FirstByte(buffer: Bytes, pos: nat, s: Section, rest: Bytes)
    requires Writable(s) && At(buffer, pos, SectionBytes(s), rest)
    ensures |SectionBytes(s)| > 0 && pos < |buffer| && buffer[pos] == if s.Body? then 0 else 1
  {
    assert buffer[pos] == buffer[pos..pos + |SectionBytes(s)|][0] == SectionBytes(s)[0];
  }

  lemma AtPrefix(buffer: Bytes, pos: nat, part: Bytes, rest: Bytes, n: nat)
    requires At(buffer, pos, part, rest) && n <= |part|
    ensures buffer[pos..pos + n] == part[..n]
  {
  }

  lemma {:induction false} FindZeroAfterName(buffer: Bytes, pos: nat, name: Bytes, rest: Bytes)
    requires At(buffer, pos, name + [0], rest) && 0 !in name
    ensures FindZero(buffer, pos) == Some(pos + |name|)
    decreases |name|
  {
    assert buffer[pos] == buffer[pos..pos + |name| + 1][0];
    if name != [] {
      assert name[0] in name;
      assert name + [0] == [name[0]] + (name[1..] + [0]);
      AtTwo(buffer, pos, [name[0]], name[1..] + [0], rest);
      FindZeroAfterName(buffer, pos + 1, name[1..], rest);
    }
  }

  /** A body section is read back. */
  lemma ReadBody(buffer: Bytes, pos: nat, doc: Bytes, rest: Bytes)
    requires IsDoc(doc) && At(buffer, pos, doc, rest)
    ensures ParseBody(buffer, pos) == Ok((Some(Body(doc)), pos + |doc|))
  {
    AtPrefix(buffer, pos, doc, rest, 4);
    assert Slice(buffer, pos, |doc|) == doc;
    DecodeFirst(doc, []);
    assert doc + [] == doc;
  }

  lemma HeaderOfName(buffer: Bytes, pos: nat, name: Bytes, size: int)
    requires UnpackInt(buffer, pos) == Ok((size, pos + 4))
    requires FindZero(buffer, pos + 4) == Some(pos + 4 + |name|)
    requires buffer[pos + 4..pos + 4 + |name|] == name
    ensures ParseHeader(buffer, pos) == HeaderOf(name, size, pos + 4 + |name|)
  {
  }

  lemma UnpackedSize(buffer: Bytes, pos: nat, size: Bytes)
    requires |size| == 4 && pos + 4 <= |buffer| && buffer[pos..pos + 4] == size
    ensures UnpackInt(buffer, pos) == Ok((IntOf(size), pos + 4))
  {
  }

  /** The documents that the reader takes for a sequence start after its name, and are as many bytes too
      many as the name has fewer characters than bytes. */
  lemma ReadHeader(buffer: Bytes, pos: nat, size: Bytes, name: Bytes, docsLength: nat, chars: nat, rest: Bytes)
    requires |size| == 4 && IntOf(size) == 4 + |name| + 1 + docsLength
    requires 0 !in name && CharCount(name) == Some(chars) && chars <= |name|
    requires pos + 4 <= |buffer| && buffer[pos..pos + 4] == size
    requires At(buffer, pos + 4, name + [0], rest)
    ensures ParseHeader(buffer, pos) ==
            Ok(SequenceHeader(name, pos + 4 + |name| + 1, docsLength + |name| - chars))
  {
    hide PackInt, PackUint, UintOf, IntOf, CharCount, FindZero, UnpackInt, ParseHeader;
    UnpackedSize(buffer, pos, size);
    FindZeroAfterName(buffer, pos + 4, name, rest);
    AtPrefix(buffer, pos + 4, name + [0], rest, |name|);
    assert (name + [0])[..|name|] == name;
    HeaderOfName(buffer, pos, name, IntOf(size));
  }

  predicate NameIsAscii(s: Section) {
    s.Sequence? ==> Ascii(s.name)
  }

  lemma SequenceLayout(buffer: Bytes, pos: nat, size: Bytes, name: Bytes, body: Bytes, rest: Bytes)
    requires At(buffer, pos, [1] + size + name + body, rest)
    ensures pos < |buffer| && buffer[pos] == 1
    ensures pos + 1 + |size| <= |buffer| && buffer[pos + 1..pos + 1 + |size|] == size
    ensures At(buffer, pos + 1 + |size|, name, body + rest)
    ensures At(buffer, pos + 1 + |size| + |name|, body, rest)
  {
    AtTwo(buffer, pos, [1] + size + name, body, rest);
    AtTwo(buffer, pos, [1] + size, name, body + rest);
    AtTwo(buffer, pos, [1], size, name + (body + rest));
    assert buffer[pos] == buffer[pos..pos + 1][0];
  }

  lemma ReadLaidOutHeader(buffer: Bytes, pos: nat, size: Bytes, name: Bytes, body: Bytes, rest: Bytes)
    returns (start: nat, n: nat)
    requires |size| == 4 && IntOf(size) == 4 + |name| + 1 + |body|
    requires 0 !in name && CharCount(name).Some?
    requires At(buffer, pos, [1] + size + (name + [0]) + body, rest)
    ensures pos < |buffer| && buffer[pos] == 1
    ensures n >= |body| && (n == |body| <==> Ascii(name))
    ensures ParseHeader(buffer, pos + 1) == Ok(SequenceHeader(name, start, n))
    ensures start == pos + 1 + 4 + |name| + 1 && At(buffer, start, body, rest)
  {
    hide PackInt, PackUint, UintOf, IntOf, CharCount, Join, DecodeAll, FindZero, ParseBody, ParseHeader;
    CharCountIsByteCountIff(name);
    var chars := CharCount(name).value;
    SequenceLayout(buffer, pos, size, name + [0], body, rest);
    ReadHeader(buffer, pos + 1, size, name, |body|, chars, body + rest);
    start, n := pos + 1 + 4 + |name| + 1, |body| + |name| - chars;
  }

  /** What the reader finds of a written sequence: it takes too many bytes for its documents exactly when
      the name is not ASCII. */
  lemma ReadWrittenHeader(buffer: Bytes, pos: nat, name: Bytes, docs: seq<Bytes>, rest: Bytes)
    returns (start: nat, n: nat)
    requires Writable(Sequence(name, docs)) && At(buffer, pos, SectionBytes(Sequence(name, docs)), rest)
    ensures pos < |buffer| && buffer[pos] == 1
    ensures n >= |Join(docs)| && (n == |Join(docs)| <==> Ascii(name))
    ensures ParseHeader(buffer, pos + 1) == Ok(SequenceHeader(name, start, n))
    ensures start + |Join(docs)| == pos + |SectionBytes(Sequence(name, docs))|
    ensures At(buffer, start, Join(docs), rest)
  {
    IntRoundTrip(SequenceSize(name, docs));
    start, n := ReadLaidOutHeader(buffer, pos, PackInt(SequenceSize(name, docs)), name, Join(docs), rest);
  }

  lemma ReadBodySection(buffer: Bytes, pos: nat, doc: Bytes, rest: Bytes)
    requires IsDoc(doc) && At(buffer, pos, SectionBytes(Body(doc)), rest)
    ensures pos < |buffer| && ParseSection(buffer, pos) == Ok((Some(Body(doc)), pos + |SectionBytes(Body(doc))|))
  {
    hide ParseBody, At;
    AtTwo(buffer, pos, [0], doc, rest);
    FirstByte(buffer, pos, Body(doc), rest);
    ReadBody(buffer, pos + 1, doc, rest);
  }

  lemma ReadSequenceSection(buffer: Bytes, pos: nat, name: Bytes, docs: seq<Bytes>, rest: Bytes)
    requires Writable(Sequence(name, docs)) && Ascii(name)
    requires At(buffer, pos, SectionBytes(Sequence(name, docs)), rest)
    ensures pos < |buffer|
    ensures ParseSection(buffer, pos) ==
            Ok((Some(Sequence(name, docs)), pos + |SectionBytes(Sequence(name, docs))|))
  {
    hide At, SectionBytes, CharCount, Join, DecodeAll, ParseHeader, ParseSection;
    var start, n := ReadWrittenHeader(buffer, pos, name, docs, rest);
    ReadDocs(buffer, start, docs, rest);
    ParseSequenceIs(buffer, pos, name, start, n, Ok(docs));
  }

  lemma ParseSequenceIs(buffer: Bytes, pos: nat, name: Bytes, start: nat, n: nat, docs: Result<seq<Bytes>>)
    requires pos < |buffer| && buffer[pos] == 1
    requires ParseHeader(buffer, pos + 1) == Ok(SequenceHeader(name, start, n))
    requires DecodeAll(Slice(buffer, start, n)) == docs
    ensures ParseSection(buffer, pos) == SequenceOf(name, docs, start + n)
  {
  }

  /** A section whose name is ASCII is read back and the reader stands after it. */
  lemma ReadSection(buffer: Bytes, pos: nat, s: Section, rest: Bytes)
    requires Writable(s) && At(buffer, pos, SectionBytes(s), rest) && NameIsAscii(s)
    ensures pos < |buffer| && ParseSection(buffer, pos) == Ok((Some(s), pos + |SectionBytes(s)|))
  {
    hide At, SectionBytes, ParseSection;
    match s
    case Body(doc) => ReadBodySection(buffer, pos, doc, rest);
    case Sequence(name, docs) => ReadSequenceSection(buffer, pos, name, docs, rest);
  }

  lemma ReadDocs(buffer: Bytes, start: nat, docs: seq<Bytes>, rest: Bytes)
    requires AllDocs(docs) && At(buffer, start, Join(docs), rest)
    ensures DecodeAll(Slice(buffer, start, |Join(docs)|)) == Ok(docs)
  {
    assert Slice(buffer, start, |Join(docs)|) == Join(docs);
    DecodeAllOfJoin(docs);
  }

  lemma MisreadDocs(buffer: Bytes, start: nat, written: seq<Bytes>, n: nat) returns (docs: Result<seq<Bytes>>)
    requires n > |Join(written)|
    ensures docs == DecodeAll(Slice(buffer, start, n))
    ensures docs != Ok(written) || start + n > |buffer|
  {
    docs := DecodeAll(Slice(buffer, start, n));
    if start + n <= |buffer| {
      JoinOfDecodeAll(Slice(buffer, start, n));
    }
  }

  lemma MisreadAs(buffer: Bytes, pos: nat, name: Bytes, written: seq<Bytes>, rest: Bytes)
    returns (docs: Result<seq<Bytes>>, next: nat)
    requires Writable(Sequence(name, written)) && !Ascii(name)
    requires At(buffer, pos, SectionBytes(Sequence(name, written)), rest)
    ensures pos < |buffer| && ParseSection(buffer, pos) == SequenceOf(name, docs, next)
    ensures docs != Ok(written) || next > |buffer|
  {
    hide At, SectionBytes, CharCount, Join, DecodeAll, ParseHeader, ParseSection, SequenceOf;
    var start, n := ReadWrittenHeader(buffer, pos, name, written, rest);
    docs := MisreadDocs(buffer, start, written, n);
    next := start + n;
    ParseSequenceIs(buffer, pos, name, start, n, docs);
  }

  /** A section whose name is not ASCII is never read back with the reader inside the buffer. */
  lemma MisreadSection(buffer: Bytes, pos: nat, s: Section, rest: Bytes)
    requires Writable(s) && At(buffer, pos, SectionBytes(s), rest) && !NameIsAscii(s)
    ensures pos < |buffer|
    ensures var r := ParseSection(buffer, pos);
            r.Ok? ==> r.value.0 != Some(s) || r.value.1 > |buffer|
  {
    hide At, SectionBytes, ParseSection, SequenceOf;
    match s
    case Sequence(name, written) =>
      var docs, next := MisreadAs(buffer, pos, name, written, rest);
      OtherDocsOrBeyond(s, docs, next, |buffer|);
    case Body(_) =>
  }

  lemma OtherDocsOrBeyond(s: Section, docs: Result<seq<Bytes>>, next: nat, end: nat)
    requires s.Sequence? && (docs != Ok(s.docs) || next > end)
    ensures SequenceOf(s.name, docs, next).Ok? ==>
            SequenceOf(s.name, docs, next).value.0 != Some(s) || SequenceOf(s.name, docs, next).value.1 > end
  {
  }

  lemma FirstSectionAt(buffer: Bytes, pos: nat, ss: seq<Section>, rest: Bytes) returns (next: nat)
    requires AllWritable(ss) && ss != [] && At(buffer, pos, SectionsBytes(ss), rest)
    ensures At(buffer, pos, SectionBytes(ss[0]), SectionsBytes(ss[1..]) + rest)
    ensures At(buffer, next, SectionsBytes(ss[1..]), rest)
    ensures pos < next == pos + |SectionBytes(ss[0])| <= |buffer| - |rest|
  {
    hide At, SectionBytes;
    var a, b := SectionBytes(ss[0]), SectionsBytes(ss[1..]);
    assert SectionsBytes(ss) == a + b;
    AtTwo(buffer, pos, a, b, rest);
    FirstByte(buffer, pos, ss[0], b + rest);
    next := pos + |a|;
    AtBounds(buffer, next, b, rest);
  }

  lemma ReadOneMore(buffer: Bytes, pos: nat, limit: nat, s: Section, next: nat, ss: seq<Section>)
    requires pos < limit <= |buffer| && ParseSection(buffer, pos) == Ok((Some(s), next))
    requires ParseSections(buffer, next, limit) == Ok((ss, limit))
    ensures ParseSections(buffer, pos, limit) == Ok(([s] + ss, limit))
  {
  }

  lemma ReadFirst(buffer: Bytes, pos: nat, ss: seq<Section>, rest: Bytes) returns (next: nat, tail: seq<Section>)
    requires AllWritable(ss) && ss != [] && At(buffer, pos, SectionsBytes(ss), rest) && NameIsAscii(ss[0])
    ensures tail == ss[1..] && ss == [ss[0]] + tail
    ensures At(buffer, next, SectionsBytes(tail), rest) && pos < next <= |buffer| - |rest|
    ensures pos < |buffer| && ParseSection(buffer, pos) == Ok((Some(ss[0]), next))
  {
    hide ParseSection, SectionBytes, SectionsBytes, At;
    tail := ss[1..];
    next := FirstSectionAt(buffer, pos, ss, rest);
    ReadSection(buffer, pos, ss[0], SectionsBytes(tail) + rest);
  }

  /** All sections before `limit` are read back when every name is ASCII. */
  lemma {:induction false} ReadSections(buffer: Bytes, pos: nat, ss: seq<Section>, rest: Bytes, limit: nat)
    requires AllWritable(ss) && At(buffer, pos, SectionsBytes(ss), rest) && limit == |buffer| - |rest|
    requires forall i :: 0 <= i < |ss| ==> NameIsAscii(ss[i])
    ensures ParseSections(buffer, pos, limit) == Ok((ss, limit))
    decreases |ss|
  {
    if ss == [] {
      AtBounds(buffer, pos, SectionsBytes([]), rest);
    } else {
      hide At, SectionBytes, SectionsBytes, ParseSection, ParseSections;
      var next, tail := ReadFirst(buffer, pos, ss, rest);
      ReadSections(buffer, next, tail, rest, limit);
      ReadOneMore(buffer, pos, limit, ss[0], next, tail);
    }
  }

  lemma {:induction false} ParseSectionsGoesOn(buffer: Bytes, pos: nat, limit: int)
    requires limit <= |buffer|
    ensures ParseSections(buffer, pos, limit).Ok? ==> ParseSections(buffer, pos, limit).value.1 >= pos
    decreases limit - pos
  {
    if pos < limit && ParseSection(buffer, pos).Ok? {
      ParseSectionsGoesOn(buffer, ParseSection(buffer, pos).value.1, limit);
    }
  }

  /** Reading all of `ss` up to `limit` means reading its first section and then the others. */
  lemma ReadFirstThenRest(buffer: Bytes, pos: nat, limit: nat, ss: seq<Section>) returns (next: nat)
    requires pos < limit <= |buffer| && ss != [] && buffer[pos] in {0, 1}
    requires ParseSections(buffer, pos, limit) == Ok((ss, limit))
    ensures ParseSection(buffer, pos) == Ok((Some(ss[0]), next)) && next <= limit
    ensures ParseSections(buffer, next, limit) == Ok((ss[1..], limit))
  {
    var s;
    s, next := ParseSection(buffer, pos).value.0, ParseSection(buffer, pos).value.1;
    var later := ParseSections(buffer, next, limit).value.0;
    assert [s.value] + later == ss;
    assert ss[1..] == later;
    ParseSectionsGoesOn(buffer, next, limit);
  }

  /** A section that is read back without leaving the buffer has an ASCII name. */
  lemma ReadBackIsAscii(buffer: Bytes, pos: nat, s: Section, rest: Bytes, next: nat)
    requires Writable(s) && At(buffer, pos, SectionBytes(s), rest)
    requires pos < |buffer| && ParseSection(buffer, pos) == Ok((Some(s), next)) && next <= |buffer|
    ensures NameIsAscii(s) && next == pos + |SectionBytes(s)|
  {
    hide At, SectionBytes, ParseSection;
    if !NameIsAscii(s) {
      MisreadSection(buffer, pos, s, rest);
    } else {
      ReadSection(buffer, pos, s, rest);
    }
  }

  /** Sections are read back only if every name is ASCII. */
  lemma {:induction false} ReadBackOnlyAscii(buffer: Bytes, pos: nat, ss: seq<Section>, rest: Bytes, limit: nat)
    requires AllWritable(ss) && At(buffer, pos, SectionsBytes(ss), rest) && limit == |buffer| - |rest|
    requires ParseSections(buffer, pos, limit) == Ok((ss, limit))
    ensures forall i :: 0 <= i < |ss| ==> NameIsAscii(ss[i])
    decreases |ss|
  {
    hide At, SectionBytes, SectionsBytes, ParseSection, ParseSections;
    if ss != [] {
      var first := FirstSectionAt(buffer, pos, ss, rest);
      FirstByte(buffer, pos, ss[0], SectionsBytes(ss[1..]) + rest);
      var next := ReadFirstThenRest(buffer, pos, limit, ss);
      ReadBackIsAscii(buffer, pos, ss[0], SectionsBytes(ss[1..]) + rest, next);
      ReadBackOnlyAscii(buffer, next, ss[1..], rest, limit);
    }
  }

  lemma MessageLayout(m: Message, checksum: Bytes) returns (buffer: Bytes, rest: Bytes)
    requires 0 <= m.flags < UINT_LIMIT && AllWritable(m.sections)
    ensures buffer == MessageBytes(m, checksum)
    ensures rest == if ChecksumPresent(m.flags) then checksum else []
    ensures |buffer| >= 4 && UintOf(buffer[0..4]) == m.flags
    ensures At(buffer, 4, SectionsBytes(m.sections), rest)
  {
    buffer := MessageBytes(m, checksum);
    rest := if ChecksumPresent(m.flags) then checksum else [];
    UintRoundTrip(m.flags);
    AtTwo(buffer, 0, PackUint(m.flags), SectionsBytes(m.sections), rest);
  }

  lemma ParseMessageIff(buffer: Bytes, m: Message, limit: nat)
    requires 4 <= |buffer| && UintOf(buffer[0..4]) == m.flags
    requires limit == |buffer| - (if ChecksumPresent(m.flags) then 4 else 0) && limit >= 4
    ensures ParseMessage(buffer) == Ok(m) <==> ParseSections(buffer, 4, limit) == Ok((m.sections, limit))
  {
  }

  /** Bit 0 of the flags, that is an odd first byte, and nothing else, keeps four bytes at the end out of the sections. */
  lemma ChecksumByFirstByte(buffer: Bytes)
    requires |buffer| >= 4
    ensures var limit := if buffer[0] % 2 == 1 then |buffer| - 4 else |buffer|;
      ParseMessage(buffer) == match ParseSections(buffer, 4, limit)
        case Err(e) => Err(e)
        case Ok((ss, end)) => if end == limit then Ok(Message(UintOf(buffer[0..4]), ss)) else Err("bytes left")
  {
    FirstByteIsParity(buffer[0..4]);
    hide ParseSections, UintOf;
  }

  lemma FirstByteIsParity(b: Bytes)
    requires |b| == 4
    ensures UintOf(b) % 2 == b[0] % 2
  {
    assert UintOf(b) == (b[0] as int) + 2 * (128 * (b[1] as int) + 32768 * (b[2] as int) + 8388608 * (b[3] as int));
  }

  /** A message of one document, byte by byte, with a checksum and without. */
  lemma OneDocument(doc: Bytes, c: Bytes)
    requires IsDoc(doc) && |c| == 4
    ensures ParseMessage([1, 0, 0, 0] + [0] + doc + c) == Ok(Message(1, [Body(doc)]))
    ensures ParseMessage([0, 0, 0, 0] + [0] + doc) == Ok(Message(0, [Body(doc)]))
  {
    hide ParseMessage, IsDoc, UintOf;
    FlagsZeroAndOne();
    FlagsThenBody([1, 0, 0, 0], doc, c);
    FlagsThenBody([0, 0, 0, 0], doc, []);
    assert [0, 0, 0, 0] + [0] + doc + [] == [0, 0, 0, 0] + [0] + doc;
  }

  lemma FlagsZeroAndOne()
    ensures UintOf([1, 0, 0, 0]) == 1 && UintOf([0, 0, 0, 0]) == 0
  {
  }

  lemma FlagsThenBody(flags: Bytes, doc: Bytes, rest: Bytes)
    requires |flags| == 4 && IsDoc(doc) && |rest| == if flags[0] % 2 == 1 then 4 else 0
    ensures ParseMessage(flags + [0] + doc + rest) == Ok(Message(UintOf(flags), [Body(doc)]))
  {
    hide ParseSections, ParseMessage, UintOf, IsDoc;
    var m := flags + [0] + doc + rest;
    assert m[0..4] == flags && m[0] == flags[0] && m[4..] == [0] + doc + rest;
    ChecksumByFirstByte(m);
    OneBody(m, doc, rest);
  }

  lemma OneBody(buffer: Bytes, doc: Bytes, rest: Bytes)
    requires IsDoc(doc) && |buffer| == 5 + |doc| + |rest| && buffer[4..] == [0] + doc + rest
    ensures ParseSections(buffer, 4, |buffer| - |rest|) == Ok(([Body(doc)], |buffer| - |rest|))
  {
    hide At, SectionBytes, ParseSection, ParseSections, IsDoc;
    BodyBytes(doc);
    AtSuffix(buffer, 4, [0] + doc, rest);
    ReadSection(buffer, 4, Body(doc), rest);
    NoSections(buffer, |buffer| - |rest|);
    ReadOneMore(buffer, 4, |buffer| - |rest|, Body(doc), |buffer| - |rest|, []);
    assert [Body(doc)] + [] == [Body(doc)];
  }

  lemma BodyBytes(doc: Bytes)
    requires IsDoc(doc)
    ensures SectionBytes(Body(doc)) == [0] + doc
  {
  }

  lemma AtSuffix(buffer: Bytes, pos: nat, part: Bytes, rest: Bytes)
    requires pos <= |buffer| && buffer[pos..] == part + rest
    ensures At(buffer, pos, part, rest)
  {
    assert buffer[pos..pos + |part|] == buffer[pos..][..|part|];
    assert buffer[pos + |part|..] == buffer[pos..][|part|..];
  }

  lemma NoSections(buffer: Bytes, limit: nat)
    requires limit <= |buffer|
    ensures ParseSections(buffer, limit, limit) == Ok(([], limit))
  {
  }

  /** A sequence of two documents named "ab", byte by byte. */
  lemma OneSequence()
    ensures var doc := [5, 0, 0, 0, 0];
      ParseSections([1, 17, 0, 0, 0, 97, 98, 0] + doc + doc, 0, 18) == Ok(([Sequence([97, 98], [doc, doc])], 18))
  {
    hide IntOf, UintOf, CharCount, Join, IsDoc, DecodeAll, ParseHeader, ParseSection, ParseSections, At;
    var doc: Bytes, name: Bytes, size: Bytes := [5, 0, 0, 0, 0], [97, 98], [17, 0, 0, 0];
    TwoDocuments(doc);
    CharCountIsByteCountIff(name);
    SizeSeventeen();
    var b: Bytes := [1, 17, 0, 0, 0, 97, 98, 0] + doc + doc;
    AtSuffix(b, 0, [1] + size + (name + [0]) + (doc + doc), []);
    var start, n := ReadLaidOutHeader(b, 0, size, name, doc + doc, []);
    assert Slice(b, 8, 10) == doc + doc;
    ParseSequenceIs(b, 0, name, start, n, Ok([doc, doc]));
    NoSections(b, 18);
    ReadOneMore(b, 0, 18, Sequence(name, [doc, doc]), 18, []);
    assert [Sequence(name, [doc, doc])] + [] == [Sequence(name, [doc, doc])];
  }

  lemma SizeSeventeen()
    ensures IntOf([17, 0, 0, 0]) == 17
  {
  }

  lemma TwoDocuments(doc: Bytes)
    requires doc == [5, 0, 0, 0, 0]
    ensures DecodeAll(doc + doc) == Ok([doc, doc])
  {
    assert doc[..4] == [5, 0, 0, 0] && IsDoc(doc);
    hide IsDoc, DecodeAll;
    DecodeAllOfJoin([doc, doc]);
    assert [doc, doc][1..] == [doc] && [doc][1..] == [];
    assert Join([doc]) == doc + [] == doc;
  }

  /** A kind other than 0 and 1 is passed over. */
  lemma UnknownKindIsSkipped(buffer: Bytes, pos: nat, limit: nat)
    requires pos < limit <= |buffer| && buffer[pos] > 1
    ensures ParseSections(buffer, pos, limit) == ParseSections(buffer, pos + 1, limit)
  {
    BeforeNothing(ParseSections(buffer, pos + 1, limit));
  }

  /** Reading undoes writing, with or without a checksum, exactly when every section name is ASCII. */
  lemma RoundTripIffAscii(m: Message, checksum: Bytes)
    requires 0 <= m.flags < UINT_LIMIT && AllWritable(m.sections) && |checksum| == 4
    ensures ParseMessage(MessageBytes(m, checksum)) == Ok(m) <==>
            forall i :: 0 <= i < |m.sections| ==> NameIsAscii(m.sections[i])
  {
    var buffer, rest := MessageLayout(m, checksum);
    var limit := |buffer| - |rest|;
    ParseMessageIff(buffer, m, limit);
    if forall i :: 0 <= i < |m.sections| ==> NameIsAscii(m.sections[i]) {
      ReadSections(buffer, 4, m.sections, rest, limit);
    } else if ParseSections(buffer, 4, limit) == Ok((m.sections, limit)) {
      ReadBackOnlyAscii(buffer, 4, m.sections, rest, limit);
    }
  }
}
