/** The OutOfProcess line protocol: printing packets, and reading them back from a byte stream. */
module OutOfProc {
  import opened Wrappers
  import opened Bytes
  import opened Sequences
  import opened Text
  import Guid
  import Base64

  const LT: byte := 0x3C
  const GT: byte := 0x3E
  const SLASH: byte := 0x2F
  const SPACE: byte := 0x20
  const QUOTE: byte := 0x27
  const EQUALS: byte := 0x3D
  const NEWLINE: byte := 0x0A

  const DATA: seq<byte> := Ascii("Data")
  const DEFAULT: seq<byte> := Ascii("Default")
  const PS_GUID: seq<byte> := Ascii("PSGuid='")
  const STREAM: seq<byte> := Ascii("Stream='")
  const END_DATA: seq<byte> := Ascii("</Data>")

  /** The names of the type, the stream and the data are those of the line. */
  datatype Packet = Packet(packetType: seq<byte>, psGuid: Guid.Guid, stream: seq<byte>, data: seq<byte>)

  datatype Error = EndOfInput | LineTooShort | MalformedName | BadGuid | MalformedData | BadBase64

  // ---------- printing ----------

  function DataLine(p: Packet): seq<byte> {
    [LT] + (DATA + [SPACE]) + (STREAM + p.stream + [QUOTE, SPACE]) + (PS_GUID + Guid.Format(p.psGuid) + [QUOTE, GT])
      + Base64.Encode(p.data) + END_DATA
  }

  function PlainLine(p: Packet): seq<byte> {
    [LT] + (p.packetType + [SPACE]) + (PS_GUID + Guid.Format(p.psGuid) + [QUOTE, SPACE, SLASH, GT])
  }

  function Line(p: Packet): seq<byte> {
    if p.packetType == DATA then DataLine(p) else PlainLine(p)
  }

  // ---------- reading ----------

  function Earlier(a: Option<nat>, b: Option<nat>): Option<nat> {
    if a.None? then b else if b.None? || a.value <= b.value then a else b
  }

  /** The text between a pattern that ends in a quote and the next quote; nothing when either is missing. */
  function Attribute(line: seq<byte>, pat: seq<byte>): Option<seq<byte>> {
    match Index(line, pat)
    case None => None
    case Some(idx) => UpToQuote(line[idx + |pat|..])
  }

  function UpToQuote(s: seq<byte>): Option<seq<byte>> {
    match IndexByte(s, QUOTE)
    case None => None
    case Some(end) => Some(s[..end])
  }

  /** The base64 text of a Data element; a self-closing one has none. */
  function Content(line: seq<byte>, endTag: seq<byte>): Result<seq<byte>, Error> {
    var start := IndexByte(line, GT);
    if start.None? then Err(MalformedData)
    else
      var end := LastIndex(line, endTag);
      if end.Some? && end.value > start.value + 1 then
        var data := Base64.Decode(line[start.value + 1..end.value]);
        if data.Some? then Ok(data.value) else Err(BadBase64)
      else Ok([])
  }

  /** The GUID attribute; the null GUID when there is none. */
  function GuidOf(line: seq<byte>): Option<Guid.Guid> {
    match Attribute(line, PS_GUID)
    case None => Some(Guid.NULL_GUID)
    case Some(text) => Guid.Parse(text)
  }

  function StreamOf(line: seq<byte>): seq<byte> {
    match Attribute(line, STREAM)
    case None => DEFAULT
    case Some(text) => text
  }

  /** Where the name of an element ends: at the first space, > or /. */
  function NameEnd(line: seq<byte>): (r: Option<nat>)
    ensures r.Some? ==> r.value <= |line|
  {
    Earlier(Earlier(IndexByte(line, SPACE), IndexByte(line, GT)), IndexByte(line, SLASH))
  }

  /** The rest of a line behind its <, once the name is known. */
  function ParseElement(line: seq<byte>, name: seq<byte>): Result<Packet, Error> {
    match GuidOf(line)
    case None => Err(BadGuid)
    case Some(guid) =>
      if name != DATA then Ok(Packet(name, guid, StreamOf(line), []))
      else match Content(line, [LT, SLASH] + name + [GT])
        case Ok(data) => Ok(Packet(name, guid, StreamOf(line), data))
        case Err(e) => Err(e)
  }

  /** parsePacket. */
  function ParsePacket(text: seq<byte>): Result<Packet, Error> {
    ParseTrimmed(TrimBom(TrimSpace(text)))
  }

  function ParseTrimmed(text: seq<byte>): Result<Packet, Error> {
    if |text| < 5 || text[0] != LT then Err(LineTooShort)
    else match NameEnd(text[1..])
      case None => Err(MalformedName)
      case Some(end) => ParseElement(text[1..], text[1..][..end])
  }

  datatype Reading = Reading(r: Result<Packet, Error>, rest: seq<byte>)

  /** A line that holds no element, or the text of the element in it. */
  function ElementIn(line: seq<byte>): Option<seq<byte>> {
    var text := TrimBom(TrimSpace(line));
    var idx := Index(text, [LT]);
    if TrimSpace(line) == [] || idx.None? then None else Some(text[idx.value..])
  }

  /** ReceivePacket, on the input still to be read; a last line without a newline is lost. */
  function Receive(input: seq<byte>): Reading
    decreases |input|
  {
    var end := IndexByte(input, NEWLINE);
    if end.None? then Reading(Err(EndOfInput), [])
    else
      var line, rest := input[..end.value + 1], input[end.value + 1..];
      var text := ElementIn(line);
      if text.None? then Receive(rest) else Reading(ParsePacket(text.value), rest)
  }

  class Transport {
    var input: seq<byte>
    var output: seq<byte>

    constructor (stream: seq<byte>)
      ensures input == stream && output == []
    {
      input, output := stream, [];
    }

    /** SendDataWithStream: the packet is put together in a buffer and written at once. */
    method SendDataWithStream(psGuid: Guid.Guid, stream: seq<byte>, data: seq<byte>)
      modifies this`output
      ensures output == old(output) + Line(Packet(DATA, psGuid, stream, data)) + [0x0A]
    {
      var buf: seq<byte> := [LT] + (DATA + [SPACE]);
      buf := buf + (STREAM + stream + [QUOTE, SPACE]);
      buf := buf + (PS_GUID + Guid.Format(psGuid) + [QUOTE, GT]);
      buf := buf + Base64.Encode(data);
      buf := buf + END_DATA;
      output := output + buf + [NEWLINE];
    }

    method SendData(psGuid: Guid.Guid, data: seq<byte>)
      modifies this`output
      ensures output == old(output) + Line(Packet(DATA, psGuid, DEFAULT, data)) + [0x0A]
    {
      SendDataWithStream(psGuid, DEFAULT, data);
    }

    /** SendCommand, SendClose, SendSignal and the three acknowledgements, which differ in the name only. */
    method SendPlain(name: seq<byte>, psGuid: Guid.Guid)
      requires name != DATA
      modifies this`output
      ensures output == old(output) + Line(Packet(name, psGuid, DEFAULT, [])) + [0x0A]
    {
      var buf: seq<byte> := [LT] + (name + [SPACE]);
      buf := buf + (PS_GUID + Guid.Format(psGuid) + [QUOTE, SPACE, SLASH, GT]);
      output := output + buf + [NEWLINE];
    }

    method ReceivePacket() returns (r: Result<Packet, Error>)
      modifies this`input
      ensures Reading(r, input) == Receive(old(input))
    {
      while true
        invariant Receive(input) == Receive(old(input))
        decreases |input|
      {
        var end := IndexByte(input, NEWLINE);
        if end.None? {
          input := [];
          return Err(EndOfInput);
        }
        var line := input[..end.value + 1];
        input := input[end.value + 1..];
        var text := TrimSpace(line);
        if text == [] {
          continue;
        }
        text := TrimBom(text);
        var idx := Index(text, [LT]);
        if idx.None? {
          continue;
        }
        if idx.value > 0 {
          text := text[idx.value..];
        }
        return ParsePacket(text);
      }
    }
  }

  // ---------- what is printed is read back ----------

  predicate IsLetter(b: byte) {
    0x41 <= b <= 0x5A || 0x61 <= b <= 0x7A
  }

  predicate IsWord(s: seq<byte>) {
    forall i :: 0 <= i < |s| ==> IsLetter(s[i])
  }

  /** The packets that the Send methods print, and more: any name and any stream made of letters. */
  predicate Printable(p: Packet) {
    && p.packetType != [] && IsWord(p.packetType) && IsWord(p.stream)
    && (p.packetType != DATA ==> p.stream == DEFAULT && p.data == [])
  }

  lemma Literals()
    ensures DATA == [0x44, 0x61, 0x74, 0x61]
    ensures PS_GUID == [0x50, 0x53, 0x47, 0x75, 0x69, 0x64, EQUALS, QUOTE]
    ensures STREAM == [0x53, 0x74, 0x72, 0x65, 0x61, 0x6D, EQUALS, QUOTE]
    ensures END_DATA == [LT, SLASH] + DATA + [GT]
    ensures IsWord(DEFAULT) && DEFAULT == [0x44, 0x65, 0x66, 0x61, 0x75, 0x6C, 0x74]
  {
    var s := "Default";
    forall i | 0 <= i < |DEFAULT| ensures IsLetter(DEFAULT[i]) {
      assert DEFAULT[i] == s[i] as int;
    }
  }

  lemma {:induction false} WordLacks(s: seq<byte>, b: byte)
    requires IsWord(s) && !IsLetter(b)
    ensures b !in s
  {
  }

  lemma GuidLacks(g: Guid.Guid, b: byte)
    requires !Guid.InAlphabet(b)
    ensures b !in Guid.Format(g)
  {
    Guid.FormatAlphabet(g);
  }

  lemma Base64Lacks(data: seq<byte>, b: byte)
    requires !Base64.InAlphabet(b)
    ensures b !in Base64.Encode(data)
  {
    Base64.EncodeAlphabet(data);
  }

  /** The first delimiter ends the name. */
  lemma NameEnds(name: seq<byte>, tail: seq<byte>)
    requires IsWord(name)
    ensures var line := name + [SPACE] + tail;
            NameEnd(line) == Some(|name|)
  {
    var line := name + [SPACE] + tail;
    assert line[|name|] == SPACE && line[..|name|] == name;
    FirstByte(name, SPACE, tail);
    LaterByte(name, line, GT);
    LaterByte(name, line, SLASH);
  }

  lemma FirstByte(a: seq<byte>, b: byte, tail: seq<byte>)
    requires b !in a
    ensures IndexByte(a + [b] + tail, b) == Some(|a|)
  {
    var line := a + [b] + tail;
    assert line[|a|] == b;
    var i := IndexByte(line, b).value;
    assert forall k :: 0 <= k < |a| ==> line[k] == a[k];
    assert forall k :: 0 <= k < i ==> line[k] == line[..i][k];
  }

  lemma LaterByte(a: seq<byte>, line: seq<byte>, b: byte)
    requires |a| < |line| && line[..|a|] == a && IsWord(a) && line[|a|] == SPACE && !IsLetter(b) && b != SPACE
    ensures IndexByte(line, b).Some? ==> IndexByte(line, b).value > |a|
  {
    WordLacks(a, b);
    assert forall i :: 0 <= i < |a| ==> line[i] == a[i];
  }

  /** An attribute whose pattern is first found behind a front part. */
  lemma AttributeAt(front: seq<byte>, pat: seq<byte>, value: seq<byte>, tail: seq<byte>, line: seq<byte>)
    requires line == front + (pat + (value + [QUOTE] + tail))
    requires QUOTE !in value && Index(line, pat) == Some(|front|)
    ensures Attribute(line, pat) == Some(value)
  {
    var rest := value + [QUOTE] + tail;
    BehindPattern(front, pat, rest);
    QuoteIff(rest, value);
    assert line[|front| + |pat|..] == rest;
  }

  lemma FrontOf(a: seq<byte>, b: seq<byte>, c: seq<byte>)
    ensures (a + b + c)[..|a|] == a
  {
  }

  lemma PatternFirst(pat: seq<byte>, value: seq<byte>, tail: seq<byte>)
    ensures pat + value + [QUOTE] + tail == pat + (value + [QUOTE] + tail) && pat <= pat + (value + [QUOTE] + tail)
  {
  }

  lemma BehindPattern(front: seq<byte>, pat: seq<byte>, rest: seq<byte>)
    ensures (front + (pat + rest))[|front| + |pat|..] == rest
  {
  }

  /** The GUID of a line: no earlier equals sign follows the right name. */
  lemma GuidAttribute(front: seq<byte>, g: Guid.Guid, tail: seq<byte>)
    requires forall j :: 0 <= j < |front| && front[j] == EQUALS ==> j >= 1 && front[j - 1] != 0x64
    ensures Attribute(front + (PS_GUID + Guid.Format(g) + [QUOTE] + tail), PS_GUID) == Some(Guid.Format(g))
  {
    Literals();
    var b := PS_GUID + Guid.Format(g) + [QUOTE] + tail;
    var s := front + b;
    PatternFirst(PS_GUID, Guid.Format(g), tail);
    OccursMeans(s, PS_GUID, 5);
    IndexBehind(front, b, PS_GUID, 6, EQUALS);
    GuidLacks(g, QUOTE);
    AttributeAt(front, PS_GUID, Guid.Format(g), tail, s);
  }

  lemma StreamAttribute(stream: seq<byte>, tail: seq<byte>)
    requires IsWord(stream)
    ensures Attribute(DATA + [SPACE] + (STREAM + stream + [QUOTE] + tail), STREAM) == Some(stream)
  {
    Literals();
    var front := DATA + [SPACE];
    var b := STREAM + stream + [QUOTE] + tail;
    PatternFirst(STREAM, stream, tail);
    IndexBehind(front, b, STREAM, 6, EQUALS);
    WordLacks(stream, QUOTE);
    AttributeAt(front, STREAM, stream, tail, front + b);
  }

  /** A line with one equals sign, behind PSGuid, has no stream attribute. */
  lemma NoStream(front: seq<byte>, g: Guid.Guid, tail: seq<byte>)
    requires EQUALS !in front && EQUALS !in tail
    ensures Attribute(front + (PS_GUID + Guid.Format(g) + [QUOTE] + tail), STREAM) == None
  {
    Literals();
    GuidLacks(g, EQUALS);
    var s := front + (PS_GUID + Guid.Format(g) + [QUOTE] + tail);
    var at := |front| + 6;
    assert forall j :: 0 <= j < |s| && s[j] == EQUALS ==> j == at;
    assert s[at - 1] == 0x64;
    OccursMeans(s, STREAM, 6);
    OccursMeans(s, STREAM, 5);
    assert forall j: nat :: !OccursAt(s, STREAM, j);
  }

  /** A line is parsed as the packet that its parts spell. */
  lemma ParseAssembled(line: seq<byte>, p: Packet)
    requires |line| >= 4 && line[|line| - 1] == GT
    requires NameEnd(line) == Some(|p.packetType|) && line[..|p.packetType|] == p.packetType
    requires GuidOf(line) == Some(p.psGuid) && StreamOf(line) == p.stream
    requires if p.packetType == DATA then Content(line, END_DATA) == Ok(p.data) else p.data == []
    ensures ParsePacket([LT] + line) == Ok(p)
  {
    ElementUntrimmed(line);
    Literals();
  }

  lemma NameInFront(name: seq<byte>, front: seq<byte>, line: seq<byte>)
    requires IsWord(name) && name + [SPACE] <= front <= line
    ensures NameEnd(line) == Some(|name|) && line[..|name|] == name
  {
    var tail := line[|name| + 1..];
    assert line[..|name| + 1] == name + [SPACE];
    assert line == name + [SPACE] + tail;
    NameEnds(name, tail);
  }

  lemma GuidInLine(front: seq<byte>, g: Guid.Guid, tail: seq<byte>, line: seq<byte>)
    requires line == front + (PS_GUID + Guid.Format(g) + [QUOTE] + tail)
    requires forall j :: 0 <= j < |front| && front[j] == EQUALS ==> j >= 1 && front[j - 1] != 0x64
    ensures GuidOf(line) == Some(g)
  {
    GuidAttribute(front, g, tail);
    Guid.ParseFormat(g);
  }

  /** A packet's element without its bracket, for a plain packet. */
  lemma ParsePlain(p: Packet)
    requires Printable(p) && p.packetType != DATA
    ensures ParsePacket(PlainLine(p)) == Ok(p)
  {
    var tail := [SPACE, SLASH, GT];
    var front := p.packetType + [SPACE];
    var line := front + (PS_GUID + Guid.Format(p.psGuid) + [QUOTE] + tail);
    PlainRegroups(p, front, tail, line);
    NameInFront(p.packetType, front, line);
    WordLacks(p.packetType, EQUALS);
    GuidInLine(front, p.psGuid, tail, line);
    NoStream(front, p.psGuid, tail);
    ParseAssembled(line, p);
  }

  lemma PlainRegroups(p: Packet, front: seq<byte>, tail: seq<byte>, line: seq<byte>)
    requires front == p.packetType + [SPACE] && tail == [SPACE, SLASH, GT]
    requires line == front + (PS_GUID + Guid.Format(p.psGuid) + [QUOTE] + tail)
    ensures PlainLine(p) == [LT] + line && |line| >= 4 && line[|line| - 1] == GT && front <= line
  {
    var a := PS_GUID + Guid.Format(p.psGuid);
    assert a + [QUOTE, SPACE, SLASH, GT] == a + [QUOTE] + tail;
  }

  lemma ElementUntrimmed(line: seq<byte>)
    requires |line| >= 4 && line[|line| - 1] == GT
    ensures TrimBom(TrimSpace([LT] + line)) == [LT] + line && ([LT] + line)[1..] == line
  {
    var s := [LT] + line;
    assert s[0] == LT && s[|s| - 1] == GT;
    assert SpaceAtFront(s) == 0;
    TrimRightStops(s);
  }

  /** The content between the first > and the only end tag. */
  lemma ContentBetween(front: seq<byte>, data: seq<byte>)
    requires LT !in front && GT !in front
    ensures Content(front + [GT] + (Base64.Encode(data) + END_DATA), END_DATA) == Ok(data)
  {
    Literals();
    var text := Base64.Encode(data);
    var line := front + [GT] + (text + END_DATA);
    FirstByte(front, GT, text + END_DATA);
    Base64Lacks(data, LT);
    var at := |front| + 1 + |text|;
    OnlyEndTag(front, text, line, at);
    assert line[|front| + 1..at] == text;
    Base64.DecodeEncode(data);
    Base64.EncodeAlphabet(data);
  }

  lemma OnlyEndTag(front: seq<byte>, text: seq<byte>, line: seq<byte>, at: nat)
    requires line == front + [GT] + (text + END_DATA) && at == |front| + 1 + |text|
    requires LT !in front && LT !in text
    ensures LastIndex(line, END_DATA) == Some(at)
  {
    Literals();
    assert line[at..at + |END_DATA|] == END_DATA;
    forall j | 0 <= j < at ensures line[j] != LT {
      assert if j < |front| then line[j] == front[j] else if j == |front| then line[j] == GT
             else line[j] == text[j - |front| - 1];
    }
    forall j | at < j < |line| ensures line[j] != LT {
      assert line[j] == END_DATA[j - at];
    }
    LastIs(line, at);
  }

  lemma LastIs(line: seq<byte>, at: nat)
    requires OccursAt(line, END_DATA, at) && forall j :: 0 <= j < |line| && line[j] == LT ==> j == at
    ensures LastIndex(line, END_DATA) == Some(at)
  {
    Literals();
    var i := LastIndex(line, END_DATA).value;
    assert line[i..i + |END_DATA|][0] == LT;
  }

  lemma ParseData(p: Packet)
    requires Printable(p) && p.packetType == DATA
    ensures ParsePacket(DataLine(p)) == Ok(p)
  {
    var rest := [GT] + (Base64.Encode(p.data) + END_DATA);
    var front := DATA + [SPACE] + (STREAM + p.stream + [QUOTE, SPACE]);
    var line := front + (PS_GUID + Guid.Format(p.psGuid) + [QUOTE] + rest);
    DataLineRegroups(p, line, rest);
    Literals();
    NameInFront(DATA, front, line);
    FrontEquals(p.stream, front);
    GuidInLine(front, p.psGuid, rest, line);
    StreamInLine(p.stream, front, PS_GUID + Guid.Format(p.psGuid) + [QUOTE] + rest, line);
    DataInLine(p, front, rest, line);
    ParseAssembled(line, p);
  }

  lemma Regroup(a: seq<byte>, b: seq<byte>, x: byte, y: byte, c: seq<byte>)
    ensures a + (b + [x, y]) + c == a + (b + [x] + ([y] + c))
  {
    assert b + [x, y] == b + [x] + [y];
  }

  lemma StreamInLine(stream: seq<byte>, front: seq<byte>, attr: seq<byte>, line: seq<byte>)
    requires IsWord(stream) && front == DATA + [SPACE] + (STREAM + stream + [QUOTE, SPACE]) && line == front + attr
    ensures StreamOf(line) == stream
  {
    var tail := [SPACE] + attr;
    Regroup(DATA + [SPACE], STREAM + stream, QUOTE, SPACE, attr);
    StreamAttribute(stream, tail);
  }

  lemma DataInLine(p: Packet, front: seq<byte>, rest: seq<byte>, line: seq<byte>)
    requires IsWord(p.stream) && front == DATA + [SPACE] + (STREAM + p.stream + [QUOTE, SPACE])
    requires rest == [GT] + (Base64.Encode(p.data) + END_DATA)
    requires line == front + (PS_GUID + Guid.Format(p.psGuid) + [QUOTE] + rest)
    ensures Content(line, END_DATA) == Ok(p.data)
  {
    var head := front + (PS_GUID + Guid.Format(p.psGuid) + [QUOTE]);
    assert line == head + [GT] + (Base64.Encode(p.data) + END_DATA);
    HeadLacks(p, front, head);
    ContentBetween(head, p.data);
  }

  lemma DataLineRegroups(p: Packet, line: seq<byte>, rest: seq<byte>)
    requires rest == [GT] + (Base64.Encode(p.data) + END_DATA)
    requires line == DATA + [SPACE] + (STREAM + p.stream + [QUOTE, SPACE])
             + (PS_GUID + Guid.Format(p.psGuid) + [QUOTE] + rest)
    ensures DataLine(p) == [LT] + line && |line| >= 4 && line[|line| - 1] == GT
  {
    Literals();
    var a, b := DATA + [SPACE], STREAM + p.stream + [QUOTE, SPACE];
    var c := PS_GUID + Guid.Format(p.psGuid);
    LineRegroups([LT], a, b, c, QUOTE, GT, Base64.Encode(p.data), END_DATA);
  }

  lemma LineRegroups(l: seq<byte>, a: seq<byte>, b: seq<byte>, c: seq<byte>, x: byte, y: byte, d: seq<byte>,
                     e: seq<byte>)
    ensures l + a + b + (c + [x, y]) + d + e == l + (a + b + (c + [x] + ([y] + (d + e))))
  {
    assert c + [x, y] == c + [x] + [y];
  }

  lemma FrontEquals(stream: seq<byte>, front: seq<byte>)
    requires IsWord(stream) && front == DATA + [SPACE] + (STREAM + stream + [QUOTE, SPACE])
    ensures forall j :: 0 <= j < |front| && front[j] == EQUALS ==> j >= 1 && front[j - 1] != 0x64
  {
    Literals();
    WordLacks(stream, EQUALS);
    assert forall j :: 0 <= j < |front| && front[j] == EQUALS ==> j == 11;
    assert front[10] == 0x6D;
  }

  lemma HeadLacks(p: Packet, front: seq<byte>, head: seq<byte>)
    requires IsWord(p.stream) && front == DATA + [SPACE] + (STREAM + p.stream + [QUOTE, SPACE])
    requires head == front + (PS_GUID + Guid.Format(p.psGuid) + [QUOTE])
    ensures LT !in head && GT !in head
  {
    Literals();
    WordLacks(p.stream, LT);
    WordLacks(p.stream, GT);
    GuidLacks(p.psGuid, LT);
    GuidLacks(p.psGuid, GT);
  }

  /** A printed line is read as the packet it was printed from. */
  lemma ParseLine(p: Packet)
    requires Printable(p)
    ensures ParsePacket(Line(p)) == Ok(p)
  {
    if p.packetType == DATA {
      ParseData(p);
    } else {
      ParsePlain(p);
    }
  }

  /** A printed line is bracketed, and has no newline inside. */
  lemma LineShape(p: Packet)
    requires Printable(p)
    ensures var s := Line(p); |s| >= 2 && s[0] == LT && s[|s| - 1] == GT && NEWLINE !in s
  {
    Literals();
    WordLacks(p.packetType, NEWLINE);
    WordLacks(p.stream, NEWLINE);
    GuidLacks(p.psGuid, NEWLINE);
    Base64Lacks(p.data, NEWLINE);
  }

  /** Anything without a < may stand before a packet: whole lines, and the start of its own line. */
  lemma {:induction false} ReceiveAfterJunk(junk: seq<byte>, p: Packet, rest: seq<byte>)
    requires Printable(p) && LT !in junk
    ensures Receive(junk + (Line(p) + [NEWLINE] + rest)) == Reading(Ok(p), rest)
    decreases |junk|
  {
    var body := Line(p);
    LineShape(p);
    var i := IndexByte(junk, NEWLINE);
    if i.Some? {
      var k := i.value + 1;
      var line, later := junk[..k], junk[k..];
      var input := later + (body + [NEWLINE] + rest);
      assert junk + (body + [NEWLINE] + rest) == line + input;
      assert line == junk[..i.value] + [NEWLINE];
      ReceiveLine(junk[..i.value], line, input);
      NoElement(line);
      ReceiveAfterJunk(later, p, rest);
    } else {
      ReceiveInLine(junk, body, p, rest);
    }
  }

  /** A packet on a line of its own, behind junk. */
  lemma ReceiveInLine(junk: seq<byte>, body: seq<byte>, p: Packet, rest: seq<byte>)
    requires Printable(p) && LT !in junk && NEWLINE !in junk && body == Line(p)
    ensures Receive(junk + (body + [NEWLINE] + rest)) == Reading(Ok(p), rest)
  {
    LineShape(p);
    var line := junk + body + [NEWLINE];
    assert junk + (body + [NEWLINE] + rest) == line + rest;
    ReceiveLine(junk + body, line, rest);
    ElementAfterJunk(junk, body, line);
    ParseLine(p);
  }

  /** One line at the front of the input. */
  lemma ReceiveLine(text: seq<byte>, line: seq<byte>, rest: seq<byte>)
    requires line == text + [NEWLINE] && NEWLINE !in text
    ensures Receive(line + rest)
            == if ElementIn(line).None? then Receive(rest) else Reading(ParsePacket(ElementIn(line).value), rest)
  {
    FirstByte(text, NEWLINE, rest);
    assert (line + rest)[..|line|] == line && (line + rest)[|line|..] == rest;
  }

  lemma NoElement(line: seq<byte>)
    requires LT !in line
    ensures ElementIn(line) == None
  {
    TrimmedLacks(line, LT);
    var text := TrimBom(TrimSpace(line));
    OccursMeans(text, [LT], 0);
  }

  lemma ElementAfterJunk(junk: seq<byte>, body: seq<byte>, line: seq<byte>)
    requires LT !in junk && |body| >= 2 && body[0] == LT && body[|body| - 1] == GT && line == junk + body + [NEWLINE]
    ensures ElementIn(line) == Some(body)
  {
    var k := TrimLeftStops(junk, body + [NEWLINE]);
    assert line == junk + (body + [NEWLINE]);
    var left := junk[k..];
    assert left + (body + [NEWLINE]) == left + body + [NEWLINE];
    TrimRightNewline(left + body);
    assert TrimSpace(line) == left + body;
    assert LT !in left;
    var front := BomInFront(left, body);
    LtBehind(front, body);
  }

  lemma BomInFront(left: seq<byte>, body: seq<byte>) returns (front: seq<byte>)
    requires LT !in left && body != [] && body[0] == LT
    ensures TrimBom(left + body) == front + body && LT !in front
  {
    var s := left + body;
    front := left;
    if TrimBom(s) != s {
      assert s[|left|] == LT;
      front := left[3..];
      assert s[3..] == front + body;
    }
  }

  lemma LtBehind(front: seq<byte>, body: seq<byte>)
    requires LT !in front && body != [] && body[0] == LT
    ensures Index(front + body, [LT]) == Some(|front|) && (front + body)[|front|..] == body
  {
    var text := front + body;
    assert text[|front|..|front| + 1] == [LT];
    OccursMeans(text, [LT], 0);
    assert forall j :: 0 <= j < |front| ==> text[j] == front[j];
    IndexIs(text, [LT], |front|);
  }

  /** The packets, each with junk before it. */
  function Input(junk: seq<seq<byte>>, ps: seq<Packet>): seq<byte>
    requires |junk| == |ps|
  {
    if ps == [] then [] else junk[0] + (Line(ps[0]) + [0x0A] + Input(junk[1..], ps[1..]))
  }

  /** A packet is made of at least one line. */
  lemma {:induction false} ReceiveTakes(input: seq<byte>)
    ensures Receive(input).r.Ok? ==> |Receive(input).rest| < |input|
    decreases |input|
  {
    var end := IndexByte(input, NEWLINE);
    if end.Some? && ElementIn(input[..end.value + 1]).None? {
      ReceiveTakes(input[end.value + 1..]);
    }
  }

  /** n calls of Receive, or as many as succeed and the first that fails. */
  function ReceiveMany(n: nat, input: seq<byte>): (Result<seq<Packet>, Error>, seq<byte>) {
    if n == 0 then (Ok([]), input)
    else
      var x := Receive(input);
      if x.r.Err? then (Err(x.r.error), x.rest) else Prepend(x.r.value, ReceiveMany(n - 1, x.rest))
  }

  function Prepend(p: Packet, b: (Result<seq<Packet>, Error>, seq<byte>)): (Result<seq<Packet>, Error>, seq<byte>) {
    (if b.0.Ok? then Ok([p] + b.0.value) else b.0, b.1)
  }

  function Append(b: (Result<seq<Packet>, Error>, seq<byte>), x: Reading): (Result<seq<Packet>, Error>, seq<byte>)
    requires b.0.Ok?
  {
    (if x.r.Ok? then Ok(b.0.value + [x.r.value]) else Err(x.r.error), x.rest)
  }

  lemma PrependAppend(p: Packet, b: (Result<seq<Packet>, Error>, seq<byte>), x: Reading)
    requires b.0.Ok?
    ensures Prepend(p, Append(b, x)) == Append(Prepend(p, b), x)
  {
    if x.r.Ok? {
      assert [p] + (b.0.value + [x.r.value]) == [p] + b.0.value + [x.r.value];
    }
  }

  /** One packet more. */
  lemma {:induction false} ReceiveManySnoc(n: nat, n1: nat, input: seq<byte>)
    requires n1 == n + 1 && ReceiveMany(n, input).0.Ok?
    ensures |ReceiveMany(n, input).0.value| == n
    ensures ReceiveMany(n1, input) == Append(ReceiveMany(n, input), Receive(ReceiveMany(n, input).1))
    decreases n
  {
    OneMore(n, n1, input);
    var x := Receive(input);
    if n == 0 {
      if x.r.Ok? {
        assert [x.r.value] + [] == [] + [x.r.value];
      }
    } else {
      var m := n - 1;
      OneMore(m, n, input);
      ReceiveManySnoc(m, n, x.rest);
      PrependAppend(x.r.value, ReceiveMany(m, x.rest), Receive(ReceiveMany(m, x.rest).1));
    }
  }

  lemma OneMore(n: nat, n1: nat, input: seq<byte>)
    requires n1 == n + 1
    ensures var x := Receive(input);
            ReceiveMany(n1, input) == if x.r.Err? then (Err(x.r.error), x.rest)
                else Prepend(x.r.value, ReceiveMany(n, x.rest))
  {
  }

  /** Every sequence of packets is received as it was sent, in order, whatever stands between without a <. */
  lemma {:induction false} PacketsRoundTrip(junk: seq<seq<byte>>, ps: seq<Packet>, rest: seq<byte>)
    requires |junk| == |ps| && (forall i :: 0 <= i < |ps| ==> Printable(ps[i]) && LT !in junk[i])
    ensures ReceiveMany(|ps|, Input(junk, ps) + rest) == (Ok(ps), rest)
    decreases |ps|
  {
    if ps == [] {
      assert [] + rest == rest;
    } else {
      var more := Input(junk[1..], ps[1..]);
      var line := Line(ps[0]) + [NEWLINE];
      Regroup3(junk[0], line, more, rest);
      ReceiveAfterJunk(junk[0], ps[0], more + rest);
      var later := ps[1..];
      PacketsRoundTrip(junk[1..], later, rest);
      OneMore(|later|, |ps|, Input(junk, ps) + rest);
      assert ps == [ps[0]] + later;
    }
  }

  // ---------- the lines as they are written ----------

  lemma DataLineIs(g: Guid.Guid, stream: seq<byte>, data: seq<byte>)
    ensures Line(Packet(Ascii("Data"), g, stream, data))
            == Ascii("<Data Stream='") + stream + Ascii("' PSGuid='") + Guid.Format(g) + Ascii("'>")
               + Base64.Encode(data) + Ascii("</Data>")
  {
    var a, b, c := Ascii("<Data Stream='"), Ascii("' PSGuid='"), Ascii("'>");
    Literals();
    assert a == [LT] + (DATA + [SPACE]) + STREAM;
    assert b == [QUOTE, SPACE] + PS_GUID && c == [QUOTE, GT] && Ascii("</Data>") == END_DATA;
    DataPieces([LT] + (DATA + [SPACE]), STREAM, stream, [QUOTE, SPACE], PS_GUID, Guid.Format(g), [QUOTE, GT]);
  }

  lemma DataPieces(a: seq<byte>, b: seq<byte>, stream: seq<byte>, c: seq<byte>, d: seq<byte>, guid: seq<byte>,
                   e: seq<byte>)
    ensures a + (b + stream + c) + (d + guid + e) == a + b + stream + (c + d) + guid + e
  {
  }

  lemma PlainLineIs(name: seq<byte>, g: Guid.Guid)
    requires name != Ascii("Data")
    ensures Line(Packet(name, g, Ascii("Default"), []))
            == Ascii("<") + name + Ascii(" PSGuid='") + Guid.Format(g) + Ascii("' />")
  {
    var b, c := Ascii(" PSGuid='"), Ascii("' />");
    Literals();
    assert Ascii("<") == [LT] && b == [SPACE] + PS_GUID && c == [QUOTE, SPACE, SLASH, GT];
    PlainPieces([LT], name, [SPACE], PS_GUID, Guid.Format(g), c);
  }

  lemma PlainPieces(a: seq<byte>, name: seq<byte>, b: seq<byte>, c: seq<byte>, guid: seq<byte>, d: seq<byte>)
    ensures a + (name + b) + (c + guid + d) == a + name + (b + c) + guid + d
  {
  }

  // ---------- any line ----------

  /** text stands between the first occurrence of a pattern and the next quote. */
  ghost predicate QuotedAt(line: seq<byte>, pat: seq<byte>, i: nat, text: seq<byte>) {
    && OccursAt(line, pat, i) && (forall j :: 0 <= j < i ==> !OccursAt(line, pat, j))
    && text + [0x27] <= line[i + |pat|..] && 0x27 !in text
  }

  ghost predicate Quotes(line: seq<byte>, pat: seq<byte>, text: seq<byte>) {
    exists i: nat :: QuotedAt(line, pat, i, text)
  }

  ghost predicate HasQuoted(line: seq<byte>, pat: seq<byte>) {
    exists text :: Quotes(line, pat, text)
  }

  lemma AttributeIff(line: seq<byte>, pat: seq<byte>, text: seq<byte>)
    ensures Attribute(line, pat) == Some(text) <==> Quotes(line, pat, text)
  {
    if Attribute(line, pat) == Some(text) {
      var at := Index(line, pat).value;
      QuoteIff(line[at + |pat|..], text);
      assert QuotedAt(line, pat, at, text);
    }
    if i: nat :| QuotedAt(line, pat, i, text) {
      AttributeQuoted(line, pat, i, text);
    }
  }

  lemma AttributeQuoted(line: seq<byte>, pat: seq<byte>, i: nat, text: seq<byte>)
    requires QuotedAt(line, pat, i, text)
    ensures Attribute(line, pat) == Some(text)
  {
    IndexIs(line, pat, i);
    QuoteIff(line[i + |pat|..], text);
  }

  lemma AttributeFound(line: seq<byte>, pat: seq<byte>)
    ensures Attribute(line, pat).Some? <==> HasQuoted(line, pat)
  {
    if Attribute(line, pat).Some? {
      AttributeIff(line, pat, Attribute(line, pat).value);
    }
    if text :| Quotes(line, pat, text) {
      AttributeIff(line, pat, text);
    }
  }

  lemma QuoteIff(s: seq<byte>, text: seq<byte>)
    ensures UpToQuote(s) == Some(text) <==> text + [0x27] <= s && 0x27 !in text
  {
    if text + [0x27] <= s && 0x27 !in text {
      var tail := s[|text| + 1..];
      assert s == text + [0x27] + tail;
      FirstByte(text, 0x27, tail);
      FrontOf(text, [0x27], tail);
    }
    if UpToQuote(s) == Some(text) {
      assert s[..|text| + 1] == text + [0x27];
    }
  }

  predicate EndsName(b: byte) {
    b == 0x20 || b == 0x3E || b == 0x2F
  }

  /** The name is what stands before the first space, > or /. */
  predicate NamedBy(line: seq<byte>, name: seq<byte>) {
    name < line && EndsName(line[|name|]) && forall i :: 0 <= i < |name| ==> !EndsName(name[i])
  }

  lemma NameIff(line: seq<byte>, name: seq<byte>)
    ensures NameEnd(line) == Some(|name|) && name <= line <==> NamedBy(line, name)
  {
    FirstOf(line, SPACE);
    FirstOf(line, GT);
    FirstOf(line, SLASH);
    if name <= line {
      assert forall i :: 0 <= i < |name| ==> line[i] == name[i];
    }
  }

  lemma FirstOf(line: seq<byte>, b: byte)
    ensures IndexByte(line, b).Some? ==>
              line[IndexByte(line, b).value] == b && forall j :: 0 <= j < IndexByte(line, b).value ==> line[j] != b
    ensures IndexByte(line, b).None? ==> forall j :: 0 <= j < |line| ==> line[j] != b
  {
    if IndexByte(line, b).Some? {
      var i := IndexByte(line, b).value;
      forall j | 0 <= j < i ensures line[j] != b {
        assert line[..i][j] == line[j];
      }
    }
  }

  /** Where the base64 text ends: before the last end tag, which does not stand right behind the first >. */
  ghost predicate ContentEnds(line: seq<byte>, a: nat, b: nat) {
    && OccursAt(line, Ascii("</Data>"), b) && b > a + 1
    && forall j :: j > b ==> !OccursAt(line, Ascii("</Data>"), j)
  }

  /** The data of a Data element: base64 behind its first >, or nothing. */
  ghost predicate Holds(line: seq<byte>, a: nat, data: seq<byte>) {
    && a < |line| && line[a] == 0x3E && 0x3E !in line[..a]
    && (if exists b: nat :: ContentEnds(line, a, b) then
          exists b: nat :: ContentEnds(line, a, b) && Base64.Decode(line[a + 1..b]) == Some(data)
        else data == [])
  }

  lemma NotInFront(line: seq<byte>, a: nat, b: byte, i: nat)
    requires a <= |line| && i < |line| && line[i] == b
    ensures a <= i || b in line[..a]
  {
    if i < a {
      assert line[..a][i] == b;
    }
  }

  lemma ContentIff(line: seq<byte>, data: seq<byte>)
    ensures Content(line, Ascii("</Data>")) == Ok(data) <==> exists a: nat :: Holds(line, a, data)
  {
    var start, end := IndexByte(line, 0x3E), LastIndex(line, Ascii("</Data>"));
    if start.Some? {
      forall a: nat | a < |line| && line[a] == 0x3E && 0x3E !in line[..a] ensures a == start.value {
        FirstOf(line, 0x3E);
        NotInFront(line, a, 0x3E, start.value);
      }
      if end.Some? && end.value > start.value + 1 {
        assert ContentEnds(line, start.value, end.value);
      }
      assert forall b: nat :: ContentEnds(line, start.value, b) ==> end == Some(b);
      assert Content(line, Ascii("</Data>")) == Ok(data) <==> Holds(line, start.value, data);
    }
  }

  /** The null GUID where none is quoted. */
  ghost predicate SaysGuid(line: seq<byte>, g: Guid.Guid) {
    if HasQuoted(line, Ascii("PSGuid='")) then
      exists text :: Quotes(line, Ascii("PSGuid='"), text) && Guid.Parse(text) == Some(g)
    else g == seq(16, _ => 0)
  }

  /** Default where no stream is quoted. */
  ghost predicate SaysStream(line: seq<byte>, stream: seq<byte>) {
    if HasQuoted(line, Ascii("Stream='")) then Quotes(line, Ascii("Stream='"), stream) else stream == Ascii("Default")
  }

  ghost predicate SaysData(line: seq<byte>, data: seq<byte>) {
    exists a: nat :: Holds(line, a, data)
  }

  /** What a line says behind its first bracket. */
  ghost predicate IsPacket(line: seq<byte>, p: Packet) {
    && NamedBy(line, p.packetType) && SaysGuid(line, p.psGuid) && SaysStream(line, p.stream)
    && if p.packetType == Ascii("Data") then SaysData(line, p.data) else p.data == []
  }

  lemma GuidIff(line: seq<byte>, g: Guid.Guid)
    ensures GuidOf(line) == Some(g) <==> SaysGuid(line, g)
  {
    var pat := Ascii("PSGuid='");
    AttributeFound(line, pat);
    if Attribute(line, pat).Some? {
      AttributeIff(line, pat, Attribute(line, pat).value);
    }
    forall text | Quotes(line, pat, text) ensures Attribute(line, pat) == Some(text) {
      AttributeIff(line, pat, text);
    }
  }

  lemma StreamIff(line: seq<byte>, stream: seq<byte>)
    ensures StreamOf(line) == stream <==> SaysStream(line, stream)
  {
    AttributeFound(line, Ascii("Stream='"));
    AttributeIff(line, Ascii("Stream='"), stream);
  }

  lemma NameFound(line: seq<byte>, p: Packet)
    ensures NamedBy(line, p.packetType) <==> NameEnd(line).Some? && line[..NameEnd(line).value] == p.packetType
  {
    NameIff(line, p.packetType);
    if NameEnd(line).Some? {
      NameIff(line, line[..NameEnd(line).value]);
    }
  }

  lemma ElementIff(line: seq<byte>, p: Packet)
    ensures ParseElement(line, p.packetType) == Ok(p)
            <==> && SaysGuid(line, p.psGuid) && SaysStream(line, p.stream)
                 && if p.packetType == Ascii("Data") then SaysData(line, p.data) else p.data == []
  {
    ElementParts(line, p);
    GuidIff(line, p.psGuid);
    StreamIff(line, p.stream);
    ContentIff(line, p.data);
  }

  lemma ElementParts(line: seq<byte>, p: Packet)
    ensures ParseElement(line, p.packetType) == Ok(p)
            <==> && GuidOf(line) == Some(p.psGuid) && StreamOf(line) == p.stream
                 && if p.packetType == Ascii("Data") then Content(line, Ascii("</Data>")) == Ok(p.data)
                    else p.data == []
  {
    Literals();
    assert [LT, SLASH] + DATA + [GT] == Ascii("</Data>");
  }

  /** A text parses as a packet exactly when it begins with a bracket, is long enough, and says so. */
  lemma ParseIff(text: seq<byte>, p: Packet)
    ensures ParseTrimmed(text) == Ok(p) <==> |text| >= 5 && text[0] == 0x3C && IsPacket(text[1..], p)
  {
    if |text| >= 5 && text[0] == 0x3C {
      NameFound(text[1..], p);
      ElementIff(text[1..], p);
    }
  }
}
