/** MS-PSRP section 2.2.1: messages and their 40-byte header. */
module Messages {
  import opened Wrappers
  import opened Bytes
  import opened Sequences
  import opened Guid

  const HEADER_SIZE := 40

  // The types that the runspace pool and the pipelines tell apart.
  const SESSION_CAPABILITY: uint32 := 0x00010002
  const APPLICATION_PRIVATE_DATA: uint32 := 0x00021009
  const RUNSPACE_POOL_STATE: uint32 := 0x00021005
  const RUNSPACE_POOL_INIT_DATA: uint32 := 0x0002100B
  const RUNSPACE_HOST_CALL: uint32 := 0x00021100
  const PIPELINE_OUTPUT: uint32 := 0x00041004
  const ERROR_RECORD: uint32 := 0x00041005
  const PIPELINE_STATE: uint32 := 0x00041006
  const DEBUG_RECORD: uint32 := 0x00041007
  const VERBOSE_RECORD: uint32 := 0x00041008
  const WARNING_RECORD: uint32 := 0x00041009
  const PROGRESS_RECORD: uint32 := 0x00041010
  const INFORMATION_RECORD: uint32 := 0x00041011

  datatype Message = Message(destination: uint32, messageType: uint32, runspaceId: Guid, pipelineId: Guid,
                             data: seq<byte>)

  /**
   A GUID as .NET lays it out: its first three fields, which RFC 4122 (section 4.1.2) writes most
   significant byte first, are written least significant byte first; the other eight bytes stay.
   */
  function NetGuid(g: Guid): (s: Guid) {
    LittleEndian(FromBigEndian(g[0..4]), 4) + (LittleEndian(FromBigEndian(g[4..6]), 2)
      + (LittleEndian(FromBigEndian(g[6..8]), 2) + g[8..16]))
  }

  function Reversed(s: seq<byte>): seq<byte> {
    if s == [] then [] else [s[|s| - 1]] + Reversed(s[..|s| - 1])
  }

  /** The same number in the other byte order is the bytes reversed. */
  lemma {:induction false} SwapBytes(s: seq<byte>)
    ensures LittleEndian(FromBigEndian(s), |s|) == Reversed(s)
    decreases |s|
  {
    if s != [] {
      var k := |s| - 1;
      var front := s[..k];
      SwapBytes(front);
      LowestFirst(FromBigEndian(front), s[k], k, |s|);
    }
  }

  lemma LowestFirst(high: nat, low: byte, k: nat, n: nat)
    requires n == k + 1
    ensures LittleEndian(high * 256 + low, n) == [low] + LittleEndian(high, k)
  {
    assert (high * 256 + low) / 256 == high && (high * 256 + low) % 256 == low;
  }

  lemma SwapFour(a: byte, b: byte, c: byte, d: byte)
    ensures LittleEndian(FromBigEndian([a, b, c, d]), 4) == [d, c, b, a]
  {
    var s := [a, b, c, d];
    SwapBytes(s);
    assert s[..3] == [a, b, c] && [a, b, c][..2] == [a, b] && [a, b][..1] == [a] && [a][..0] == [];
    assert Reversed([a]) == [a] && Reversed([a, b]) == [b] + Reversed([a]);
    assert Reversed([a, b, c]) == [c] + Reversed([a, b]) && Reversed(s) == [d] + Reversed([a, b, c]);
  }

  lemma SwapTwo(a: byte, b: byte)
    ensures LittleEndian(FromBigEndian([a, b]), 2) == [b, a]
  {
    SwapBytes([a, b]);
    assert [a, b][..1] == [a] && [a][..0] == [];
    assert Reversed([a]) == [a] && Reversed([a, b]) == [b] + Reversed([a]);
  }

  lemma NetGuidBytes(g: Guid)
    ensures NetGuid(g) == [g[3], g[2], g[1], g[0], g[5], g[4], g[7], g[6], g[8], g[9], g[10], g[11], g[12], g[13],
                           g[14], g[15]]
  {
    SwapFour(g[0], g[1], g[2], g[3]);
    SwapTwo(g[4], g[5]);
    SwapTwo(g[6], g[7]);
    assert g[0..4] == [g[0], g[1], g[2], g[3]] && g[4..6] == [g[4], g[5]] && g[6..8] == [g[6], g[7]];
    assert g[8..16] == [g[8], g[9], g[10], g[11], g[12], g[13], g[14], g[15]];
  }

  /** The change of layout is its own inverse, so no two GUIDs share a layout. */
  lemma NetGuidTwice(g: Guid)
    ensures NetGuid(NetGuid(g)) == g
  {
    NetGuidBytes(g);
    NetGuidBytes(NetGuid(g));
  }

  /** uuidToLittleEndianBytes, and byte for byte also uuidFromLittleEndianBytes. */
  method SwapGuid(u: Guid) returns (b: Guid)
    ensures b == NetGuid(u)
  {
    var buf := new byte[16];
    buf[0], buf[1], buf[2], buf[3] := u[3], u[2], u[1], u[0];
    buf[4], buf[5] := u[5], u[4];
    buf[6], buf[7] := u[7], u[6];
    ghost var front := buf[..8];
    assert front == [u[3], u[2], u[1], u[0], u[5], u[4], u[7], u[6]];
    CopyInto(buf, 8, u[8..]);
    assert buf[..] == front + u[8..] by {
      assert buf[..8] == front && buf[8..8 + 8] == u[8..];
    }
    NetGuidBytes(u);
    b := buf[..];
  }

  function Encoded(m: Message): (s: seq<byte>)
    ensures |s| == HEADER_SIZE + |m.data|
  {
    LittleEndian(m.destination, 4)
        + (LittleEndian(m.messageType, 4) + (NetGuid(m.runspaceId) + (NetGuid(m.pipelineId) + m.data)))
  }

  method Encode(m: Message) returns (r: seq<byte>)
    ensures r == Encoded(m)
  {
    var buf := new byte[HEADER_SIZE + |m.data|];
    PutLittleEndian(buf, 0, 4, m.destination);
    PutLittleEndian(buf, 4, 4, m.messageType);
    var rpid := SwapGuid(m.runspaceId);
    var pid := SwapGuid(m.pipelineId);
    ghost var numbers := buf[..8];
    assert numbers == LittleEndian(m.destination, 4) + LittleEndian(m.messageType, 4) by {
      assert numbers[..4] == buf[..4] && numbers[4..] == buf[4..8];
    }
    CopyInto(buf, 8, rpid);
    assert buf[..24] == numbers + rpid by {
      assert buf[..8] == numbers && buf[8..8 + 16] == rpid;
    }
    ghost var front := buf[..24];
    CopyInto(buf, 24, pid);
    assert buf[..40] == front + pid by {
      assert buf[..24] == front && buf[24..24 + 16] == pid;
    }
    ghost var header := buf[..40];
    CopyInto(buf, 40, m.data);
    assert buf[..] == header + m.data by {
      assert buf[..40] == header && buf[40..40 + |m.data|] == m.data;
    }
    Flat4(LittleEndian(m.destination, 4), LittleEndian(m.messageType, 4), rpid, pid, m.data);
    r := buf[..];
  }

  /** Decode: anything of at least 40 bytes. */
  function Decode(s: seq<byte>): (r: Option<Message>)
    ensures r.Some? <==> |s| >= HEADER_SIZE
  {
    if |s| < HEADER_SIZE then None
    else
      FromLittleEndianRoundTrip(s[0..4]);
      FromLittleEndianRoundTrip(s[4..8]);
      Pow256Values();
      Some(Message(FromLittleEndian(s[0..4]), FromLittleEndian(s[4..8]), NetGuid(s[8..24]), NetGuid(s[24..40]),
                   s[40..]))
  }

  lemma EncodedFields(m: Message)
    ensures var s := Encoded(m);
            && s[0..4] == LittleEndian(m.destination, 4) && s[4..8] == LittleEndian(m.messageType, 4)
            && s[8..24] == NetGuid(m.runspaceId) && s[24..40] == NetGuid(m.pipelineId) && s[40..] == m.data
  {
    var s := Encoded(m);
    assert s[4..] == LittleEndian(m.messageType, 4) + (NetGuid(m.runspaceId) + (NetGuid(m.pipelineId) + m.data));
    assert s[8..] == NetGuid(m.runspaceId) + (NetGuid(m.pipelineId) + m.data);
    assert s[24..] == NetGuid(m.pipelineId) + m.data;
  }

  lemma DecodeEncoded(m: Message)
    ensures Decode(Encoded(m)) == Some(m)
  {
    EncodedFields(m);
    Pow256Values();
    LittleEndianRoundTrip(m.destination, 4);
    LittleEndianRoundTrip(m.messageType, 4);
    NetGuidTwice(m.runspaceId);
    NetGuidTwice(m.pipelineId);
  }

  /** Every byte string long enough is the encoding of exactly one message. */
  lemma EncodedDecode(s: seq<byte>)
    requires Decode(s).Some?
    ensures Encoded(Decode(s).value) == s
  {
    FromLittleEndianRoundTrip(s[0..4]);
    FromLittleEndianRoundTrip(s[4..8]);
    NetGuidTwice(s[8..24]);
    NetGuidTwice(s[24..40]);
    InParts(s);
  }

  lemma InParts(s: seq<byte>)
    requires |s| >= HEADER_SIZE
    ensures s == s[0..4] + (s[4..8] + (s[8..24] + (s[24..40] + s[40..])))
  {
  }
}
