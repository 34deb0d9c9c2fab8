/** Socket framing (`aochat/protocol.py`): packets written to and read from a byte
    stream. The stream a reader holds is everything the peer sent before closing. */
module Protocol {
  import opened Wrappers
  import opened Bytes
  import P = Packet
  import PacketLaws

  datatype InboundPacket = InboundPacket(packetType: nat, args: seq<P.Arg>)

  /** `asyncio.IncompleteReadError`, or an exception of the codec. */
  datatype Error = IncompleteRead | Codec(error: P.Error)

  /** A packet as it stands in the stream: type and payload. */
  datatype Frame = Frame(packetType: nat, payload: bytes)

  predicate FitsFrame(f: Frame) {
    f.packetType < 0x1_0000 && |f.payload| < 0x1_0000
  }

  /** `encode_header` and the payload after it. */
  function FrameBytes(f: Frame): (b: bytes)
    requires FitsFrame(f)
    ensures |b| == 4 + |f.payload|
  {
    Pack16(f.packetType) + Pack16(|f.payload|) + f.payload
  }

  /** Type and length, each of two bytes, the more significant first. */
  lemma FrameLayout(f: Frame)
    requires FitsFrame(f)
    ensures FrameBytes(f)[..4] ==
      [f.packetType / 0x100, f.packetType % 0x100, |f.payload| / 0x100, |f.payload| % 0x100]
    ensures FrameBytes(f)[4..] == f.payload
  {}

  /** The first frame of a stream and what follows it; None where `readexactly` fails. */
  function ReadFrame(s: bytes): (r: Option<(Frame, bytes)>)
    ensures r.Some? ==> FitsFrame(r.value.0) && |r.value.1| < |s|
  {
    if |s| < 4 then None else
      var length := Unpack16(s[2..4]);
      if |s| < 4 + length then None else Some((Frame(Unpack16(s[..2]), s[4..4 + length]), s[4 + length..]))
  }

  /** The schema-driven reading of a frame (`decode_packet`). */
  function DecodeFrame(f: Frame): Result<InboundPacket, Error> {
    match P.InSchema(f.packetType)
    case None => Err(Codec(P.KeyError))
    case Some(schema) =>
      match P.Decode(schema, f.payload)
      case Err(e) => Err(Codec(e))
      case Ok(args) => Ok(InboundPacket(f.packetType, args))
  }

  /** The packet `encode_packet` builds, or the exception it raises. */
  function EncodeFrame(packetType: nat, args: seq<P.Arg>): (r: Result<Frame, P.Error>)
    ensures r.Ok? ==> FitsFrame(r.value) && r.value.packetType == packetType
    ensures r.Ok? ==> P.OutSchema(packetType).Some? &&
                      P.Pack(P.OutSchema(packetType).value, args) == Ok(r.value.payload)
  {
    match P.OutSchema(packetType)
    case None => Err(P.KeyError)
    case Some(schema) =>
      match P.Pack(schema, args)
      case Err(e) => Err(e)
      case Ok(payload) => if |payload| < 0x1_0000 then Ok(Frame(packetType, payload)) else Err(P.StructError)
  }

  /** The arguments of a decoded packet are of the number and kinds that the login dialogue
      and the dispatcher take them apart into; packets of other types do not decode. */
  lemma InboundShapes(f: Frame)
    ensures DecodeFrame(f) == Err(Codec(P.KeyError)) <==> f.packetType !in {0, 5, 6, 7, 20, 21, 30, 40, 55, 56, 57, 100}
    ensures DecodeFrame(f).Ok? ==>
      var packet := DecodeFrame(f).value;
      var args := packet.args;
      && packet.packetType == f.packetType
      && P.InSchema(f.packetType).Some? && P.Decode(P.InSchema(f.packetType).value, f.payload) == Ok(args)
      && (f.packetType in {0, 6, 100} ==> |args| == 1 && args[0].Str?)
      && (f.packetType == 5 ==> args == [])
      && (f.packetType == 7 ==> |args| == 4 && args[0].Nums? && args[1].Strs? && args[2].Nums? && args[3].Nums?)
      && (f.packetType in {20, 21} ==> |args| == 2 && args[0].Num? && args[1].Str?)
      && (f.packetType == 30 ==> |args| == 3 && args[0].Num? && args[1].Str? && args[2].Str?)
      && (f.packetType == 40 ==> |args| == 3 && args[0].Num? && args[1].Num? && args[2].Str?)
      && (f.packetType in {55, 56} ==> |args| == 2 && args[0].Num? && args[1].Num?)
      && (f.packetType == 57 ==> |args| == 4 && args[0].Num? && args[1].Num? && args[2].Str? && args[3].Str?)
  {
    hide P.DecodeFrom;
    var schema := P.InSchema(f.packetType);
    if schema.Some? {
      PacketLaws.NoKeyError(schema.value, f.payload, 0);
      if P.DecodeFrom(schema.value, f.payload, 0).Ok? {
        PacketLaws.DecodedShape(schema.value, f.payload, 0);
      }
    }
  }

  /** The payloads of what the client sends: the login request, the selected character, a
      name to look up, a tell, a buddy, a message to a private group, a ping. */
  lemma OutboundPayloads(n: nat, s: bytes, t: bytes)
    requires n < 0x1_0000_0000 && |s| < 0x1_0000 && |t| < 0x1_0000
    ensures (forall packetType | packetType in {2, 30, 57} ::
      PacksAs(packetType, [P.Num(n), P.Str(s), P.Str(t)], Pack32(n) + (Pack16(|s|) + s + (Pack16(|t|) + t))))
    ensures PacksAs(40, [P.Num(n), P.Str(s)], Pack32(n) + (Pack16(|s|) + s))
    ensures PacksAs(3, [P.Num(n)], Pack32(n))
    ensures PacksAs(21, [P.Str(s)], Pack16(|s|) + s) && PacksAs(100, [P.Str(s)], Pack16(|s|) + s)
  {
    hide Pack16, Pack32, P.Pack;
    P.PackOneString(s);
    P.PackTwoStrings(s, t);
    P.PackNumStrs(n, [P.Str(s), P.Str(t)], Pack16(|s|) + s + (Pack16(|t|) + t), "SS");
    P.PackNumStrs(n, [P.Str(s)], Pack16(|s|) + s, "S");
    P.NothingToPack([]);
    P.PackNumStrs(n, [], [], "");
    assert [P.Num(n)] + [P.Str(s), P.Str(t)] == [P.Num(n), P.Str(s), P.Str(t)];
    assert [P.Num(n)] + [P.Str(s)] == [P.Num(n), P.Str(s)];
    assert [P.Num(n)] + [] == [P.Num(n)] && Pack32(n) + [] == Pack32(n);
    assert "I" + "SS" == "ISS" && "I" + "S" == "IS" && "I" + "" == "I";
  }

  predicate PacksAs(packetType: nat, args: seq<P.Arg>, payload: bytes) {
    P.OutSchema(packetType).Some? && P.Pack(P.OutSchema(packetType).value, args) == Ok(payload)
  }

  class AOChatConnection {
    var reader: bytes
    var writer: bytes

    constructor (incoming: bytes)
      ensures reader == incoming && writer == []
    {
      reader := incoming;
      writer := [];
    }

    /** `read_packet`. A failing `readexactly` at the end of the stream drops what is left. */
    method ReadPacket() returns (r: Result<InboundPacket, Error>)
      modifies this`reader
      ensures
        match ReadFrame(old(reader))
        case None => r == Err(IncompleteRead) && reader == []
        case Some((frame, rest)) => r == DecodeFrame(frame) && reader == rest
    {
      if |reader| < 4 {
        reader := [];
        return Err(IncompleteRead);
      }
      var header := reader[..4];
      reader := reader[4..];
      var ptype, plen := Unpack16(header[..2]), Unpack16(header[2..]);
      assert header[..2] == old(reader)[..2] && header[2..] == old(reader)[2..4];
      var payload: bytes := [];
      if plen != 0 {
        if |reader| < plen {
          reader := [];
          return Err(IncompleteRead);
        }
        payload := reader[..plen];
        reader := reader[plen..];
      }
      assert payload == old(reader)[4..4 + plen] && reader == old(reader)[4 + plen..];
      var args := P.DecodeArgs(ptype, payload);
      return match args case Ok(a) => Ok(InboundPacket(ptype, a)) case Err(e) => Err(Codec(e));
    }

    /** `send_packet`: nothing is written when encoding raises. */
    method SendPacket(packetType: nat, args: seq<P.Arg>) returns (r: Result<(), P.Error>)
      modifies this`writer
      ensures
        match EncodeFrame(packetType, args)
        case Err(e) => r == Err(e) && writer == old(writer)
        case Ok(frame) => r == Ok(()) && writer == old(writer) + FrameBytes(frame)
    {
      var payload := P.EncodeArgs(packetType, args);
      if payload.Err? {
        return Err(payload.error);
      }
      if |payload.value| >= 0x1_0000 {
        return Err(P.StructError);
      }
      writer := writer + (Pack16(packetType) + Pack16(|payload.value|) + payload.value);
      return Ok(());
    }
  }

  // ---- streams of packets ----

  predicate FitsAll(frames: seq<Frame>) {
    forall i | 0 <= i < |frames| :: FitsFrame(frames[i])
  }

  function Stream(frames: seq<Frame>): bytes
    requires FitsAll(frames)
  {
    if frames == [] then [] else FrameBytes(frames[0]) + Stream(frames[1..])
  }

  /** All the frames read until `readexactly` fails, and the bytes that are left then. */
  function ReadAll(s: bytes): (seq<Frame>, bytes)
    decreases |s|
  {
    match ReadFrame(s)
    case None => ([], s)
    case Some((f, rest)) =>
      var (more, left) := ReadAll(rest);
      ([f] + more, left)
  }

  lemma ReadFrameBytes(f: Frame, rest: bytes)
    requires FitsFrame(f)
    ensures ReadFrame(FrameBytes(f) + rest) == Some((f, rest))
  {
    var s := FrameBytes(f) + rest;
    assert s[..2] == Pack16(f.packetType) && s[2..4] == Pack16(|f.payload|);
    Pack16Inverse(f.packetType);
    Pack16Inverse(|f.payload|);
    assert s[4..4 + |f.payload|] == f.payload && s[4 + |f.payload|..] == rest;
  }

  lemma ReadFrameShort(f: Frame, cut: nat)
    requires FitsFrame(f) && cut < 4 + |f.payload|
    ensures ReadFrame(FrameBytes(f)[..cut]) == None
  {
    var b := FrameBytes(f);
    if cut >= 4 {
      assert b[..cut][2..4] == Pack16(|f.payload|);
      Pack16Inverse(|f.payload|);
    }
  }

  /** How many of the frames lie wholly inside the first `cut` bytes of their stream. */
  function Whole(frames: seq<Frame>, cut: nat): (k: nat)
    ensures k <= |frames|
  {
    if frames == [] || cut < 4 + |frames[0].payload| then 0 else 1 + Whole(frames[1..], cut - 4 - |frames[0].payload|)
  }

  lemma CutOfConcat(a: bytes, b: bytes, cut: nat)
    requires cut <= |a| + |b|
    ensures (a + b)[..cut] == if cut < |a| then a[..cut] else a + b[..cut - |a|]
  {}

  lemma ReadAllStep(f: Frame, rest: bytes)
    requires FitsFrame(f)
    ensures ReadAll(FrameBytes(f) + rest) == ([f] + ReadAll(rest).0, ReadAll(rest).1)
  {
    hide FrameBytes, ReadFrame;
    ReadFrameBytes(f, rest);
  }

  lemma ReadAllShort(f: Frame, cut: nat)
    requires FitsFrame(f) && cut < 4 + |f.payload|
    ensures ReadAll(FrameBytes(f)[..cut]) == ([], FrameBytes(f)[..cut])
  {
    hide FrameBytes, ReadFrame;
    ReadFrameShort(f, cut);
  }

  lemma StreamUnfold(frames: seq<Frame>, cut: nat)
    requires FitsAll(frames) && frames != []
    ensures FitsFrame(frames[0]) && FitsAll(frames[1..])
    ensures Stream(frames) == FrameBytes(frames[0]) + Stream(frames[1..])
    ensures
      var n := 4 + |frames[0].payload|;
      Whole(frames, cut) == if cut < n then 0 else 1 + Whole(frames[1..], cut - n)
  {
    hide FrameBytes, FitsFrame;
  }

  /** However far the stream got before it ended, the reader sees exactly the frames
      that arrived whole, in order, each with its own type and payload; a stream that
      arrived whole leaves nothing over. */
  lemma {:induction false} ReadAllOfStream(frames: seq<Frame>, cut: nat)
    requires FitsAll(frames) && cut <= |Stream(frames)|
    ensures ReadAll(Stream(frames)[..cut]).0 == frames[..Whole(frames, cut)]
    ensures cut == |Stream(frames)| ==> Whole(frames, cut) == |frames| && ReadAll(Stream(frames)[..cut]).1 == []
  {
    hide *;
    if frames == [] {
      NoFrames(frames, cut);
    } else {
      StreamUnfold(frames, cut);
      var f, rest := frames[0], Stream(frames[1..]);
      var n := 4 + |f.payload|;
      CutOfConcat(FrameBytes(f), rest, cut);
      if cut < n {
        ReadAllShort(f, cut);
      } else {
        ReadAllStep(f, rest[..cut - n]);
        ReadAllOfStream(frames[1..], cut - n);
        FirstAndMore(frames, Whole(frames[1..], cut - n));
      }
    }
  }

  lemma NoFrames(frames: seq<Frame>, cut: nat)
    requires frames == []
    ensures FitsAll(frames) && Stream(frames) == [] && Whole(frames, cut) == 0 && ReadAll([]) == ([], [])
  {}

  lemma FirstAndMore<T>(xs: seq<T>, k: nat)
    requires k < |xs|
    ensures [xs[0]] + xs[1..][..k] == xs[..k + 1]
  {}

  lemma OutSchemasCodes(packetType: nat)
    requires P.OutSchema(packetType).Some?
    ensures packetType < 0x1_0000 && P.OutCodes(P.OutSchema(packetType).value)
  {}

  /** A packet whose type has the same schema in both directions comes back as it was sent. */
  lemma SendThenRead(packetType: nat, args: seq<P.Arg>, rest: bytes)
    requires P.OutSchema(packetType).Some? && P.InSchema(packetType) == P.OutSchema(packetType)
    requires P.Fits(P.OutSchema(packetType).value, args)
    requires |P.Encode(P.OutSchema(packetType).value, args)| < 0x1_0000
    ensures
      var sent := EncodeFrame(packetType, args);
      && sent.Ok?
      && ReadFrame(FrameBytes(sent.value) + rest) == Some((sent.value, rest))
      && DecodeFrame(sent.value) == Ok(InboundPacket(packetType, args))
  {
    hide P.Encode, P.Decode, P.Pack, P.Fits, FrameBytes, ReadFrame;
    var schema := P.OutSchema(packetType).value;
    OutSchemasCodes(packetType);
    P.PackIsEncode(schema, args);
    PacketLaws.DecodeEncode(schema, args);
    ReadFrameBytes(Frame(packetType, P.Encode(schema, args)), rest);
  }
}
