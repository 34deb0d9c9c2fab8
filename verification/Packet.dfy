/** The argument codecs of `aochat/packet.py`. The encoder for inbound schemas
    (`Encode`) is the server's and exists here as specification only. */
module Packet {
  import opened Wrappers
  import opened Bytes

  /** A packet argument: a number, a byte string, a list of numbers, a list of byte strings. */
  datatype Arg = Num(n: int) | Str(s: bytes) | Nums(ns: seq<nat>) | Strs(ss: seq<bytes>)

  datatype Error = KeyError | IndexError | StructError | ValueError | TypeError

  /** `IN_SCHEMAS`. */
  function InSchema(packetType: nat): Option<string> {
    match packetType
    case 0 => Some("S")
    case 5 => Some("")
    case 6 => Some("S")
    case 7 => Some("isii")
    case 20 => Some("IS")
    case 21 => Some("IS")
    case 30 => Some("ISS")
    case 40 => Some("IIS")
    case 55 => Some("II")
    case 56 => Some("II")
    case 57 => Some("IISS")
    case 100 => Some("S")
    case _ => None
  }

  /** `OUT_SCHEMAS`. */
  function OutSchema(packetType: nat): Option<string> {
    match packetType
    case 2 => Some("ISS")
    case 3 => Some("I")
    case 21 => Some("S")
    case 30 => Some("ISS")
    case 40 => Some("IS")
    case 57 => Some("ISS")
    case 100 => Some("S")
    case _ => None
  }

  predicate IsCode(c: char) {
    c == 'I' || c == 'S' || c == 'i' || c == 's'
  }

  // ---- well-formed payloads ----

  /** The schema code an argument belongs to. */
  function CodeOf(a: Arg): char {
    match a
    case Num(_) => 'I'
    case Str(_) => 'S'
    case Nums(_) => 'i'
    case Strs(_) => 's'
  }

  /** Every number and every length fits its field. */
  predicate Packs(a: Arg) {
    match a
    case Num(n) => 0 <= n < 0x1_0000_0000
    case Str(s) => |s| < 0x1_0000
    case Nums(ns) => |ns| < 0x1_0000 && forall i | 0 <= i < |ns| :: ns[i] < 0x1_0000_0000
    case Strs(ss) => |ss| < 0x1_0000 && forall i | 0 <= i < |ss| :: |ss[i]| < 0x1_0000
  }

  predicate FitsOne(code: char, a: Arg) {
    code == CodeOf(a) && Packs(a)
  }

  predicate Fits(schema: string, args: seq<Arg>) {
    |schema| == |args| && forall i | 0 <= i < |args| :: FitsOne(schema[i], args[i])
  }

  function PackStr(s: bytes): bytes
    requires |s| < 0x1_0000
  {
    Pack16(|s|) + s
  }

  function PackNums(ns: seq<nat>): (b: bytes)
    requires forall i | 0 <= i < |ns| :: ns[i] < 0x1_0000_0000
    ensures |b| == 4 * |ns|
  {
    if ns == [] then [] else Pack32(ns[0]) + PackNums(ns[1..])
  }

  function PackStrs(ss: seq<bytes>): bytes
    requires forall i | 0 <= i < |ss| :: |ss[i]| < 0x1_0000
  {
    if ss == [] then [] else PackStr(ss[0]) + PackStrs(ss[1..])
  }

  function EncodeOne(code: char, a: Arg): (b: bytes)
    requires FitsOne(code, a)
    ensures |b| >= 2
  {
    match a
    case Num(n) => Pack32(n)
    case Str(s) => PackStr(s)
    case Nums(ns) => Pack16(|ns|) + PackNums(ns)
    case Strs(ss) => Pack16(|ss|) + PackStrs(ss)
  }

  function Encode(schema: string, args: seq<Arg>): bytes
    requires Fits(schema, args)
  {
    if schema == "" then [] else EncodeOne(schema[0], args[0]) + Encode(schema[1..], args[1..])
  }

  // ---- decoding ----

  /** `struct.unpack_from(">H", data, offset)`: None where it raises. */
  function U16(data: bytes, offset: nat): Option<nat> {
    if offset + 2 <= |data| then Some(Unpack16(data[offset..offset + 2])) else None
  }

  /** `struct.unpack_from(">I", data, offset)`. */
  function U32(data: bytes, offset: nat): Option<nat> {
    if offset + 4 <= |data| then Some(Unpack32(data[offset..offset + 4])) else None
  }

  /** Python's `data[offset : offset + length]`, which never fails: it is cut at the end. */
  function Slice(data: bytes, offset: nat, length: nat): bytes {
    if offset >= |data| then []
    else if offset + length >= |data| then data[offset..]
    else data[offset..offset + length]
  }

  function DecodeNums(count: nat, data: bytes, offset: nat): (ns: seq<nat>)
    requires offset + 4 * count <= |data|
    ensures |ns| == count
  {
    if count == 0 then [] else [Unpack32(data[offset..offset + 4])] + DecodeNums(count - 1, data, offset + 4)
  }

  /** The result of reading on after `values` have been read. */
  function Onto<T>(values: seq<T>, r: Option<(seq<T>, nat)>): Option<(seq<T>, nat)> {
    match r
    case None => None
    case Some((rest, end)) => Some((values + rest, end))
  }

  lemma OntoUnits<T>(values: seq<T>, r: Option<(seq<T>, nat)>, end: nat)
    ensures Onto([], r) == r && Onto(values, Some(([], end))) == Some((values, end))
  {
    assert r.Some? ==> [] + r.value.0 == r.value.0;
    assert values + [] == values;
  }

  lemma OntoAssociates<T>(values: seq<T>, v: T, r: Option<(seq<T>, nat)>)
    ensures Onto(values, Onto([v], r)) == Onto(values + [v], r)
  {
    if r.Some? {
      assert values + ([v] + r.value.0) == values + [v] + r.value.0;
    }
  }

  function DecodeStrs(count: nat, data: bytes, offset: nat): Option<(seq<bytes>, nat)> {
    if count == 0 then Some(([], offset)) else
      match U16(data, offset)
      case None => None
      case Some(n) => Onto([Slice(data, offset + 2, n)], DecodeStrs(count - 1, data, offset + 2 + n))
  }

  /** One argument and the offset after it, or the exception. */
  function DecodeOne(code: char, data: bytes, offset: nat): Result<(Arg, nat), Error> {
    if code == 'I' then
      match U32(data, offset)
      case None => Err(StructError)
      case Some(n) => Ok((Num(n), offset + 4))
    else if code == 'S' || code == 'i' || code == 's' then
      match U16(data, offset)
      case None => Err(StructError)
      case Some(n) =>
        if code == 'S' then
          Ok((Str(Slice(data, offset + 2, n)), offset + 2 + n))
        else if code == 'i' then
          if offset + 2 + 4 * n > |data| then Err(StructError)
          else Ok((Nums(DecodeNums(n, data, offset + 2)), offset + 2 + 4 * n))
        else
          match DecodeStrs(n, data, offset + 2)
          case None => Err(StructError)
          case Some((ss, end)) => Ok((Strs(ss), end))
    else Err(ValueError)
  }

  /** The result of decoding on after `args` have been decoded. */
  function Then(args: seq<Arg>, r: Result<(seq<Arg>, nat), Error>): Result<(seq<Arg>, nat), Error> {
    match r
    case Err(e) => Err(e)
    case Ok((rest, end)) => Ok((args + rest, end))
  }

  lemma ThenUnits(args: seq<Arg>, r: Result<(seq<Arg>, nat), Error>, end: nat)
    ensures Then([], r) == r && Then(args, Ok(([], end))) == Ok((args, end))
  {
    assert r.Ok? ==> [] + r.value.0 == r.value.0;
    assert args + [] == args;
  }

  lemma ThenAssociates(args: seq<Arg>, a: Arg, r: Result<(seq<Arg>, nat), Error>)
    ensures Then(args, Then([a], r)) == Then(args + [a], r)
  {
    if r.Ok? {
      assert args + ([a] + r.value.0) == args + [a] + r.value.0;
    }
  }

  /** The arguments read from an offset on, and the offset after them. */
  function DecodeFrom(schema: string, data: bytes, offset: nat): Result<(seq<Arg>, nat), Error> {
    if schema == "" then Ok(([], offset)) else
      match DecodeOne(schema[0], data, offset)
      case Err(e) => Err(e)
      case Ok((a, next)) => Then([a], DecodeFrom(schema[1..], data, next))
  }

  function Decode(schema: string, data: bytes): Result<seq<Arg>, Error> {
    match DecodeFrom(schema, data, 0)
    case Err(e) => Err(e)
    case Ok((args, _)) => Ok(args)
  }

  // ---- the source's loops ----

  method ReadNums(count: nat, data: bytes, offset: nat) returns (values: seq<nat>)
    requires offset + 4 * count <= |data|
    ensures values == DecodeNums(count, data, offset)
  {
    values := [];
    for i := 0 to count
      invariant DecodeNums(count, data, offset) == values + DecodeNums(count - i, data, offset + 4 * i)
    {
      values := values + [Unpack32(data[offset + 4 * i..offset + 4 * i + 4])];
    }
  }

  method ReadStrs(count: nat, data: bytes, start: nat) returns (r: Option<(seq<bytes>, nat)>)
    ensures r == DecodeStrs(count, data, start)
  {
    var values: seq<bytes>, offset: nat := [], start;
    OntoUnits(values, DecodeStrs(count, data, start), 0);
    for i := 0 to count
      invariant DecodeStrs(count, data, start) == Onto(values, DecodeStrs(count - i, data, offset))
    {
      var slen := U16(data, offset);
      if slen == None {
        return None;
      }
      offset := offset + 2;
      var value := Slice(data, offset, slen.value);
      OntoAssociates(values, value, DecodeStrs(count - i - 1, data, offset + slen.value));
      values := values + [value];
      offset := offset + slen.value;
    }
    OntoUnits(values, None, offset);
    return Some((values, offset));
  }

  /** The body of the loop of `decode_args`: one argument and the offset after it. */
  method ReadArg(code: char, data: bytes, start: nat) returns (r: Result<(Arg, nat), Error>)
    ensures r == DecodeOne(code, data, start)
  {
    var offset := start;
    if code == 'I' {
      var value := U32(data, offset);
      if value == None {
        return Err(StructError);
      }
      return Ok((Num(value.value), offset + 4));
    }
    if code != 'S' && code != 'i' && code != 's' {
      return Err(ValueError);
    }
    var length := U16(data, offset);
    if length == None {
      return Err(StructError);
    }
    offset := offset + 2;
    if code == 'S' {
      return Ok((Str(Slice(data, offset, length.value)), offset + length.value));
    }
    if code == 'i' {
      if offset + 4 * length.value > |data| {
        return Err(StructError);
      }
      var values := ReadNums(length.value, data, offset);
      return Ok((Nums(values), offset + 4 * length.value));
    }
    var read := ReadStrs(length.value, data, offset);
    if read == None {
      return Err(StructError);
    }
    return Ok((Strs(read.value.0), read.value.1));
  }

  /** `decode_args`, the offset and the argument list moving along the schema. */
  method DecodeArgs(packetType: nat, data: bytes) returns (r: Result<seq<Arg>, Error>)
    ensures r == if InSchema(packetType) == None then Err(KeyError) else Decode(InSchema(packetType).value, data)
  {
    var found := InSchema(packetType);
    if found == None {
      return Err(KeyError);
    }
    var schema := found.value;
    var args: seq<Arg>, offset: nat := [], 0;
    ThenUnits(args, DecodeFrom(schema, data, 0), 0);
    for k := 0 to |schema|
      invariant DecodeFrom(schema, data, 0) == Then(args, DecodeFrom(schema[k..], data, offset))
    {
      assert schema[k..][1..] == schema[k + 1..];
      var step := ReadArg(schema[k], data, offset);
      if step.Err? {
        return Err(step.error);
      }
      var (arg, next) := step.value;
      ThenAssociates(args, arg, DecodeFrom(schema[k + 1..], data, next));
      args := args + [arg];
      offset := next;
    }
    ThenUnits(args, Err(KeyError), offset);
    return Ok(args);
  }

  // ---- encoding ----

  /** The bytes of an argument for code 'S': `value.encode()` or `bytes(value)`. */
  function AsBytes(a: Arg): Result<bytes, Error> {
    match a
    case Str(s) => Ok(s)
    case Num(n) => if n < 0 then Err(ValueError) else Ok(seq(n, _ => 0))
    case Nums(ns) =>
      if exists i | 0 <= i < |ns| :: ns[i] >= 0x100 then Err(ValueError)
      else Ok(seq(|ns|, i requires 0 <= i < |ns| && ns[i] < 0x100 => ns[i]))
    case Strs(ss) => if ss == [] then Ok([]) else Err(TypeError)
  }

  function PackOne(code: char, a: Arg): Result<bytes, Error> {
    if code == 'I' then
      if a.Num? && 0 <= a.n < 0x1_0000_0000 then Ok(Pack32(a.n)) else Err(StructError)
    else if code == 'S' then
      match AsBytes(a)
      case Err(e) => Err(e)
      case Ok(s) => if |s| < 0x1_0000 then Ok(PackStr(s)) else Err(StructError)
    else Err(ValueError)
  }

  /** The arguments packed in schema order, or the first exception; surplus arguments
      are never looked at. */
  function Pack(schema: string, args: seq<Arg>): Result<bytes, Error> {
    if schema == "" then Ok([])
    else if args == [] then Err(IndexError)
    else
      match PackOne(schema[0], args[0])
      case Err(e) => Err(e)
      case Ok(b) =>
        match Pack(schema[1..], args[1..])
        case Err(e) => Err(e)
        case Ok(rest) => Ok(b + rest)
  }

  /** `encode_args`, the remaining arguments popped one by one. */
  method EncodeArgs(packetType: nat, args: seq<Arg>) returns (r: Result<bytes, Error>)
    ensures r == if OutSchema(packetType) == None then Err(KeyError) else Pack(OutSchema(packetType).value, args)
  {
    var found := OutSchema(packetType);
    if found == None {
      return Err(KeyError);
    }
    var schema := found.value;
    var remaining := args;
    var out: bytes := [];
    ghost var all := Pack(schema, args);
    assert all.Ok? ==> [] + all.value == all.value;
    for k := 0 to |schema|
      invariant Pack(schema, args) ==
        match Pack(schema[k..], remaining)
        case Err(e) => Err(e)
        case Ok(rest) => Ok(out + rest)
    {
      assert schema[k..][1..] == schema[k + 1..];
      if remaining == [] {
        return Err(IndexError);
      }
      var value := remaining[0];
      remaining := remaining[1..];
      var packed := PackOne(schema[k], value);
      if packed.Err? {
        return Err(packed.error);
      }
      ghost var before := out;
      out := out + packed.value;
      assert forall rest: bytes :: before + (packed.value + rest) == out + rest;
    }
    assert out + [] == out;
    return Ok(out);
  }

  predicate OutCodes(schema: string) {
    forall i | 0 <= i < |schema| :: schema[i] == 'I' || schema[i] == 'S'
  }

  /** On arguments of the schema's types, `encode_args` produces the well-formed payload. */
  lemma {:induction false} PackIsEncode(schema: string, args: seq<Arg>)
    requires OutCodes(schema) && Fits(schema, args)
    ensures Pack(schema, args) == Ok(Encode(schema, args))
  {
    if schema != "" {
      assert FitsOne(schema[0], args[0]);
      PackIsEncode(schema[1..], args[1..]);
    }
  }

  /** A number packs exactly when it is one of 32 bits. */
  lemma PackNumber(a: Arg)
    ensures PackOne('I', a).Ok? <==> a.Num? && 0 <= a.n < 0x1_0000_0000
    ensures PackOne('I', a).Ok? ==> PackOne('I', a).value == Pack32(a.n)
    ensures PackOne('I', a).Err? ==> PackOne('I', a).error == StructError
  {
    hide Pack32;
  }

  lemma PackCons(schema: string, args: seq<Arg>, b: bytes, rest: bytes)
    requires schema != "" && args != []
    requires PackOne(schema[0], args[0]) == Ok(b) && Pack(schema[1..], args[1..]) == Ok(rest)
    ensures Pack(schema, args) == Ok(b + rest)
  {
    hide PackOne;
  }

  lemma NothingToPack(args: seq<Arg>)
    ensures Pack("", args) == Ok([])
  {}


  lemma PackOneString(s: bytes)
    requires |s| < 0x1_0000
    ensures Pack("S", [Str(s)]) == Ok(Pack16(|s|) + s)
  {
    hide Pack16;
    PackCons("S", [Str(s)], Pack16(|s|) + s, []);
    assert Pack16(|s|) + s + [] == Pack16(|s|) + s;
  }

  lemma PackTwoStrings(s: bytes, t: bytes)
    requires |s| < 0x1_0000 && |t| < 0x1_0000
    ensures Pack("SS", [Str(s), Str(t)]) == Ok(Pack16(|s|) + s + (Pack16(|t|) + t))
  {
    hide Pack16, Pack;
    PackOneString(t);
    assert "SS"[1..] == "S" && [Str(s), Str(t)][1..] == [Str(t)];
    PackCons("SS", [Str(s), Str(t)], Pack16(|s|) + s, Pack16(|t|) + t);
  }

  lemma PackNumStrs(n: nat, strs: seq<Arg>, rest: bytes, schema: string)
    requires n < 0x1_0000_0000 && Pack(schema, strs) == Ok(rest)
    ensures Pack("I" + schema, [Num(n)] + strs) == Ok(Pack32(n) + rest)
  {
    hide Pack32, Pack;
    assert ("I" + schema)[1..] == schema && ([Num(n)] + strs)[1..] == strs;
    PackCons("I" + schema, [Num(n)] + strs, Pack32(n), rest);
  }

  /** A byte string packs behind its length of 16 bits; in place of one, a number stands for
      that many zeros, and a list of numbers for those bytes. */
  lemma PackString(a: Arg)
    ensures var r := PackOne('S', a);
      match a
      case Str(s) => r == if |s| >= 0x1_0000 then Err(StructError) else Ok([|s| / 0x100, |s| % 0x100] + s)
      case Num(n) =>
        if n < 0 then r == Err(ValueError)
        else if n >= 0x1_0000 then r == Err(StructError)
        else r.Ok? && |r.value| == n + 2 && forall i | 2 <= i < n + 2 :: r.value[i] == 0
      case Nums(ns) => (exists i :: 0 <= i < |ns| && ns[i] >= 0x100) <==> r == Err(ValueError)
      case Strs(ss) => r == if ss == [] then Ok([0, 0]) else Err(TypeError)
  {
    if a.Strs? && a.ss == [] {
      assert PackStr([]) == [0, 0];
    }
  }

  /** Encoding gets to code i of the schema and fails there: no argument is left, or the
      next one does not pack. */
  ghost predicate FailsAt(schema: string, args: seq<Arg>, i: nat, e: Error) {
    && i < |schema| && i <= |args|
    && (forall j | 0 <= j < i :: PackOne(schema[j], args[j]).Ok?)
    && (if i == |args| then e == IndexError else PackOne(schema[i], args[i]) == Err(e))
  }

  /** The exceptions of `encode_args`, exactly. */
  lemma {:induction false} PackFails(schema: string, args: seq<Arg>, e: Error)
    ensures Pack(schema, args) == Err(e) <==> exists i: nat :: FailsAt(schema, args, i, e)
  {
    hide PackOne, FailsAt;
    if schema == "" || args == [] || PackOne(schema[0], args[0]).Err? {
      FailsAtOnce(schema, args, e);
    } else {
      PackFails(schema[1..], args[1..], e);
      if Pack(schema, args) == Err(e) {
        var i: nat :| FailsAt(schema[1..], args[1..], i, e);
        FailsLater(schema, args, i + 1, e);
      } else if i: nat :| FailsAt(schema, args, i, e) {
        NotAtFirst(schema, args, i, e);
        FailsLater(schema, args, i, e);
      }
    }
  }

  lemma FailsAtOnce(schema: string, args: seq<Arg>, e: Error)
    requires schema == "" || args == [] || PackOne(schema[0], args[0]).Err?
    ensures Pack(schema, args) == Err(e) <==> exists i: nat :: FailsAt(schema, args, i, e)
  {
    hide PackOne;
    assert FailsAt(schema, args, 0, e) <==> Pack(schema, args) == Err(e);
    assert forall i: nat | FailsAt(schema, args, i, e) :: i == 0;
  }

  lemma NotAtFirst(schema: string, args: seq<Arg>, i: nat, e: Error)
    requires FailsAt(schema, args, i, e) && args != [] && PackOne(schema[0], args[0]).Ok?
    ensures i > 0
  {}

  lemma FailsLater(schema: string, args: seq<Arg>, i: nat, e: Error)
    requires schema != "" && args != [] && i > 0 && PackOne(schema[0], args[0]).Ok?
    ensures FailsAt(schema, args, i, e) <==> FailsAt(schema[1..], args[1..], i - 1, e)
  {
    hide PackOne;
    if FailsAt(schema[1..], args[1..], i - 1, e) {
      forall j | 0 <= j < i
        ensures PackOne(schema[j], args[j]).Ok?
      {
        assert j > 0 ==> PackOne(schema[1..][j - 1], args[1..][j - 1]).Ok?;
      }
    }
  }
}
