/** Laws of the packet codec: round trip, canonical form, and what decoding does to
    a payload that is too long or too short. */
module PacketLaws {
  import opened Wrappers
  import opened Bytes
  import opened Packet

  /** The data holds x from an offset on, whatever surrounds it. */
  predicate At(data: bytes, offset: nat, x: bytes) {
    offset + |x| <= |data| && data[offset..offset + |x|] == x
  }

  /** The data ends inside an x that starts at an offset. */
  predicate CutAt(data: bytes, offset: nat, x: bytes) {
    offset <= |data| < offset + |x| && data[offset..] == x[..|data| - offset]
  }

  lemma AtSplit(data: bytes, offset: nat, x: bytes, y: bytes)
    requires At(data, offset, x + y)
    ensures At(data, offset, x) && At(data, offset + |x|, y)
  {
    var z := x + y;
    assert z[..|x|] == x && z[|x|..] == y;
    assert data[offset..offset + |z|][..|x|] == data[offset..offset + |x|];
    assert data[offset..offset + |z|][|x|..] == data[offset + |x|..offset + |x| + |y|];
  }

  lemma CutSplit(data: bytes, offset: nat, x: bytes, y: bytes)
    requires CutAt(data, offset, x + y)
    ensures if |data| < offset + |x| then CutAt(data, offset, x)
            else At(data, offset, x) && CutAt(data, offset + |x|, y)
  {
    var z := x + y;
    var n := |data| - offset;
    if n < |x| {
      assert z[..n] == x[..n];
    } else {
      assert z[..n][..|x|] == x && z[..n][|x|..] == y[..n - |x|];
      assert data[offset..][..|x|] == data[offset..offset + |x|];
      assert data[offset..][|x|..] == data[offset + |x|..];
    }
  }

  // ---- round trip ----

  lemma {:induction false} NumsRoundTrip(ns: seq<nat>, data: bytes, offset: nat)
    requires forall i | 0 <= i < |ns| :: ns[i] < 0x1_0000_0000
    requires At(data, offset, PackNums(ns))
    ensures DecodeNums(|ns|, data, offset) == ns
  {
    if ns != [] {
      AtSplit(data, offset, Pack32(ns[0]), PackNums(ns[1..]));
      Pack32Inverse(ns[0]);
      NumsRoundTrip(ns[1..], data, offset + 4);
      assert ns == [ns[0]] + ns[1..];
    }
  }

  lemma U16At(data: bytes, offset: nat, n: nat)
    requires n < 0x1_0000 && At(data, offset, Pack16(n))
    ensures U16(data, offset) == Some(n)
  {
    Pack16Inverse(n);
  }

  lemma StrAt(data: bytes, offset: nat, s: bytes)
    requires |s| < 0x1_0000 && At(data, offset, PackStr(s))
    ensures U16(data, offset) == Some(|s|) && Slice(data, offset + 2, |s|) == s
  {
    AtSplit(data, offset, Pack16(|s|), s);
    U16At(data, offset, |s|);
  }

  lemma {:induction false} StrsRoundTrip(ss: seq<bytes>, data: bytes, offset: nat)
    requires forall i | 0 <= i < |ss| :: |ss[i]| < 0x1_0000
    requires At(data, offset, PackStrs(ss))
    ensures DecodeStrs(|ss|, data, offset) == Some((ss, offset + |PackStrs(ss)|))
  {
    if ss != [] {
      AtSplit(data, offset, PackStr(ss[0]), PackStrs(ss[1..]));
      StrAt(data, offset, ss[0]);
      StrsRoundTrip(ss[1..], data, offset + |PackStr(ss[0])|);
      assert ss == [ss[0]] + ss[1..];
    }
  }

  lemma OneRoundTrip(code: char, a: Arg, data: bytes, offset: nat)
    requires FitsOne(code, a) && At(data, offset, EncodeOne(code, a))
    ensures DecodeOne(code, data, offset) == Ok((a, offset + |EncodeOne(code, a)|))
  {
    hide U16, PackStrs, PackNums, DecodeNums, DecodeStrs, Slice;
    match a
    case Num(n) =>
      Pack32Inverse(n);
    case Str(s) =>
      StrAt(data, offset, s);
    case Nums(ns) =>
      AtSplit(data, offset, Pack16(|ns|), PackNums(ns));
      U16At(data, offset, |ns|);
      NumsRoundTrip(ns, data, offset + 2);
    case Strs(ss) =>
      AtSplit(data, offset, Pack16(|ss|), PackStrs(ss));
      U16At(data, offset, |ss|);
      StrsRoundTrip(ss, data, offset + 2);
  }

  lemma Prepended(args: seq<Arg>, end: nat)
    requires args != []
    ensures Then([args[0]], Ok((args[1..], end))) == Ok((args, end))
  {
    assert args == [args[0]] + args[1..];
  }

  lemma StepOk(schema: string, data: bytes, offset: nat, a: Arg, next: nat)
    requires schema != "" && DecodeOne(schema[0], data, offset) == Ok((a, next))
    ensures DecodeFrom(schema, data, offset) == Then([a], DecodeFrom(schema[1..], data, next))
  {}

  /** A payload is its first argument followed by the payload of the rest. */
  lemma Unfold(schema: string, args: seq<Arg>)
    requires Fits(schema, args) && schema != ""
    ensures FitsOne(schema[0], args[0]) && Fits(schema[1..], args[1..])
    ensures Encode(schema, args) == EncodeOne(schema[0], args[0]) + Encode(schema[1..], args[1..])
  {
    assert FitsOne(schema[0], args[0]);
  }

  lemma RoundTripNothing(schema: string, args: seq<Arg>, data: bytes, offset: nat)
    requires Fits(schema, args) && schema == ""
    ensures DecodeFrom(schema, data, offset) == Ok((args, offset + |Encode(schema, args)|))
  {}

  /** Decoding an encoding returns the arguments and stops at its end, wherever in the
      data it stands. */
  lemma {:induction false} RoundTrip(schema: string, args: seq<Arg>, data: bytes, offset: nat)
    requires Fits(schema, args) && At(data, offset, Encode(schema, args))
    ensures DecodeFrom(schema, data, offset) == Ok((args, offset + |Encode(schema, args)|))
  {
    hide *;
    if schema == "" {
      RoundTripNothing(schema, args, data, offset);
    } else {
      SameLength(schema, args);
      Unfold(schema, args);
      var first, rest := EncodeOne(schema[0], args[0]), Encode(schema[1..], args[1..]);
      var next := offset + |first|;
      AtSplit(data, offset, first, rest);
      OneRoundTrip(schema[0], args[0], data, offset);
      RoundTrip(schema[1..], args[1..], data, next);
      StepOk(schema, data, offset, args[0], next);
      Prepended(args, next + |rest|);
    }
  }

  lemma DecodeEncode(schema: string, args: seq<Arg>)
    requires Fits(schema, args)
    ensures Decode(schema, Encode(schema, args)) == Ok(args)
  {
    hide Encode, DecodeFrom, Fits;
    var payload := Encode(schema, args);
    assert payload[0..|payload|] == payload;
    RoundTrip(schema, args, payload, 0);
  }

  lemma SameLength(schema: string, args: seq<Arg>)
    requires Fits(schema, args)
    ensures |schema| == |args|
  {}

  // ---- canonical form ----

  lemma {:induction false} NumsCanonical(count: nat, data: bytes, offset: nat)
    requires offset + 4 * count <= |data|
    ensures
      var ns := DecodeNums(count, data, offset);
      && (forall i | 0 <= i < |ns| :: ns[i] < 0x1_0000_0000)
      && PackNums(ns) == data[offset..offset + 4 * count]
  {
    if count > 0 {
      var ns := DecodeNums(count, data, offset);
      NumsCanonical(count - 1, data, offset + 4);
      Unpack32Inverse(data[offset..offset + 4]);
      assert ns[1..] == DecodeNums(count - 1, data, offset + 4);
      assert data[offset..offset + 4] + data[offset + 4..offset + 4 * count] == data[offset..offset + 4 * count];
    }
  }

  lemma StrCanonical(data: bytes, offset: nat, n: nat)
    requires U16(data, offset) == Some(n) && offset + 2 + n <= |data|
    ensures n < 0x1_0000 && PackStr(Slice(data, offset + 2, n)) == data[offset..offset + 2 + n]
  {
    Unpack16Inverse(data[offset..offset + 2]);
    assert Slice(data, offset + 2, n) == data[offset + 2..offset + 2 + n];
    assert data[offset..offset + 2] + data[offset + 2..offset + 2 + n] == data[offset..offset + 2 + n];
  }

  lemma {:induction false} StrsCanonical(count: nat, data: bytes, offset: nat)
    requires DecodeStrs(count, data, offset).Some? && DecodeStrs(count, data, offset).value.1 <= |data|
    ensures
      var (ss, end) := DecodeStrs(count, data, offset).value;
      && |ss| == count && offset <= end
      && (forall i | 0 <= i < |ss| :: |ss[i]| < 0x1_0000)
      && PackStrs(ss) == data[offset..end]
  {
    if count > 0 {
      var (ss, end) := DecodeStrs(count, data, offset).value;
      var next := offset + 2 + U16(data, offset).value;
      StrsCanonical(count - 1, data, next);
      StrCanonical(data, offset, U16(data, offset).value);
      assert ss[1..] == DecodeStrs(count - 1, data, next).value.0;
      assert data[offset..next] + data[next..end] == data[offset..end];
    }
  }

  lemma OneCanonical(code: char, data: bytes, offset: nat)
    requires DecodeOne(code, data, offset).Ok? && DecodeOne(code, data, offset).value.1 <= |data|
    ensures
      var (a, end) := DecodeOne(code, data, offset).value;
      FitsOne(code, a) && offset <= end && EncodeOne(code, a) == data[offset..end]
  {
    hide DecodeNums, DecodeStrs, PackNums, PackStrs, Slice;
    var (a, end) := DecodeOne(code, data, offset).value;
    if code == 'I' {
      Unpack32Inverse(data[offset..offset + 4]);
    } else {
      var n := U16(data, offset).value;
      Unpack16Inverse(data[offset..offset + 2]);
      if code == 'S' {
        StrCanonical(data, offset, n);
      } else if code == 'i' {
        NumsCanonical(n, data, offset + 2);
      } else {
        StrsCanonical(n, data, offset + 2);
      }
      assert data[offset..offset + 2] + data[offset + 2..end] == data[offset..end];
    }
  }

  lemma {:induction false} DecodeAdvances(schema: string, data: bytes, offset: nat)
    requires DecodeFrom(schema, data, offset).Ok?
    ensures offset <= DecodeFrom(schema, data, offset).value.1
  {
    if schema != "" {
      OneAdvances(schema[0], data, offset);
      DecodeAdvances(schema[1..], data, DecodeOne(schema[0], data, offset).value.1);
    }
  }

  lemma OneAdvances(code: char, data: bytes, offset: nat)
    requires DecodeOne(code, data, offset).Ok?
    ensures offset <= DecodeOne(code, data, offset).value.1
  {
    if code == 's' {
      StrsAdvance(U16(data, offset).value, data, offset + 2);
    }
  }

  lemma {:induction false} StrsAdvance(count: nat, data: bytes, offset: nat)
    requires DecodeStrs(count, data, offset).Some?
    ensures offset <= DecodeStrs(count, data, offset).value.1
  {
    if count > 0 {
      StrsAdvance(count - 1, data, offset + 2 + U16(data, offset).value);
    }
  }

  /** A decoding that stayed inside the data read exactly the encoding of its result:
      no two byte strings decode to the same arguments. */
  lemma {:induction false} Canonical(schema: string, data: bytes, offset: nat)
    requires DecodeFrom(schema, data, offset).Ok? && DecodeFrom(schema, data, offset).value.1 <= |data|
    ensures
      var (args, end) := DecodeFrom(schema, data, offset).value;
      Fits(schema, args) && offset <= end && Encode(schema, args) == data[offset..end]
  {
    hide *;
    DecodeUnfold(schema, data, offset);
    if schema == "" {
      CanonicalNothing(schema, data, offset);
    } else {
      var (args, end) := DecodeFrom(schema, data, offset).value;
      var (a, next) := DecodeOne(schema[0], data, offset).value;
      var rest := DecodeFrom(schema[1..], data, next).value.0;
      DecodeAdvances(schema[1..], data, next);
      OneCanonical(schema[0], data, offset);
      Canonical(schema[1..], data, next);
      Fold(schema, a, rest);
      assert data[offset..next] + data[next..end] == data[offset..end];
    }
  }

  lemma CanonicalNothing(schema: string, data: bytes, offset: nat)
    requires schema == "" && offset <= |data|
    ensures DecodeFrom(schema, data, offset) == Ok(([], offset))
    ensures Fits(schema, []) && Encode(schema, []) == data[offset..offset]
  {}

  /** A decoding that succeeds is that of its first argument and of the rest. */
  lemma DecodeUnfold(schema: string, data: bytes, offset: nat)
    requires DecodeFrom(schema, data, offset).Ok?
    ensures schema == "" ==> DecodeFrom(schema, data, offset) == Ok(([], offset))
    ensures schema != "" ==> DecodeOne(schema[0], data, offset).Ok?
    ensures schema != "" ==>
              var (a, next) := DecodeOne(schema[0], data, offset).value;
              var rest := DecodeFrom(schema[1..], data, next);
              rest.Ok? && DecodeFrom(schema, data, offset).value == ([a] + rest.value.0, rest.value.1)
  {
    hide DecodeOne;
  }

  lemma Fold(schema: string, a: Arg, rest: seq<Arg>)
    requires schema != "" && FitsOne(schema[0], a) && Fits(schema[1..], rest)
    ensures Fits(schema, [a] + rest)
    ensures Encode(schema, [a] + rest) == EncodeOne(schema[0], a) + Encode(schema[1..], rest)
  {
    var args := [a] + rest;
    assert args[1..] == rest;
    forall i | 0 <= i < |args|
      ensures FitsOne(schema[i], args[i])
    {
      if i > 0 {
        assert schema[1..][i - 1] == schema[i] && FitsOne(schema[1..][i - 1], rest[i - 1]);
      }
    }
  }

  lemma Extended(data: bytes, more: bytes, x: bytes)
    requires |x| <= |data| && data[0..|x|] == x
    ensures At(data, 0, x) && At(data + more, 0, x)
  {
    assert (data + more)[0..|x|] == data[0..|x|];
  }

  /** Bytes after a full payload never change the result. */
  lemma TrailingBytesIgnored(schema: string, data: bytes, more: bytes)
    requires DecodeFrom(schema, data, 0).Ok? && DecodeFrom(schema, data, 0).value.1 <= |data|
    ensures DecodeFrom(schema, data + more, 0) == DecodeFrom(schema, data, 0)
  {
    hide *;
    var (args, end) := DecodeFrom(schema, data, 0).value;
    Canonical(schema, data, 0);
    Extended(data, more, Encode(schema, args));
    RoundTrip(schema, args, data + more, 0);
    RoundTrip(schema, args, data, 0);
  }

  // ---- truncation ----

  lemma StrsPast(count: nat, data: bytes, offset: nat)
    requires offset > |data|
    ensures DecodeStrs(count, data, offset) == if count == 0 then Some(([], offset)) else None
  {}

  /** Data that ends inside a list of strings: reading fails, or stops where the whole
      list would. */
  lemma {:induction false} StrsCut(ss: seq<bytes>, data: bytes, offset: nat)
    requires forall i | 0 <= i < |ss| :: |ss[i]| < 0x1_0000
    requires CutAt(data, offset, PackStrs(ss))
    ensures
      var r := DecodeStrs(|ss|, data, offset);
      r.Some? ==> r.value.1 == offset + |PackStrs(ss)|
  {
    var s := ss[0];
    CutSplit(data, offset, PackStr(s), PackStrs(ss[1..]));
    if |data| < offset + |PackStr(s)| {
      CutSplit(data, offset, Pack16(|s|), s);
      if |data| >= offset + 2 {
        U16At(data, offset, |s|);
        StrsPast(|ss| - 1, data, offset + 2 + |s|);
        assert |ss| == 1 ==> ss[1..] == [];
      }
    } else {
      StrAt(data, offset, s);
      StrsCut(ss[1..], data, offset + |PackStr(s)|);
    }
  }

  /** Data that ends inside one argument: only a byte string whose length field is
      intact survives, shortened to what is there; and whatever survives leaves the
      offset past the end of the data. */
  lemma OneCut(code: char, a: Arg, data: bytes, offset: nat)
    requires FitsOne(code, a) && CutAt(data, offset, EncodeOne(code, a))
    ensures
      var end := offset + |EncodeOne(code, a)|;
      var r := DecodeOne(code, data, offset);
      && (r.Ok? ==> r.value.1 == end)
      && (r.Err? ==> r.error == StructError)
      && (code != 's' ==>
            r == if code == 'S' && |data| >= offset + 2 then Ok((Str(a.s[..|data| - offset - 2]), end))
                 else Err(StructError))
  {
    match a
    case Num(n) =>
    case Str(s) =>
      CutSplit(data, offset, Pack16(|s|), s);
      if |data| >= offset + 2 {
        U16At(data, offset, |s|);
      }
    case Nums(ns) =>
      CutSplit(data, offset, Pack16(|ns|), PackNums(ns));
      if |data| >= offset + 2 {
        U16At(data, offset, |ns|);
      }
    case Strs(ss) =>
      CutSplit(data, offset, Pack16(|ss|), PackStrs(ss));
      if |data| >= offset + 2 {
        U16At(data, offset, |ss|);
        StrsCut(ss, data, offset + 2);
      }
  }

  predicate Supported(schema: string) {
    forall i | 0 <= i < |schema| :: IsCode(schema[i])
  }

  /** What decoding a payload cut short returns: the same arguments with the last
      string shortened when the cut is inside that string, and an error otherwise. */
  function CutResult(schema: string, args: seq<Arg>, missing: nat): Result<seq<Arg>, Error>
    requires Fits(schema, args)
  {
    var n := |args| - 1;
    if schema != "" && schema[n] == 'S' && FitsOne(schema[n], args[n]) && missing <= |args[n].s|
    then Ok(args[..n] + [Str(args[n].s[..|args[n].s| - missing])])
    else Err(StructError)
  }

  /** `CutResult` together with the offset a decoding stops at. */
  function CutAndEnd(schema: string, args: seq<Arg>, missing: nat, end: nat): Result<(seq<Arg>, nat), Error>
    requires Fits(schema, args)
  {
    match CutResult(schema, args, missing)
    case Ok(cut) => Ok((cut, end))
    case Err(e) => Err(e)
  }

  lemma TruncatedOnly(schema: string, args: seq<Arg>, data: bytes, offset: nat)
    requires Fits(schema, args) && |schema| == 1 && schema[0] != 's'
    requires FitsOne(schema[0], args[0]) && CutAt(data, offset, EncodeOne(schema[0], args[0]))
    ensures
      var end := offset + |EncodeOne(schema[0], args[0])|;
      DecodeFrom(schema, data, offset) == CutAndEnd(schema, args, end - |data|, end)
  {
    OneCut(schema[0], args[0], data, offset);
    var r := DecodeOne(schema[0], data, offset);
    if r.Ok? {
      ThenUnits([r.value.0], Err(KeyError), r.value.1);
      assert args[..0] + [r.value.0] == [r.value.0];
    }
  }

  lemma TruncatedFirst(schema: string, args: seq<Arg>, data: bytes, offset: nat, end: nat)
    requires Fits(schema, args) && |schema| > 1
    requires FitsOne(schema[0], args[0]) && CutAt(data, offset, EncodeOne(schema[0], args[0]))
    requires end == offset + |EncodeOne(schema[0], args[0])| + |Encode(schema[1..], args[1..])|
    ensures DecodeFrom(schema, data, offset) == CutAndEnd(schema, args, end - |data|, end)
  {
    assert FitsOne(schema[1], args[1]);
    OneCut(schema[0], args[0], data, offset);
    PastTheEnd(schema[1..], data, offset + |EncodeOne(schema[0], args[0])|);
    assert DecodeFrom(schema, data, offset) == Err(StructError);
    if schema[|schema| - 1] == 'S' {
      ShortLast(schema, args);
    }
  }

  lemma TruncatedLater(schema: string, args: seq<Arg>, data: bytes, offset: nat, next: nat, end: nat)
    requires Fits(schema, args) && |schema| > 1 && |data| <= end
    requires DecodeOne(schema[0], data, offset) == Ok((args[0], next))
    requires DecodeFrom(schema[1..], data, next) == CutAndEnd(schema[1..], args[1..], end - |data|, end)
    ensures DecodeFrom(schema, data, offset) == CutAndEnd(schema, args, end - |data|, end)
  {
    StepOk(schema, data, offset, args[0], next);
    ShiftCutResult(schema, args, end - |data|);
  }

  /** The exact effect of truncation, for every schema that does not end in a list of
      strings. */
  lemma {:induction false} Truncated(schema: string, args: seq<Arg>, data: bytes, offset: nat)
    requires Fits(schema, args) && schema != "" && schema[|schema| - 1] != 's'
    requires CutAt(data, offset, Encode(schema, args))
    ensures
      var end := offset + |Encode(schema, args)|;
      DecodeFrom(schema, data, offset) == CutAndEnd(schema, args, end - |data|, end)
  {
    hide *;
    SameLength(schema, args);
    Unfold(schema, args);
    var first, rest := EncodeOne(schema[0], args[0]), Encode(schema[1..], args[1..]);
    var end := offset + |first| + |rest|;
    CutSplit(data, offset, first, rest);
    if |data| < offset + |first| {
      if |schema| > 1 {
        TruncatedFirst(schema, args, data, offset, end);
      } else {
        NothingMore(schema[1..], args[1..]);
        TruncatedOnly(schema, args, data, offset);
      }
    } else {
      NothingMore(schema[1..], args[1..]);
      CutIsNotEmpty(data, offset + |first|, rest);
      OneRoundTrip(schema[0], args[0], data, offset);
      Truncated(schema[1..], args[1..], data, offset + |first|);
      TruncatedLater(schema, args, data, offset, offset + |first|, end);
    }
  }

  lemma NothingMore(schema: string, args: seq<Arg>)
    requires Fits(schema, args)
    ensures schema == "" ==> Encode(schema, args) == []
  {}

  lemma CutIsNotEmpty(data: bytes, offset: nat, x: bytes)
    requires CutAt(data, offset, x)
    ensures x != [] && offset <= |data| < offset + |x|
  {}

  /** Past the end of the data every argument fails. */
  lemma PastTheEnd(schema: string, data: bytes, offset: nat)
    requires schema != "" && IsCode(schema[0]) && offset > |data|
    ensures DecodeFrom(schema, data, offset) == Err(StructError)
  {}

  lemma ShiftCutResult(schema: string, args: seq<Arg>, missing: nat)
    requires Fits(schema, args) && |schema| > 1
    ensures CutResult(schema, args, missing) ==
      match CutResult(schema[1..], args[1..], missing)
      case Ok(cut) => Ok([args[0]] + cut)
      case Err(e) => Err(e)
  {
    var n := |args| - 1;
    assert FitsOne(schema[n], args[n]);
    assert schema[1..][n - 1] == schema[n] && args[1..][n - 1] == args[n];
    if schema[n] == 'S' && missing <= |args[n].s| {
      var short := [Str(args[n].s[..|args[n].s| - missing])];
      assert args[..n] + short == [args[0]] + (args[1..][..n - 1] + short);
    }
  }

  /** The last of several arguments is shorter than the encoding of all but the first. */
  lemma {:induction false} ShortLast(schema: string, args: seq<Arg>)
    requires Fits(schema, args) && |schema| > 1 && schema[|schema| - 1] == 'S'
    ensures FitsOne(schema[|schema| - 1], args[|args| - 1])
    ensures |args[|args| - 1].s| < |Encode(schema[1..], args[1..])|
    decreases |schema|
  {
    assert FitsOne(schema[|schema| - 1], args[|args| - 1]);
    assert FitsOne(schema[1], args[1]);
    if |schema| > 2 {
      ShortLast(schema[1..], args[1..]);
    }
  }

  lemma InSchemasSupported(packetType: nat)
    requires InSchema(packetType).Some?
    ensures
      var schema := InSchema(packetType).value;
      Supported(schema) && (schema != "" ==> schema[|schema| - 1] != 's')
  {}

  /** Decoding any strict prefix of a well-formed payload of any inbound packet. */
  lemma TruncatedPayload(packetType: nat, args: seq<Arg>, cut: nat)
    requires InSchema(packetType).Some? && Fits(InSchema(packetType).value, args)
    requires cut < |Encode(InSchema(packetType).value, args)|
    ensures
      var schema := InSchema(packetType).value;
      var payload := Encode(schema, args);
      Decode(schema, payload[..cut]) == CutResult(schema, args, |payload| - cut)
  {
    hide Encode, Fits, DecodeFrom, CutResult;
    var schema := InSchema(packetType).value;
    InSchemasSupported(packetType);
    NothingMore(schema, args);
    assert Encode(schema, args)[..cut][0..] == Encode(schema, args)[..cut];
    Truncated(schema, args, Encode(schema, args)[..cut], 0);
  }

  /** What decodes has one argument for each code of its schema, of the kind of that code. */
  lemma {:induction false} DecodedShape(schema: string, data: bytes, offset: nat)
    requires DecodeFrom(schema, data, offset).Ok?
    ensures var args := DecodeFrom(schema, data, offset).value.0;
      |args| == |schema| && forall i | 0 <= i < |args| :: CodeOf(args[i]) == schema[i]
  {
    hide CodeOf, DecodeOne;
    if schema != "" {
      DecodeUnfold(schema, data, offset);
      OneShape(schema[0], data, offset);
      var (a, next) := DecodeOne(schema[0], data, offset).value;
      DecodedShape(schema[1..], data, next);
    }
  }

  lemma OneShape(code: char, data: bytes, offset: nat)
    requires DecodeOne(code, data, offset).Ok?
    ensures CodeOf(DecodeOne(code, data, offset).value.0) == code
  {
    hide DecodeNums, DecodeStrs, U16, U32, Slice;
  }

  lemma {:induction false} NoKeyError(schema: string, data: bytes, offset: nat)
    ensures DecodeFrom(schema, data, offset) != Err(KeyError)
  {
    hide DecodeOne;
    if schema != "" {
      OneIsNoKeyError(schema[0], data, offset);
      match DecodeOne(schema[0], data, offset)
      case Err(_) =>
      case Ok((_, next)) => NoKeyError(schema[1..], data, next);
    }
  }

  lemma OneIsNoKeyError(code: char, data: bytes, offset: nat)
    ensures DecodeOne(code, data, offset) != Err(KeyError)
  {
    hide DecodeNums, DecodeStrs, U16, U32, Slice;
  }
}
