// The outer radio frame and the payload bodies it carries.
module Packet {
  import opened Bytes
  import opened Wrappers
  import Seqs

  const MAX_PACKET_PAYLOAD := 184
  const MAX_PATH_SIZE := 64
  const MAX_PATH_HASH_SIZE := 3
  const MAX_HOPS := 63
  const TRANSPORT_CODES_SIZE := 4
  const SIGNED_AUTHOR_PREFIX_LEN := 4
  const TEXT_PREFIX_LEN := 5
  const REQUEST_PREFIX_LEN := 5
  const LOGIN_PREFIX_LEN := 8
  const DATAGRAM_HEADER_LEN := 2

  datatype PacketError =
    | Short
    | ReservedPayloadType
    | TruncatedTransportCodes
    | MissingPathLength
    | ReservedHashSize
    | PathTooLong
    | TruncatedPath
    | NoPayload
    | PayloadTooLong
    | BadPath
    | UnsupportedTextType

  datatype RouteType = TransportFlood | Flood | Direct | TransportDirect {
    function Code(): (c: int)
      ensures 0 <= c < 4
    {
      match this
      case TransportFlood => 0
      case Flood => 1
      case Direct => 2
      case TransportDirect => 3
    }

    predicate IsFlood() {
      Flood? || TransportFlood?
    }

    predicate HasTransportCodes() {
      TransportFlood? || TransportDirect?
    }
  }

  function RouteOf(code: int): (r: RouteType)
    requires 0 <= code < 4
    ensures r.Code() == code
  {
    if code == 0 then TransportFlood
    else if code == 1 then Flood
    else if code == 2 then Direct
    else TransportDirect
  }

  datatype PayloadType =
    | Req | Response | TxtMsg | AckType | Advert | GrpTxt | GrpData | AnonReq
    | Path | Trace | Multipart | Control | RawCustom
  {
    function Code(): (c: int)
      ensures 0 <= c < 16
      ensures PayloadTypeOf(c) == Some(this)
    {
      match this
      case Req => 0
      case Response => 1
      case TxtMsg => 2
      case AckType => 3
      case Advert => 4
      case GrpTxt => 5
      case GrpData => 6
      case AnonReq => 7
      case Path => 8
      case Trace => 9
      case Multipart => 10
      case Control => 11
      case RawCustom => 15
    }
  }

  function PayloadTypeOf(code: int): (t: Option<PayloadType>) {
    if code == 0 then Some(Req)
    else if code == 1 then Some(Response)
    else if code == 2 then Some(TxtMsg)
    else if code == 3 then Some(AckType)
    else if code == 4 then Some(Advert)
    else if code == 5 then Some(GrpTxt)
    else if code == 6 then Some(GrpData)
    else if code == 7 then Some(AnonReq)
    else if code == 8 then Some(Path)
    else if code == 9 then Some(Trace)
    else if code == 10 then Some(Multipart)
    else if code == 11 then Some(Control)
    else if code == 15 then Some(RawCustom)
    else None
  }

  // The packed length byte of a path: hash size minus one in the top two bits, hop
  // count in the low six.
  function PackPathLength(hashSize: int, hops: int): (b: Byte)
    requires 1 <= hashSize <= MAX_PATH_HASH_SIZE && 0 <= hops <= MAX_HOPS
    ensures b < 0xC0
    ensures b / 64 + 1 == hashSize && b % 64 == hops
  {
    (hashSize - 1) * 64 + hops
  }

  datatype Frame = Frame(
    routeType: RouteType,
    payloadType: PayloadType,
    payload: seq<Byte>,
    path: seq<Byte>,
    pathHashSize: int,
    transportCodes: (int, int),
    payloadVersion: int
  ) {
    // What construction checks, and that the two codes and the version fit their fields.
    predicate Valid() {
      && 1 <= pathHashSize <= MAX_PATH_HASH_SIZE
      && |path| % pathHashSize == 0
      && |path| <= MAX_PATH_SIZE
      && |path| / pathHashSize <= MAX_HOPS
      && 0 < |payload| <= MAX_PACKET_PAYLOAD
      && 0 <= transportCodes.0 < U16_LIMIT
      && 0 <= transportCodes.1 < U16_LIMIT
      && 0 <= payloadVersion < 4
    }

    function HopCount(): (n: int)
      requires 1 <= pathHashSize
    {
      |path| / pathHashSize
    }

    function Header(): (h: Byte)
      requires 0 <= payloadVersion < 4
    {
      payloadVersion * 64 + payloadType.Code() * 4 + routeType.Code()
    }

    function Codes(): (b: seq<Byte>)
      requires Valid()
    {
      if routeType.HasTransportCodes() then U16(transportCodes.0) + U16(transportCodes.1) else []
    }

    function Encode(): (raw: seq<Byte>)
      requires Valid()
    {
      [Header()] + Codes() + [PackPathLength(pathHashSize, HopCount())] + path + payload
    }

    // Transport codes travel only on the transport routes.
    function Normal(): (f: Frame) {
      if routeType.HasTransportCodes() then this else this.(transportCodes := (0, 0))
    }
  }

  function DecodeFrame(raw: seq<Byte>): (r: Result<Frame, PacketError>) {
    if |raw| < 2 then Err(Short)
    else
      var header: int := raw[0];
      var routeType := RouteOf(header % 4);
      match PayloadTypeOf(header / 4 % 16)
      case None => Err(ReservedPayloadType)
      case Some(payloadType) =>
        var codes := routeType.HasTransportCodes();
        if codes && |raw| < 1 + TRANSPORT_CODES_SIZE then Err(TruncatedTransportCodes)
        else
          var transportCodes := if codes then (ReadU16(raw, 1), ReadU16(raw, 3)) else (0, 0);
          var offset := if codes then 1 + TRANSPORT_CODES_SIZE else 1;
          DecodeBody(raw, offset, routeType, payloadType, transportCodes, header / 64)
  }

  // The path and the payload, from the path-length byte on.
  function DecodeBody(raw: seq<Byte>, offset: nat, routeType: RouteType, payloadType: PayloadType,
                      transportCodes: (int, int), version: int): (r: Result<Frame, PacketError>)
    requires offset <= |raw|
  {
    if |raw| <= offset then Err(MissingPathLength)
    else
      var packed: int := raw[offset];
      var hashSize := packed / 64 + 1;
      var pathBytes := packed % 64 * hashSize;
      if hashSize > MAX_PATH_HASH_SIZE then Err(ReservedHashSize)
      else if pathBytes > MAX_PATH_SIZE then Err(PathTooLong)
      else if |raw| < offset + 1 + pathBytes then Err(TruncatedPath)
      else
        var path := raw[offset + 1..offset + 1 + pathBytes];
        var payload := raw[offset + 1 + pathBytes..];
        if payload == [] then Err(NoPayload)
        else if |payload| > MAX_PACKET_PAYLOAD then Err(PayloadTooLong)
        else Ok(Frame(routeType, payloadType, payload, path, hashSize, transportCodes, version))
  }

  // -- the frame codec is a two-sided inverse --------------------------------

  lemma Hops(hops: int, size: int)
    requires 0 <= hops && 1 <= size <= MAX_PATH_HASH_SIZE
    ensures hops * size / size == hops && hops * size % size == 0
  {
    if size == 1 {
    } else if size == 2 {
      assert hops * 2 / 2 == hops;
    } else {
      assert hops * 3 / 3 == hops;
    }
  }

  lemma HopsExact(len: int, size: int)
    requires 0 <= len && 1 <= size <= MAX_PATH_HASH_SIZE && len % size == 0
    ensures len / size * size == len
  {
  }

  lemma BodyRoundTrip(f: Frame, prefix: seq<Byte>)
    requires f.Valid()
    ensures
      var raw := prefix + [PackPathLength(f.pathHashSize, f.HopCount())] + f.path + f.payload;
      DecodeBody(raw, |prefix|, f.routeType, f.payloadType, f.transportCodes, f.payloadVersion) == Ok(f)
  {
    var packed := PackPathLength(f.pathHashSize, f.HopCount());
    var raw := prefix + [packed] + f.path + f.payload;
    HopsExact(|f.path|, f.pathHashSize);
    assert raw[|prefix|] == packed;
    assert raw[|prefix| + 1..|prefix| + 1 + |f.path|] == f.path;
    assert raw[|prefix| + 1 + |f.path|..] == f.payload;
  }

  lemma HeaderFields(f: Frame)
    requires 0 <= f.payloadVersion < 4
    ensures
      var h: int := f.Header();
      h % 4 == f.routeType.Code() && h / 4 % 16 == f.payloadType.Code() && h / 64 == f.payloadVersion
  {
    HeaderDigits(f.routeType.Code(), f.payloadType.Code(), f.payloadVersion);
  }

  lemma HeaderDigits(route: int, payload: int, version: int)
    requires 0 <= route < 4 && 0 <= payload < 16
    ensures
      var h := route + payload * 4 + version * 64;
      h % 4 == route && h / 4 % 16 == payload && h / 64 == version
  {
    assert (route + payload * 4 + version * 64) / 4 == payload + version * 16;
  }

  lemma RouteRoundTrip(r: RouteType)
    ensures RouteOf(r.Code()) == r
  {
  }

  // Decoding what was encoded gives the packet back, transport codes aside on the
  // routes that do not carry them.
  lemma DecodeInvertsEncode(f: Frame)
    requires f.Valid()
    ensures DecodeFrame(f.Encode()) == Ok(f.Normal())
  {
    var g := f.Normal();
    var prefix := [f.Header()] + f.Codes();
    var raw := f.Encode();
    HeaderFields(f);
    RouteRoundTrip(f.routeType);
    BodyRoundTrip(g, prefix);
    assert raw == prefix + [PackPathLength(g.pathHashSize, g.HopCount())] + g.path + g.payload;
    if f.routeType.HasTransportCodes() {
      U16RoundTrip(f.transportCodes.0);
      U16RoundTrip(f.transportCodes.1);
      assert raw[1] == U16(f.transportCodes.0)[0] && raw[2] == U16(f.transportCodes.0)[1];
      assert raw[3] == U16(f.transportCodes.1)[0] && raw[4] == U16(f.transportCodes.1)[1];
    }
  }

  lemma BodyInverse(raw: seq<Byte>, offset: nat, routeType: RouteType, payloadType: PayloadType,
                    codes: (int, int), version: int)
    requires offset <= |raw| && 0 <= version < 4
    requires 0 <= codes.0 < U16_LIMIT && 0 <= codes.1 < U16_LIMIT
    requires DecodeBody(raw, offset, routeType, payloadType, codes, version).Ok?
    ensures
      var f := DecodeBody(raw, offset, routeType, payloadType, codes, version).value;
      && f.Valid()
      && f.routeType == routeType && f.payloadType == payloadType
      && f.transportCodes == codes && f.payloadVersion == version
      && raw[..offset] + [PackPathLength(f.pathHashSize, f.HopCount())] + f.path + f.payload == raw
  {
    var packed: int := raw[offset];
    Hops(packed % 64, packed / 64 + 1);
    var f := DecodeBody(raw, offset, routeType, payloadType, codes, version).value;
    assert PackPathLength(f.pathHashSize, f.HopCount()) == raw[offset];
  }

  function BodyOffset(route: RouteType): (offset: nat) {
    if route.HasTransportCodes() then 1 + TRANSPORT_CODES_SIZE else 1
  }

  // What the bytes before the path length decide.
  lemma DecodedFront(raw: seq<Byte>)
    requires DecodeFrame(raw).Ok?
    ensures |raw| >= 2 && BodyOffset(RouteOf(raw[0] % 4)) <= |raw|
    ensures
      var header: int := raw[0];
      var route := RouteOf(header % 4);
      var codes := if route.HasTransportCodes() then (ReadU16(raw, 1), ReadU16(raw, 3)) else (0, 0);
      && PayloadTypeOf(header / 4 % 16).Some?
      && DecodeFrame(raw) == DecodeBody(raw, BodyOffset(route), route, PayloadTypeOf(header / 4 % 16).value, codes, header / 64)
  {
    hide DecodeBody, ReadU16, PayloadTypeOf;
  }

  lemma FrontInverse(raw: seq<Byte>, f: Frame)
    requires f.Valid() && BodyOffset(f.routeType) <= |raw| && f.Header() == raw[0]
    requires f.transportCodes == if f.routeType.HasTransportCodes() then (ReadU16(raw, 1), ReadU16(raw, 3)) else (0, 0)
    ensures [f.Header()] + f.Codes() == raw[..BodyOffset(f.routeType)]
  {
    if f.routeType.HasTransportCodes() {
      ReadU16Inverse(raw, 1);
      ReadU16Inverse(raw, 3);
    }
  }

  // Whatever bytes arrive are either refused or decode to a valid packet that
  // re-encodes to exactly those bytes.
  lemma EncodeInvertsDecode(raw: seq<Byte>)
    requires DecodeFrame(raw).Ok?
    ensures var f := DecodeFrame(raw).value; f.Valid() && f.Encode() == raw && f.Normal() == f
  {
    hide DecodeBody, DecodeFrame, ReadU16, U16, PayloadTypeOf, PackPathLength;
    DecodedFront(raw);
    var header: int := raw[0];
    var route := RouteOf(header % 4);
    var codes := if route.HasTransportCodes() then (ReadU16(raw, 1), ReadU16(raw, 3)) else (0, 0);
    BodyInverse(raw, BodyOffset(route), route, PayloadTypeOf(header / 4 % 16).value, codes, header / 64);
    var f := DecodeFrame(raw).value;
    PayloadCode(header / 4 % 16);
    assert f.Header() == header by {
      assert header == header / 64 * 64 + header / 4 % 16 * 4 + header % 4;
    }
    FrontInverse(raw, f);
  }

  lemma PayloadCode(code: int)
    requires PayloadTypeOf(code).Some?
    ensures PayloadTypeOf(code).value.Code() == code
  {
  }

  // -- the layout itself -------------------------------------------------------

  // The numbers of the protocol.
  lemma ProtocolCodes()
    ensures TransportFlood.Code() == 0x00 && Flood.Code() == 0x01 && Direct.Code() == 0x02 && TransportDirect.Code() == 0x03
    ensures Req.Code() == 0x00 && Response.Code() == 0x01 && TxtMsg.Code() == 0x02 && AckType.Code() == 0x03
    ensures Advert.Code() == 0x04 && GrpTxt.Code() == 0x05 && GrpData.Code() == 0x06 && AnonReq.Code() == 0x07
    ensures Path.Code() == 0x08 && Trace.Code() == 0x09 && Multipart.Code() == 0x0A && Control.Code() == 0x0B
    ensures RawCustom.Code() == 0x0F
    ensures Plain.Code() == 0x00 && CliData.Code() == 0x01 && SignedPlain.Code() == 0x02
  {
  }

  // Version, type and route share the first byte, hash size and hops the path length; the
  // transport codes of the two transport routes come between, low byte first.
  lemma FrameLayout(f: Frame)
    requires f.Valid()
    ensures
      var header := f.payloadVersion * 64 + f.payloadType.Code() * 4 + f.routeType.Code();
      var packed := (f.pathHashSize - 1) * 64 + |f.path| / f.pathHashSize;
      var (a, b) := f.transportCodes;
      f.Encode()
        == if f.routeType == TransportFlood || f.routeType == TransportDirect then
             [header, a % 256, a / 256, b % 256, b / 256, packed] + f.path + f.payload
           else [header, packed] + f.path + f.payload
  {
  }

  // A text is its timestamp, low byte first, a byte of type and attempt, and the text.
  lemma TextLayout(m: TextMessage)
    requires m.Valid()
    ensures
      var t := m.timestamp;
      m.Encode()
        == [t % 256, t / 256 % 256, t / 0x1_0000 % 256, t / 0x100_0000, m.txtType.Code() * 4 + m.attempt] + m.text
  {
  }

  // A login is two timestamps and a password; a request a timestamp, a type and data; a path
  // return the packed length, the path, a type and what comes with it.
  lemma BodyLayouts(login: LoginRequest, request: ServerRequest, p: PathReturn)
    requires login.Valid() && request.Valid() && p.Valid()
    ensures login.Encode() == U32(login.timestamp) + U32(login.syncSince) + login.password
    ensures request.Encode() == U32(request.timestamp) + [request.reqType] + request.data
    ensures p.Encode() == [(p.pathHashSize - 1) * 64 + |p.path| / p.pathHashSize] + p.path + [p.extraType] + p.extra
  {
  }

  // -- payload bodies --------------------------------------------------------

  function FirstNul(data: seq<Byte>): (i: nat)
    ensures i <= |data|
    ensures forall j :: 0 <= j < i ==> data[j] != 0
    ensures i < |data| ==> data[i] == 0
  {
    if data == [] || data[0] == 0 then 0 else 1 + FirstNul(data[1..])
  }

  // Bytes from `offset` up to the first NUL, or the end.
  function CString(data: seq<Byte>, offset: nat): (body: seq<Byte>)
    ensures 0 !in body
  {
    var body := if offset <= |data| then data[offset..] else [];
    body[..FirstNul(body)]
  }

  // A NUL-free field survives the zero padding of a cipher block.
  lemma CStringTrimsPadding(prefix: seq<Byte>, body: seq<Byte>, n: nat)
    requires 0 !in body
    ensures CString(prefix + body + Zeros(n), |prefix|) == body
  {
    var rest := (prefix + body + Zeros(n))[|prefix|..];
    assert rest == body + Zeros(n);
    assert forall j :: 0 <= j < |body| ==> rest[j] == body[j];
    assert n > 0 ==> rest[|body|] == 0;
    assert FirstNul(rest) == |body|;
  }

  datatype TextType = Plain | CliData | SignedPlain {
    function Code(): (c: int)
      ensures 0 <= c < 3
    {
      match this
      case Plain => 0
      case CliData => 1
      case SignedPlain => 2
    }
  }

  datatype TextMessage = TextMessage(timestamp: int, txtType: TextType, attempt: int, text: seq<Byte>) {
    predicate Valid() {
      0 <= timestamp < U32_LIMIT && 0 <= attempt < 4
    }

    function Flags(): (b: Byte)
      requires 0 <= attempt < 4
    {
      txtType.Code() * 4 + attempt
    }

    function Encode(): (plaintext: seq<Byte>)
      requires Valid()
    {
      U32(timestamp) + [Flags()] + text
    }

    function Body(): (body: seq<Byte>) {
      if txtType.SignedPlain? then
        if SIGNED_AUTHOR_PREFIX_LEN <= |text| then text[SIGNED_AUTHOR_PREFIX_LEN..] else []
      else text
    }
  }

  // `plaintext[from..to]` with Python's clamping.
  function Slice(data: seq<Byte>, from: nat, to: nat): (s: seq<Byte>)
    requires from <= to
  {
    if |data| <= from then [] else if |data| <= to then data[from..] else data[from..to]
  }

  function DecodeText(plaintext: seq<Byte>): (r: Result<TextMessage, PacketError>)
    ensures r.Ok? ==> r.value.Valid()
  {
    if |plaintext| < TEXT_PREFIX_LEN then Err(Short)
    else
      var flags: int := plaintext[4];
      if flags / 4 > 2 then Err(UnsupportedTextType)
      else
        var txtType := if flags / 4 == 0 then Plain else if flags / 4 == 1 then CliData else SignedPlain;
        var bodyOffset := TEXT_PREFIX_LEN + if txtType.SignedPlain? then SIGNED_AUTHOR_PREFIX_LEN else 0;
        Ok(TextMessage(ReadU32(plaintext, 0), txtType, flags % 4,
                       Slice(plaintext, TEXT_PREFIX_LEN, bodyOffset) + CString(plaintext, bodyOffset)))
  }

  lemma TextHead(m: TextMessage, n: nat)
    requires m.Valid()
    ensures
      var plaintext := m.Encode() + Zeros(n);
      |plaintext| >= TEXT_PREFIX_LEN && ReadU32(plaintext, 0) == m.timestamp && plaintext[4] == m.Flags()
  {
    var plaintext := m.Encode() + Zeros(n);
    U32RoundTrip(m.timestamp);
    assert forall i :: 0 <= i < 4 ==> plaintext[i] == U32(m.timestamp)[i];
  }

  // A signed message survives padding as long as its text is NUL-free, whatever bytes
  // the author prefix holds.
  lemma SignedTextSurvivesPadding(m: TextMessage, n: nat)
    requires m.Valid() && m.txtType.SignedPlain?
    requires |m.text| >= SIGNED_AUTHOR_PREFIX_LEN && 0 !in m.text[SIGNED_AUTHOR_PREFIX_LEN..]
    ensures DecodeText(m.Encode() + Zeros(n)) == Ok(m)
  {
    hide CString, ReadU32, Zeros;
    var plaintext := m.Encode() + Zeros(n);
    var author, body := m.text[..SIGNED_AUTHOR_PREFIX_LEN], m.text[SIGNED_AUTHOR_PREFIX_LEN..];
    var head := U32(m.timestamp) + [m.Flags()] + author;
    TextHead(m, n);
    assert m.text == author + body;
    assert plaintext == head + body + Zeros(n);
    CStringTrimsPadding(head, body, n);
    assert Slice(plaintext, 5, 9) == author;
  }

  // With a NUL in its text it decodes to something shorter.
  lemma NulShortensSignedText(m: TextMessage, n: nat)
    requires m.Valid() && m.txtType.SignedPlain?
    requires |m.text| >= SIGNED_AUTHOR_PREFIX_LEN && 0 in m.text[SIGNED_AUTHOR_PREFIX_LEN..]
    ensures DecodeText(m.Encode() + Zeros(n)).Ok?
    ensures |DecodeText(m.Encode() + Zeros(n)).value.text| < |m.text|
  {
    hide U32, ReadU32, FirstNul;
    var plaintext := m.Encode() + Zeros(n);
    var offset := TEXT_PREFIX_LEN + SIGNED_AUTHOR_PREFIX_LEN;
    var rest := plaintext[offset..];
    var body := m.text[SIGNED_AUTHOR_PREFIX_LEN..];
    TextHead(m, n);
    var i :| 0 <= i < |body| && body[i] == 0;
    assert rest[i] == plaintext[offset + i] == m.text[SIGNED_AUTHOR_PREFIX_LEN + i] == 0;
    assert FirstNul(rest) <= i;
    assert DecodeText(plaintext).value.text == Slice(plaintext, TEXT_PREFIX_LEN, offset) + CString(plaintext, offset);
  }

  // Plain and console messages likewise.
  lemma PlainTextSurvivesPadding(m: TextMessage, n: nat)
    requires m.Valid() && !m.txtType.SignedPlain? && 0 !in m.text
    ensures DecodeText(m.Encode() + Zeros(n)) == Ok(m)
  {
    hide CString, ReadU32, Zeros;
    var plaintext := m.Encode() + Zeros(n);
    var head := U32(m.timestamp) + [m.Flags()];
    TextHead(m, n);
    assert plaintext == head + m.text + Zeros(n);
    CStringTrimsPadding(head, m.text, n);
    assert Slice(plaintext, TEXT_PREFIX_LEN, TEXT_PREFIX_LEN) + m.text == m.text;
  }

  datatype ServerRequest = ServerRequest(timestamp: int, reqType: int, data: seq<Byte>) {
    predicate Valid() {
      0 <= timestamp < U32_LIMIT && 0 <= reqType < 256
    }

    function Encode(): (plaintext: seq<Byte>)
      requires Valid()
    {
      U32(timestamp) + [reqType] + data
    }
  }

  function DecodeRequest(plaintext: seq<Byte>): (r: Result<ServerRequest, PacketError>)
    ensures r.Ok? ==> r.value.Valid()
  {
    if |plaintext| < REQUEST_PREFIX_LEN then Err(Short)
    else Ok(ServerRequest(ReadU32(plaintext, 0), plaintext[4], plaintext[REQUEST_PREFIX_LEN..]))
  }

  lemma RequestInverse(plaintext: seq<Byte>)
    requires DecodeRequest(plaintext).Ok?
    ensures DecodeRequest(plaintext).value.Encode() == plaintext
  {
    ReadU32Inverse(plaintext, 0);
  }

  // What a client logs in with: its clock, the newest post it holds, and a password.
  datatype LoginRequest = LoginRequest(timestamp: int, syncSince: int, password: seq<Byte>) {
    predicate Valid() {
      0 <= timestamp < U32_LIMIT && 0 <= syncSince < U32_LIMIT
    }

    function Encode(): (plaintext: seq<Byte>)
      requires Valid()
    {
      U32(timestamp) + U32(syncSince) + password
    }
  }

  function DecodeLogin(plaintext: seq<Byte>): (r: Result<LoginRequest, PacketError>)
    ensures r.Ok? ==> r.value.Valid()
  {
    if |plaintext| < LOGIN_PREFIX_LEN then Err(Short)
    else Ok(LoginRequest(ReadU32(plaintext, 0), ReadU32(plaintext, 4), CString(plaintext, LOGIN_PREFIX_LEN)))
  }

  lemma LoginSurvivesPadding(login: LoginRequest, n: nat)
    requires login.Valid() && 0 !in login.password
    ensures DecodeLogin(login.Encode() + Zeros(n)) == Ok(login)
  {
    var plaintext := login.Encode() + Zeros(n);
    var head := U32(login.timestamp) + U32(login.syncSince);
    U32RoundTrip(login.timestamp);
    U32RoundTrip(login.syncSince);
    assert plaintext == head + login.password + Zeros(n);
    CStringTrimsPadding(head, login.password, n);
    assert forall i :: 0 <= i < 4 ==> plaintext[i] == U32(login.timestamp)[i];
    assert forall i :: 0 <= i < 4 ==> plaintext[4 + i] == U32(login.syncSince)[i];
    assert ReadU32(plaintext, 4) == ReadU32(U32(login.syncSince), 0);
  }

  // A decoded message body holds no NUL.
  lemma DecodedBodyNulFree(plaintext: seq<Byte>)
    requires DecodeText(plaintext).Ok?
    ensures 0 !in DecodeText(plaintext).value.Body()
  {
    var m := DecodeText(plaintext).value;
    if m.txtType.SignedPlain? {
      assert |m.text| > SIGNED_AUTHOR_PREFIX_LEN ==> m.Body() == CString(plaintext, TEXT_PREFIX_LEN + SIGNED_AUTHOR_PREFIX_LEN);
    } else {
      assert m.text == CString(plaintext, TEXT_PREFIX_LEN);
    }
  }

  datatype PathReturn = PathReturn(path: seq<Byte>, pathHashSize: int, extraType: int, extra: seq<Byte>) {
    predicate Valid() {
      && 1 <= pathHashSize <= MAX_PATH_HASH_SIZE
      && |path| % pathHashSize == 0
      && |path| / pathHashSize <= MAX_HOPS
      && 0 <= extraType < 256
    }

    function PackedLength(): (b: Byte)
      requires Valid()
    {
      PackPathLength(pathHashSize, |path| / pathHashSize)
    }

    function Encode(): (plaintext: seq<Byte>)
      requires Valid()
    {
      [PackedLength()] + path + [extraType] + extra
    }
  }

  function DecodePathReturn(plaintext: seq<Byte>): (r: Result<PathReturn, PacketError>) {
    if plaintext == [] then Err(Short)
    else
      var packed: int := plaintext[0];
      var hashSize := packed / 64 + 1;
      var pathBytes := packed % 64 * hashSize;
      if hashSize > MAX_PATH_HASH_SIZE then Err(ReservedHashSize)
      else if |plaintext| < 1 + pathBytes then Err(TruncatedPath)
      else
        var rest := plaintext[1 + pathBytes..];
        Ok(PathReturn(plaintext[1..1 + pathBytes], hashSize,
                      if rest == [] then 0xFF else rest[0], if rest == [] then [] else rest[1..]))
  }

  lemma PathReturnRoundTrip(p: PathReturn)
    requires p.Valid()
    ensures DecodePathReturn(p.Encode()) == Ok(p)
  {
    var plaintext := p.Encode();
    HopsExact(|p.path|, p.pathHashSize);
    assert plaintext[1..1 + |p.path|] == p.path;
    assert plaintext[1 + |p.path|..] == [p.extraType] + p.extra;
  }

  // A decoded path return is always valid; it re-encodes to the same bytes exactly when
  // it carried an extra-type byte at all, and gains the 0xFF marker otherwise.
  lemma PathReturnInverse(plaintext: seq<Byte>)
    requires DecodePathReturn(plaintext).Ok?
    ensures DecodePathReturn(plaintext).value.Valid()
    ensures var p := DecodePathReturn(plaintext).value;
      p.Encode() == if |plaintext| == 1 + |p.path| then plaintext + [0xFF] else plaintext
  {
    var packed: int := plaintext[0];
    Hops(packed % 64, packed / 64 + 1);
    var p := DecodePathReturn(plaintext).value;
    assert p.Valid() && p.PackedLength() == plaintext[0];
    Refront(plaintext, |p.path|);
  }

  lemma Refront(plaintext: seq<Byte>, n: nat)
    requires 1 + n <= |plaintext|
    ensures
      var front, rest := [plaintext[0]] + plaintext[1..1 + n], plaintext[1 + n..];
      plaintext == if rest == [] then front else front + [rest[0]] + rest[1..]
  {
    var rest := plaintext[1 + n..];
    assert plaintext == [plaintext[0]] + plaintext[1..1 + n] + rest;
    if rest != [] {
      Seqs.Uncons(rest);
    }
  }
}
