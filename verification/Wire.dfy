/** Requests and responses on a byte stream (utils/protocol.c). */
module Wire {
  import opened Basics

  const INT_BYTES := 4
  const SIZE_BYTES := 8
  const PHRASE_BYTES := 1024

  datatype Request = Request(code: nat, path: seq<Byte>, body: seq<Byte>)

  /** The phrase is a fixed-width field; what it holds is a constant of the status. */
  datatype Response = Response(status: nat, phrase: seq<Byte>, path: seq<Byte>, body: seq<Byte>)

  /** 256 to the power w. */
  function Limit(w: nat): (n: nat)
    ensures n > 0
  {
    if w == 0 then 1 else 256 * Limit(w - 1)
  }

  /** An unsigned number as w bytes, least significant first. */
  function Bytes(v: nat, w: nat): (b: seq<Byte>)
    ensures |b| == w
  {
    if w == 0 then [] else [v % 256] + Bytes(v / 256, w - 1)
  }

  function Number(b: seq<Byte>): (v: nat)
  {
    if b == [] then 0 else b[0] + 256 * Number(b[1..])
  }

  lemma {:induction false} NumberOfBytes(v: nat, w: nat)
    requires v < Limit(w)
    ensures Number(Bytes(v, w)) == v
  {
    if w == 0 {
    } else {
      NumberOfBytes(v / 256, w - 1);
      assert Bytes(v, w)[1..] == Bytes(v / 256, w - 1);
    }
  }

  /** The fields fit their C types. */
  ghost predicate Sendable(r: Request)
  {
    r.code < Limit(INT_BYTES) && |r.path| < Limit(SIZE_BYTES) && |r.body| < Limit(SIZE_BYTES)
  }

  ghost predicate Replyable(r: Response)
  {
    && r.status < Limit(INT_BYTES) && |r.phrase| == PHRASE_BYTES
    && |r.path| < Limit(SIZE_BYTES) && |r.body| < Limit(SIZE_BYTES)
  }

  /** A length followed by that many bytes. */
  function Counted(b: seq<Byte>): seq<Byte>
  {
    Bytes(|b|, SIZE_BYTES) + b
  }

  function EncodeRequest(r: Request): seq<Byte>
  {
    Bytes(r.code, INT_BYTES) + Counted(r.path) + Counted(r.body)
  }

  function EncodeResponse(r: Response): seq<Byte>
  {
    Bytes(r.status, INT_BYTES) + r.phrase + Counted(r.path) + Counted(r.body)
  }

  /** The first n bytes of a stream and the rest, or None when it is shorter. */
  function Take(s: seq<Byte>, n: nat): (r: Option<(seq<Byte>, seq<Byte>)>)
    ensures r.Some? <==> n <= |s|
    ensures r.Some? ==> |r.value.0| == n && r.value.0 + r.value.1 == s
  {
    if n <= |s| then Some((s[..n], s[n..])) else None
  }

  function TakeCounted(s: seq<Byte>): (r: Option<(seq<Byte>, seq<Byte>)>)
    ensures r.Some? ==> |r.value.1| + SIZE_BYTES <= |s|
  {
    match Take(s, SIZE_BYTES)
    case None => None
    case Some((n, rest)) => Take(rest, Number(n))
  }

  function DecodeRequest(s: seq<Byte>): (r: Option<(Request, seq<Byte>)>)
    ensures r.Some? ==> |r.value.1| < |s|
  {
    match Take(s, INT_BYTES)
    case None => None
    case Some((code, s1)) =>
      match TakeCounted(s1)
      case None => None
      case Some((path, s2)) =>
        match TakeCounted(s2)
        case None => None
        case Some((body, s3)) => Some((Request(Number(code), path, body), s3))
  }

  function DecodeResponse(s: seq<Byte>): (r: Option<(Response, seq<Byte>)>)
    ensures r.Some? ==> |r.value.1| < |s|
  {
    match Take(s, INT_BYTES)
    case None => None
    case Some((status, s0)) =>
      match Take(s0, PHRASE_BYTES)
      case None => None
      case Some((phrase, s1)) =>
        match TakeCounted(s1)
        case None => None
        case Some((path, s2)) =>
          match TakeCounted(s2)
          case None => None
          case Some((body, s3)) => Some((Response(Number(status), phrase, path, body), s3))
  }

  lemma TakeOfConcat(b: seq<Byte>, rest: seq<Byte>)
    ensures Take(b + rest, |b|) == Some((b, rest))
  {
    assert (b + rest)[..|b|] == b && (b + rest)[|b|..] == rest;
  }

  lemma TakeCountedOfConcat(b: seq<Byte>, rest: seq<Byte>)
    requires |b| < Limit(SIZE_BYTES)
    ensures TakeCounted(Counted(b) + rest) == Some((b, rest))
  {
    var n := Bytes(|b|, SIZE_BYTES);
    assert Counted(b) + rest == n + (b + rest);
    TakeOfConcat(n, b + rest);
    NumberOfBytes(|b|, SIZE_BYTES);
    TakeOfConcat(b, rest);
  }

  /** Decoding undoes encoding and leaves what follows untouched. */
  lemma RequestRoundTrip(r: Request, rest: seq<Byte>)
    requires Sendable(r)
    ensures DecodeRequest(EncodeRequest(r) + rest) == Some((r, rest))
  {
    var code := Bytes(r.code, INT_BYTES);
    var s2 := Counted(r.body) + rest;
    var s1 := Counted(r.path) + s2;
    assert EncodeRequest(r) + rest == code + s1;
    TakeOfConcat(code, s1);
    NumberOfBytes(r.code, INT_BYTES);
    TakeCountedOfConcat(r.path, s2);
    TakeCountedOfConcat(r.body, rest);
  }

  lemma ResponseRoundTrip(r: Response, rest: seq<Byte>)
    requires Replyable(r)
    ensures DecodeResponse(EncodeResponse(r) + rest) == Some((r, rest))
  {
    var status := Bytes(r.status, INT_BYTES);
    var s2 := Counted(r.body) + rest;
    var s1 := Counted(r.path) + s2;
    assert EncodeResponse(r) + rest == status + (r.phrase + s1);
    TakeOfConcat(status, r.phrase + s1);
    NumberOfBytes(r.status, INT_BYTES);
    TakeOfConcat(r.phrase, s1);
    TakeCountedOfConcat(r.path, s2);
    TakeCountedOfConcat(r.body, rest);
  }

  function EncodeRequests(rs: seq<Request>): seq<Byte>
  {
    if rs == [] then [] else EncodeRequest(rs[0]) + EncodeRequests(rs[1..])
  }

  function EncodeResponses(rs: seq<Response>): seq<Byte>
  {
    if rs == [] then [] else EncodeResponse(rs[0]) + EncodeResponses(rs[1..])
  }

  /** Decodes until nothing is left; None when the last frame is cut short. */
  function DecodeRequests(s: seq<Byte>): Option<seq<Request>>
    decreases |s|
  {
    if s == [] then Some([])
    else
      match DecodeRequest(s)
      case None => None
      case Some((r, rest)) =>
        match DecodeRequests(rest)
        case None => None
        case Some(rs) => Some([r] + rs)
  }

  function DecodeResponses(s: seq<Byte>): Option<seq<Response>>
    decreases |s|
  {
    if s == [] then Some([])
    else
      match DecodeResponse(s)
      case None => None
      case Some((r, rest)) =>
        match DecodeResponses(rest)
        case None => None
        case Some(rs) => Some([r] + rs)
  }

  lemma RequestFirst(r: Request, rest: seq<Byte>, rs: seq<Request>)
    requires Sendable(r) && DecodeRequests(rest) == Some(rs)
    ensures DecodeRequests(EncodeRequest(r) + rest) == Some([r] + rs)
  {
    RequestRoundTrip(r, rest);
  }

  lemma ResponseFirst(r: Response, rest: seq<Byte>, rs: seq<Response>)
    requires Replyable(r) && DecodeResponses(rest) == Some(rs)
    ensures DecodeResponses(EncodeResponse(r) + rest) == Some([r] + rs)
  {
    ResponseRoundTrip(r, rest);
  }

  /** A whole stream of requests is read back frame by frame, with nothing left over. */
  lemma {:induction false} RequestStreamRoundTrip(rs: seq<Request>)
    requires forall r :: r in rs ==> Sendable(r)
    ensures DecodeRequests(EncodeRequests(rs)) == Some(rs)
  {
    if rs == [] {
    } else {
      RequestStreamRoundTrip(rs[1..]);
      RequestFirst(rs[0], EncodeRequests(rs[1..]), rs[1..]);
      assert [rs[0]] + rs[1..] == rs;
    }
  }

  lemma {:induction false} ResponseStreamRoundTrip(rs: seq<Response>)
    requires forall r :: r in rs ==> Replyable(r)
    ensures DecodeResponses(EncodeResponses(rs)) == Some(rs)
  {
    if rs == [] {
    } else {
      ResponseStreamRoundTrip(rs[1..]);
      ResponseFirst(rs[0], EncodeResponses(rs[1..]), rs[1..]);
      assert [rs[0]] + rs[1..] == rs;
    }
  }

  /** One direction of a connection: the bytes written and not yet read. */
  class Channel {
    var bytes: seq<Byte>

    constructor ()
      ensures bytes == []
    {
      bytes := [];
    }

    method Write(b: seq<Byte>)
      modifies this
      ensures bytes == old(bytes) + b
    {
      bytes := bytes + b;
    }

    /** A full read. */
    method Read(n: nat) returns (b: seq<Byte>)
      requires n <= |bytes|
      modifies this
      ensures Take(old(bytes), n) == Some((b, bytes))
    {
      b, bytes := bytes[..n], bytes[n..];
    }

    method SendRequest(fd: int, r: Request) returns (result: int)
      modifies this
      ensures result == if fd < 0 then -1 else 0
      ensures bytes == if fd < 0 then old(bytes) else old(bytes) + EncodeRequest(r)
    {
      if fd < 0 {
        return -1;
      }
      Write(Bytes(r.code, INT_BYTES));
      SendCounted(r.path);
      SendCounted(r.body);
      return 0;
    }

    method SendResponse(fd: int, r: Response) returns (result: int)
      modifies this
      ensures result == if fd < 0 then -1 else 0
      ensures bytes == if fd < 0 then old(bytes) else old(bytes) + EncodeResponse(r)
    {
      if fd < 0 {
        return -1;
      }
      Write(Bytes(r.status, INT_BYTES));
      Write(r.phrase);
      SendCounted(r.path);
      SendCounted(r.body);
      return 0;
    }

    method SendCounted(b: seq<Byte>)
      modifies this
      ensures bytes == old(bytes) + Counted(b)
    {
      Write(Bytes(|b|, SIZE_BYTES));
      if |b| != 0 {
        Write(b);
      }
    }

    method RecvCounted() returns (b: seq<Byte>)
      requires TakeCounted(bytes).Some?
      modifies this
      ensures TakeCounted(old(bytes)) == Some((b, bytes))
    {
      var n := Read(SIZE_BYTES);
      b := [];
      if Number(n) != 0 {
        b := Read(Number(n));
      }
    }

    method RecvRequest(fd: int) returns (r: Option<Request>)
      requires fd >= 0 ==> DecodeRequest(bytes).Some?
      modifies this
      ensures fd < 0 ==> r == None && bytes == old(bytes)
      ensures fd >= 0 ==> r.Some? && DecodeRequest(old(bytes)) == Some((r.value, bytes))
    {
      if fd < 0 {
        return None;
      }
      var code := Read(INT_BYTES);
      var path := RecvCounted();
      var body := RecvCounted();
      return Some(Request(Number(code), path, body));
    }

    method RecvResponse(fd: int) returns (r: Option<Response>)
      requires fd >= 0 ==> DecodeResponse(bytes).Some?
      modifies this
      ensures fd < 0 ==> r == None && bytes == old(bytes)
      ensures fd >= 0 ==> r.Some? && DecodeResponse(old(bytes)) == Some((r.value, bytes))
    {
      if fd < 0 {
        return None;
      }
      var status := Read(INT_BYTES);
      var phrase := Read(PHRASE_BYTES);
      var path := RecvCounted();
      var body := RecvCounted();
      return Some(Response(Number(status), phrase, path, body));
    }
  }

  /** Where the fields of a request lie on the wire. */
  lemma RequestLayout(r: Request)
    requires Sendable(r)
    ensures var b := EncodeRequest(r);
            && |b| == 20 + |r.path| + |r.body|
            && Number(b[..4]) == r.code && Number(b[4..12]) == |r.path| && b[12..12 + |r.path|] == r.path
            && Number(b[12 + |r.path|..20 + |r.path|]) == |r.body| && b[20 + |r.path|..] == r.body
  {
    var b := EncodeRequest(r);
    var code, n, m := Bytes(r.code, INT_BYTES), Bytes(|r.path|, SIZE_BYTES), Bytes(|r.body|, SIZE_BYTES);
    assert b == code + n + r.path + m + r.body;
    assert b[..4] == code && b[4..12] == n && b[12 + |r.path|..20 + |r.path|] == m;
    NumberOfBytes(r.code, INT_BYTES);
    NumberOfBytes(|r.path|, SIZE_BYTES);
    NumberOfBytes(|r.body|, SIZE_BYTES);
  }

  /** Where the fields of a response lie on the wire. */
  lemma ResponseLayout(r: Response)
    requires Replyable(r)
    ensures var b, p := EncodeResponse(r), 1036 + |r.path|;
            && |b| == 1044 + |r.path| + |r.body|
            && Number(b[..4]) == r.status && b[4..1028] == r.phrase
            && Number(b[1028..1036]) == |r.path| && b[1036..p] == r.path
            && Number(b[p..p + 8]) == |r.body| && b[p + 8..] == r.body
  {
    var b, p := EncodeResponse(r), 1036 + |r.path|;
    var status, n, m := Bytes(r.status, INT_BYTES), Bytes(|r.path|, SIZE_BYTES), Bytes(|r.body|, SIZE_BYTES);
    assert b == status + r.phrase + n + r.path + m + r.body;
    assert b[..4] == status && b[1028..1036] == n && b[p..p + 8] == m;
    NumberOfBytes(r.status, INT_BYTES);
    NumberOfBytes(|r.path|, SIZE_BYTES);
    NumberOfBytes(|r.body|, SIZE_BYTES);
  }
}
