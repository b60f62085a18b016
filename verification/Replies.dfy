/** The frames of the replies that take more than one frame, as the worker sends them
    (server/worker.c) and as the client reads them (api/fileserver_api.c). */
module Replies {
  import opened Basics
  import opened Wire
  import opened FileStore
  import opened Accounts
  import opened Laws
  import opened Sessions

  /** What get_status_message gives for each code: a constant field of fixed width. */
  type Phrase = p: seq<Byte> | |p| == PHRASE_BYTES witness seq(PHRASE_BYTES, _ => 0)
  type Phrases = Status -> Phrase

  function Code(status: Status): nat
  {
    match status
    case Success => 0
    case Accepted => 1
    case InternalError => 2
    case BadRequest => 3
    case NotFound => 4
    case Unauthorized => 5
    case MissingBody => 6
    case FileTooBig => 7
    case FilesExpelled => 8
    case FileExists => 9
    case Awaiting => 10
    case NoMoreCon => 11
  }

  function Frame(phrases: Phrases, status: Status, path: seq<Byte>, body: seq<Byte>): Response
  {
    Response(Code(status), phrases(status), path, body)
  }

  /** A path goes out with its terminating zero. */
  function CString(p: Path): seq<Byte>
  {
    p + [0]
  }

  /** A C string ends at its first zero. */
  function FromCString(b: seq<Byte>): Path
  {
    if b == [] || b[0] == 0 then [] else [b[0]] + FromCString(b[1..])
  }

  lemma {:induction false} CStringRoundTrip(p: Path)
    requires 0 !in p
    ensures FromCString(CString(p)) == p && |CString(p)| == |p| + 1
  {
    if p == [] {
    } else {
      assert CString(p)[1..] == CString(p[1..]);
      CStringRoundTrip(p[1..]);
    }
  }

  function FileFrames(phrases: Phrases, status: Status, sent: seq<Sent>): seq<Response>
  {
    if sent == [] then []
    else [Frame(phrases, status, CString(sent[0].path), sent[0].body)] + FileFrames(phrases, status, sent[1..])
  }

  /** A header with the number of files, then the files. */
  function Announce(phrases: Phrases, status: Status, sent: seq<Sent>): seq<Response>
  {
    [Frame(phrases, status, [], Bytes(|sent|, INT_BYTES))] + FileFrames(phrases, status, sent)
  }

  /** Nothing is announced when nothing was expelled. */
  function ExpelledFrames(phrases: Phrases, sent: seq<Sent>): seq<Response>
  {
    if sent == [] then [] else Announce(phrases, FilesExpelled, sent)
  }

  /** The reply to a write: the expelled files, if any, then the outcome. */
  function WriteReply(phrases: Phrases, p: Path, status: Status, sent: seq<Sent>): seq<Response>
  {
    ExpelledFrames(phrases, sent) + [Frame(phrases, status, CString(p), [])]
  }

  /** The first four bytes of a body as a C int. */
  function Int(body: seq<Byte>): int
    requires |body| >= INT_BYTES
  {
    var v := Number(body[..INT_BYTES]);
    if v < 0x8000_0000 then v else v - 0x1_0000_0000
  }

  lemma IntOfBytes(k: nat)
    requires k < 0x8000_0000
    ensures Int(Bytes(k, INT_BYTES)) == k
  {
    assert Limit(4) == 0x1_0000_0000 by {
      assert Limit(0) == 1 && Limit(1) == 256 && Limit(2) == 0x1_0000 && Limit(3) == 0x100_0000;
    }
    NumberOfBytes(k, INT_BYTES);
    assert Bytes(k, INT_BYTES)[..INT_BYTES] == Bytes(k, INT_BYTES);
  }

  /** The client reads k more frames, dropping each path from its mirror. None: it would block. */
  function ReadExpelled(frames: seq<Response>, k: int, mirror: seq<Path>): Option<(seq<Path>, seq<Response>)>
    decreases |frames|
  {
    if k <= 0 then Some((mirror, frames))
    else if frames == [] then None
    else ReadExpelled(frames[1..], k - 1, RemoveFirst(mirror, FromCString(frames[0].path)))
  }

  /** writeFile after its request: the result, the mirror and the frames left unread. */
  function ReadWriteReply(frames: seq<Response>, mirror: seq<Path>): Option<(int, seq<Path>, seq<Response>)>
  {
    if frames == [] then None
    else if frames[0].status != Code(FilesExpelled) then
      Some((if frames[0].status == Code(Success) then 0 else -1, mirror, frames[1..]))
    else if |frames[0].body| < INT_BYTES then None
    else
      match ReadExpelled(frames[1..], Int(frames[0].body), mirror)
      case None => None
      case Some((left, rest)) =>
        if rest == [] then None
        else Some((if rest[0].status == Code(Success) then 0 else -1, left, rest[1..]))
  }

  lemma {:induction false} ReadsAllExpelled(phrases: Phrases, sent: seq<Sent>, rest: seq<Response>, mirror: seq<Path>)
    requires forall x :: x in sent ==> 0 !in x.path
    ensures ReadExpelled(FileFrames(phrases, FilesExpelled, sent) + rest, |sent|, mirror)
         == Some((RemoveAll(mirror, Paths(sent)), rest))
    decreases sent
  {
    if sent == [] {
      assert FileFrames(phrases, FilesExpelled, sent) + rest == rest;
    } else {
      var frames := FileFrames(phrases, FilesExpelled, sent) + rest;
      CStringRoundTrip(sent[0].path);
      assert frames[1..] == FileFrames(phrases, FilesExpelled, sent[1..]) + rest;
      assert Paths(sent) == [sent[0].path] + Paths(sent[1..]);
      ReadsAllExpelled(phrases, sent[1..], rest, RemoveFirst(mirror, sent[0].path));
    }
  }

  lemma AnnouncedReplyAgreement(
      phrases: Phrases, sent: seq<Sent>, last: Response, rest: seq<Response>, mirror: seq<Path>)
    requires |sent| < 0x8000_0000 && forall x :: x in sent ==> 0 !in x.path
    ensures ReadWriteReply(Announce(phrases, FilesExpelled, sent) + [last] + rest, mirror)
         == Some((if last.status == Code(Success) then 0 else -1, RemoveAll(mirror, Paths(sent)), rest))
  {
    var frames := Announce(phrases, FilesExpelled, sent) + [last] + rest;
    var body := Bytes(|sent|, INT_BYTES);
    IntOfBytes(|sent|);
    assert frames[0] == Frame(phrases, FilesExpelled, [], body);
    assert frames[1..] == FileFrames(phrases, FilesExpelled, sent) + ([last] + rest);
    ReadsAllExpelled(phrases, sent, [last] + rest, mirror);
  }

  /** However many files a write expels, the client reads exactly the frames of its reply, and drops
      exactly the expelled paths from its mirror. */
  lemma WriteReplyAgreement(
      phrases: Phrases, p: Path, status: Status, sent: seq<Sent>, rest: seq<Response>, mirror: seq<Path>)
    requires status != FilesExpelled && |sent| < 0x8000_0000 && forall x :: x in sent ==> 0 !in x.path
    ensures ReadWriteReply(WriteReply(phrases, p, status, sent) + rest, mirror)
         == Some((if status == Success then 0 else -1, RemoveAll(mirror, Paths(sent)), rest))
  {
    var last := Frame(phrases, status, CString(p), []);
    if sent == [] {
      assert WriteReply(phrases, p, status, sent) + rest == [last] + rest;
      assert ([last] + rest)[1..] == rest;
    } else {
      AnnouncedReplyAgreement(phrases, sent, last, rest, mirror);
    }
  }

  /** The frames of a write carry exactly the abstract reply of the session model, for every write
      the server can serve. */
  lemma FramesCarryTheReply(s: Store, e: Event, phrases: Phrases, mirror: seq<Path>, rest: seq<Response>)
    requires Inv(s) && e.Write? && Apply(s, e, AsMeant).Done?
    requires s.maxSize < 0x8000_0000 && forall p :: p in s.files ==> 0 !in p
    ensures var o := Apply(s, e, AsMeant);
            var result := if o.status == Success then 0 else -1;
            var after := MirrorAfter(mirror, Ask(e), Reply(o.status, Paths(o.sent)));
            ReadWriteReply(WriteReply(phrases, e.p, o.status, o.sent) + rest, mirror) == Some((result, after, rest))
  {
    var o := Apply(s, e, AsMeant);
    if FirstWrite(s, e) {
      EvictIsShortestPrefix(s, |e.body|);
    }
    WriteReplyAgreement(phrases, e.p, o.status, o.sent, rest, mirror);
  }

  /** readNFiles after its request: the frames left unread. */
  function ReadNReply(frames: seq<Response>): Option<seq<Response>>
  {
    if frames == [] then None
    else if frames[0].status != Code(Success) then Some(frames[1..])
    else if |frames[0].body| < INT_BYTES then None
    else
      match ReadExpelled(frames[1..], Int(frames[0].body), [])
      case None => None
      case Some((_, rest)) => Some(rest)
  }

  lemma {:induction false} SkipsFiles(phrases: Phrases, sent: seq<Sent>, rest: seq<Response>)
    ensures ReadExpelled(FileFrames(phrases, Success, sent) + rest, |sent|, []) == Some(([], rest))
    decreases sent
  {
    if sent == [] {
      assert FileFrames(phrases, Success, sent) + rest == rest;
    } else {
      assert (FileFrames(phrases, Success, sent) + rest)[1..] == FileFrames(phrases, Success, sent[1..]) + rest;
      SkipsFiles(phrases, sent[1..], rest);
    }
  }

  lemma ReadNLeavesTrailingFrame(phrases: Phrases, sent: seq<Sent>, trailing: seq<Response>)
    requires |sent| < 0x8000_0000
    ensures ReadNReply(Announce(phrases, Success, sent) + trailing) == Some(trailing)
  {
    IntOfBytes(|sent|);
    assert (Announce(phrases, Success, sent) + trailing)[1..] == FileFrames(phrases, Success, sent) + trailing;
    SkipsFiles(phrases, sent, trailing);
  }

  /** What the worker sends for a read of many files: the handler's header and files, when it
      succeeds, and then a frame of its own. */
  function ReadNFrames(phrases: Phrases, o: Outcome): seq<Response>
    requires o.Done?
  {
    (if o.status == Success then Announce(phrases, Success, o.sent) else []) + [Frame(phrases, o.status, [], [])]
  }

  /** Whatever the storage holds, the client leaves exactly the worker's own frame on the stream. */
  lemma ReadNResidue(phrases: Phrases, s: Store, n: int, rest: seq<Response>)
    requires Inv(s) && s.maxSize < 0x8000_0000
    ensures ReadNReply(ReadNFrames(phrases, ReadNFiles(s, n)) + rest)
         == Some([Frame(phrases, Success, [], [])] + rest)
  {
    var o := ReadNFiles(s, n);
    ReadNReadsAll(s, n);
    var trailing := [Frame(phrases, Success, [], [])] + rest;
    assert ReadNFrames(phrases, o) + rest == Announce(phrases, Success, o.sent) + trailing;
    ReadNLeavesTrailingFrame(phrases, o.sent, trailing);
  }

  function ReadFrame(phrases: Phrases, p: Path, o: Outcome): Response
    requires o.Done?
  {
    Frame(phrases, o.status, CString(p), if o.sent == [] then [] else o.sent[0].body)
  }

  /** What the worker sends for an append to the store s: as written the case runs on into the one
      for reading. */
  function AppendFrames(phrases: Phrases, s: Store, c: Fd, p: Path, body: seq<Byte>, r: Reading): seq<Response>
  {
    var o := AppendFile(s, c, p, body);
    [Frame(phrases, o.status, CString(p), [])]
    + if r.AsMeant? then [] else [ReadFrame(phrases, p, ReadFile(o.store, p))]
  }

  /** The client reads the reply to an append as it does the one to a write. As written it always
      leaves the frame of the read behind. */
  lemma AppendReplyResidue(
      phrases: Phrases, s: Store, c: Fd, p: Path, body: seq<Byte>, r: Reading, rest: seq<Response>, mirror: seq<Path>)
    ensures var o := AppendFile(s, c, p, body);
            var left := if r.AsMeant? then rest else [ReadFrame(phrases, p, ReadFile(o.store, p))] + rest;
            var result := if o.status == Success then 0 else -1;
            ReadWriteReply(AppendFrames(phrases, s, c, p, body, r) + rest, mirror) == Some((result, mirror, left))
  {
    var frames := AppendFrames(phrases, s, c, p, body, r) + rest;
    var o := AppendFile(s, c, p, body);
    assert frames[0] == Frame(phrases, o.status, CString(p), []);
    assert frames[1..] == if r.AsMeant? then rest else [ReadFrame(phrases, p, ReadFile(o.store, p))] + rest;
  }

  /** So the call after an append is misread: a client that then writes is told how the read went, and
      the whole reply to the write stays behind, with the paths it expelled still among the opened. */
  lemma WriteAfterAppendMisread(
      phrases: Phrases, s: Store, c: Fd, p: Path, body: seq<Byte>, r: Reading, reply: seq<Response>, mirror: seq<Path>)
    requires r.AsWritten?
    ensures var first := ReadWriteReply(AppendFrames(phrases, s, c, p, body, r) + reply, mirror);
            && first.Some?
            && ReadWriteReply(first.value.2, first.value.1) == Some((if p in s.files then 0 else -1, mirror, reply))
  {
    AppendReplyResidue(phrases, s, c, p, body, r, reply, mirror);
    var read := ReadFrame(phrases, p, ReadFile(AppendFile(s, c, p, body).store, p));
    assert ([read] + reply)[1..] == reply;
  }

  /** The client side of a connection (the globals socket_fd and opened_files). */
  class ApiClient {
    var socketFd: int
    var openedFiles: seq<Path>

    constructor (fd: int)
      ensures socketFd == fd && openedFiles == []
    {
      socketFd, openedFiles := fd, [];
    }

    method RecvFrame(ch: Channel, ghost frames: seq<Response>) returns (frame: Response)
      requires socketFd >= 0 && frames != [] && (forall f :: f in frames ==> Replyable(f))
      requires ch.bytes == EncodeResponses(frames)
      modifies ch
      ensures frame == frames[0] && ch.bytes == EncodeResponses(frames[1..])
    {
      ResponseRoundTrip(frames[0], EncodeResponses(frames[1..]));
      var r := ch.RecvResponse(socketFd);
      frame := r.value;
    }

    /** The bytes are read as the frames they encode. */
    method ReceiveWriteReply(ch: Channel, ghost frames: seq<Response>) returns (result: int)
      requires socketFd >= 0 && (forall f :: f in frames ==> Replyable(f))
      requires ch.bytes == EncodeResponses(frames) && ReadWriteReply(frames, openedFiles).Some?
      modifies this`openedFiles, ch
      ensures ReadWriteReply(frames, old(openedFiles)).Some?
      ensures var (r, mirror, rest) := ReadWriteReply(frames, old(openedFiles)).value;
              result == r && openedFiles == mirror && ch.bytes == EncodeResponses(rest)
    {
      var response := RecvFrame(ch, frames);
      if response.status != Code(FilesExpelled) {
        return if response.status == Code(Success) then 0 else -1;
      }
      var howMany := Int(response.body);
      ghost var left := frames[1..];
      while howMany > 0
        invariant forall f :: f in left ==> Replyable(f)
        invariant ch.bytes == EncodeResponses(left)
        invariant ReadExpelled(left, howMany, openedFiles)
               == ReadExpelled(frames[1..], Int(frames[0].body), old(openedFiles))
        decreases howMany
      {
        howMany := howMany - 1;
        var received := RecvFrame(ch, left);
        openedFiles := RemoveFirst(openedFiles, FromCString(received.path));
        left := left[1..];
      }
      var final := RecvFrame(ch, left);
      return if final.status == Code(Success) then 0 else -1;
    }
  }

  /** The sending side of the announcement: the header, then the list. */
  method SendAnnounce(ch: Channel, fd: Fd, phrases: Phrases, status: Status, files: seq<Sent>)
    modifies ch
    ensures ch.bytes == old(ch.bytes) + EncodeResponses(Announce(phrases, status, files))
  {
    var header := Frame(phrases, status, [], Bytes(|files|, INT_BYTES));
    var _ := ch.SendResponse(fd, header);
    SendFiles(ch, fd, phrases, status, files);
    AnnounceBytes(old(ch.bytes), phrases, status, files);
  }

  method SendFiles(ch: Channel, fd: Fd, phrases: Phrases, status: Status, files: seq<Sent>)
    modifies ch
    ensures ch.bytes == old(ch.bytes) + EncodeResponses(FileFrames(phrases, status, files))
  {
    var howMany, list := |files|, files;
    while howMany > 0
      invariant howMany == |list|
      invariant ch.bytes + EncodeResponses(FileFrames(phrases, status, list))
             == old(ch.bytes) + EncodeResponses(FileFrames(phrases, status, files))
    {
      ghost var left := list;
      howMany := howMany - 1;
      var toSend := list[0];
      list := list[1..];
      var frame := Frame(phrases, status, CString(toSend.path), toSend.body);
      FirstFileBytes(ch.bytes, phrases, status, left);
      var _ := ch.SendResponse(fd, frame);
    }
  }

  lemma AnnounceBytes(sent: seq<Byte>, phrases: Phrases, status: Status, files: seq<Sent>)
    ensures sent + EncodeResponse(Frame(phrases, status, [], Bytes(|files|, INT_BYTES)))
                 + EncodeResponses(FileFrames(phrases, status, files))
         == sent + EncodeResponses(Announce(phrases, status, files))
  {
    FirstBytes(sent, Frame(phrases, status, [], Bytes(|files|, INT_BYTES)), FileFrames(phrases, status, files));
  }

  lemma FirstBytes(sent: seq<Byte>, r: Response, rs: seq<Response>)
    ensures sent + EncodeResponse(r) + EncodeResponses(rs) == sent + EncodeResponses([r] + rs)
  {
    EncodeFirst(r, rs);
  }

  lemma FirstFileBytes(sent: seq<Byte>, phrases: Phrases, status: Status, files: seq<Sent>)
    requires files != []
    ensures sent + EncodeResponse(Frame(phrases, status, CString(files[0].path), files[0].body))
                 + EncodeResponses(FileFrames(phrases, status, files[1..]))
         == sent + EncodeResponses(FileFrames(phrases, status, files))
  {
    var frame := Frame(phrases, status, CString(files[0].path), files[0].body);
    FirstBytes(sent, frame, FileFrames(phrases, status, files[1..]));
  }

  lemma EncodeFirst(r: Response, rs: seq<Response>)
    ensures EncodeResponses([r] + rs) == EncodeResponse(r) + EncodeResponses(rs)
  {
    assert ([r] + rs)[1..] == rs;
  }

  /** The status codes in the order of the protocol's table. */
  const TABLE: seq<Status> :=
    [Success, Accepted, InternalError, BadRequest, NotFound, Unauthorized, MissingBody, FileTooBig, FilesExpelled,
     FileExists, Awaiting, NoMoreCon]

  /** Each status has its place in the table as its code, so no two share one. */
  lemma CodeIsPlace(a: Status, b: Status)
    ensures Code(a) < |TABLE| == 12 && TABLE[Code(a)] == a
    ensures Code(a) == Code(b) <==> a == b
  {
    assert TABLE[Code(b)] == b;
  }

  /** The files that k frames bring: each a path and its bytes. */
  function Received(frames: seq<Response>, k: nat): seq<Sent>
    requires k <= |frames|
    decreases k
  {
    if k == 0 then [] else [Sent(FromCString(frames[0].path), frames[0].body)] + Received(frames[1..], k - 1)
  }

  /** The client receives the very files the worker sent. */
  lemma {:induction false} ReceivesFiles(phrases: Phrases, status: Status, sent: seq<Sent>, rest: seq<Response>)
    requires forall x :: x in sent ==> 0 !in x.path
    ensures var frames := FileFrames(phrases, status, sent) + rest;
            |sent| <= |frames| && Received(frames, |sent|) == sent
    decreases sent
  {
    if sent != [] {
      var frames := FileFrames(phrases, status, sent) + rest;
      CStringRoundTrip(sent[0].path);
      assert frames[1..] == FileFrames(phrases, status, sent[1..]) + rest;
      ReceivesFiles(phrases, status, sent[1..], rest);
      assert sent == [sent[0]] + sent[1..];
    }
  }

  /** An announcement brings its count and its files. */
  lemma AnnouncementDelivers(phrases: Phrases, status: Status, sent: seq<Sent>, rest: seq<Response>)
    requires |sent| < 0x8000_0000 && forall x :: x in sent ==> 0 !in x.path
    ensures var frames := Announce(phrases, status, sent) + rest;
            && frames[0].status == Code(status) && |frames[0].body| == INT_BYTES && Int(frames[0].body) == |sent|
            && |sent| <= |frames[1..]| && Received(frames[1..], |sent|) == sent
  {
    var frames := Announce(phrases, status, sent) + rest;
    IntOfBytes(|sent|);
    assert frames[0] == Frame(phrases, status, [], Bytes(|sent|, INT_BYTES));
    assert frames[1..] == FileFrames(phrases, status, sent) + rest;
    ReceivesFiles(phrases, status, sent, rest);
  }
}
