/** What reaches the client: the bytes of its reads, and the meaning of what its writes return. */
module Delivery {
  import opened Basics
  import opened Wire
  import opened FileStore
  import opened Accounts
  import opened Laws
  import opened Answers
  import opened Runs
  import opened Histories
  import opened Replies

  /** Every length fits its field. */
  ghost predicate Fits(s: Store, p: Path)
  {
    |p| + 1 < Limit(SIZE_BYTES) && (p in s.files ==> |s.files[p].contents| < Limit(SIZE_BYTES))
  }

  /** Decoding the frame of a served read gives the file as it is, or the news that there is none. */
  lemma ReadDecodes(phrases: Phrases, s: Store, c: Fd, p: Path, rest: seq<Byte>)
    requires Fits(s, p)
    ensures var o := Apply(s, Read(c, p), AsMeant);
            && o.Done?
            && var d := DecodeResponse(EncodeResponse(ReadFrame(phrases, p, o)) + rest);
               && d.Some? && d.value.1 == rest
               && (d.value.0.status == Code(Success) <==> p in s.files)
               && (d.value.0.status == Code(NotFound) <==> p !in s.files)
               && (p in s.files ==> d.value.0.body == s.files[p].contents)
               && d.value.0.phrase == phrases(o.status) && (0 !in p ==> FromCString(d.value.0.path) == p)
  {
    var o := Apply(s, Read(c, p), AsMeant);
    ReadAnswer(s, c, p, AsMeant);
    CodesFit(o.status);
    CodeIsPlace(o.status, Success);
    CodeIsPlace(o.status, NotFound);
    ResponseRoundTrip(ReadFrame(phrases, p, o), rest);
    if 0 !in p {
      CStringRoundTrip(p);
    }
  }

  /** The last frame of a served write names its outcome and its file. */
  lemma FinalFrame(phrases: Phrases, p: Path, status: Status, sent: seq<Sent>)
    requires 0 !in p
    ensures var frames := WriteReply(phrases, p, status, sent);
            && frames != []
            && var last := frames[|frames| - 1];
               && last.status == Code(status) && last.phrase == phrases(status)
               && FromCString(last.path) == p && last.body == []
  {
    CStringRoundTrip(p);
  }

  lemma CodesFit(a: Status)
    ensures Code(a) < Limit(INT_BYTES)
  {
    CodeIsPlace(a, a);
    assert Limit(1) == 256;
    assert Limit(2) >= 256 && Limit(3) >= 256 && Limit(4) >= 256;
  }

  /** Over any run from an empty storage the client of a read decodes the body of the file's write and of
      the appends it keeps, in order. */
  lemma ReadDelivers(
      ss: seq<Store>, es: seq<Event>, i: nat, phrases: Phrases, c: Fd, p: Path, rest: seq<Byte>)
    requires IsRun(ss, es, AsMeant) && Inv(ss[0]) && ss[0].files == map[] && i < |ss|
    requires p in ss[i].files && Fits(ss[i], p)
    ensures var o := Apply(ss[i], Read(c, p), AsMeant);
            && o.Done?
            && var d := DecodeResponse(EncodeResponse(ReadFrame(phrases, p, o)) + rest);
               && d.Some? && d.value.1 == rest
               && d.value.0.status == Code(Success) && d.value.0.body == History(ss, es, i, p)
  {
    ReadDecodes(phrases, ss[i], c, p, rest);
    HoldsHistory(ss, es, i, p);
  }

  /** writeFile returns 0 exactly when its write made the file a written one, and then the file holds the
      body. */
  lemma WriteReturns(s: Store, e: Event, phrases: Phrases, mirror: seq<Path>, rest: seq<Response>)
    requires Inv(s) && e.Write? && Apply(s, e, AsMeant).Done?
    requires s.maxSize < 0x8000_0000 && forall p :: p in s.files ==> 0 !in p
    ensures var o := Apply(s, e, AsMeant);
            var read := ReadWriteReply(WriteReply(phrases, e.p, o.status, o.sent) + rest, mirror);
            && read.Some? && read.value.0 in {0, -1} && read.value.2 == rest
            && (read.value.0 == 0 <==> !Written(s, e.p) && Written(o.store, e.p))
            && (read.value.0 == 0 ==> WroteBody(s, o.store, e.c, e.p, e.body))
  {
    FramesCarryTheReply(s, e, phrases, mirror, rest);
    WriteAnswer(s, e.c, e.p, e.body, AsMeant);
    WriteDone(s, e.c, e.p, e.body);
  }

  /** The files a write expels reach the client: the oldest written ones, each with its contents. */
  lemma ExpelledDelivered(s: Store, e: Event, phrases: Phrases, rest: seq<Response>)
    requires Inv(s) && e.Write? && Apply(s, e, AsMeant).Done? && Apply(s, e, AsMeant).sent != []
    requires s.maxSize < 0x8000_0000 && forall p :: p in s.files ==> 0 !in p
    ensures var o := Apply(s, e, AsMeant);
            var frames := WriteReply(phrases, e.p, o.status, o.sent) + rest;
            && frames[0].status == Code(FilesExpelled) && |frames[0].body| == INT_BYTES
            && Int(frames[0].body) == |o.sent| <= |frames[1..]|
            && ExpelledAre(s, o.store, Received(frames[1..], |o.sent|))
  {
    var o := Apply(s, e, AsMeant);
    WriteDone(s, e.c, e.p, e.body);
    WriteAnswer(s, e.c, e.p, e.body, AsMeant);
    EvictIsShortestPrefix(s, |e.body|);
    assert forall i :: 0 <= i < |o.sent| ==> s.fifo[i] in s.fifo[..|o.sent|];
    ReplyDelivers(phrases, e.p, o.status, o.sent, rest);
  }

  lemma ReplyDelivers(phrases: Phrases, p: Path, status: Status, sent: seq<Sent>, rest: seq<Response>)
    requires sent != [] && |sent| < 0x8000_0000 && forall x :: x in sent ==> 0 !in x.path
    ensures var frames := WriteReply(phrases, p, status, sent) + rest;
            && frames[0].status == Code(FilesExpelled) && |frames[0].body| == INT_BYTES
            && Int(frames[0].body) == |sent| <= |frames[1..]| && Received(frames[1..], |sent|) == sent
  {
    var last := [Frame(phrases, status, CString(p), [])] + rest;
    assert WriteReply(phrases, p, status, sent) + rest == Announce(phrases, FilesExpelled, sent) + last;
    AnnouncementDelivers(phrases, FilesExpelled, sent, last);
  }

  ghost predicate ExpelledAre(s: Store, t: Store, files: seq<Sent>)
  {
    && |files| <= |s.fifo|
    && forall i :: 0 <= i < |files| ==>
         && s.fifo[i] in s.files && s.fifo[i] !in t.files
         && files[i].path == s.fifo[i] && files[i].body == s.files[s.fifo[i]].contents
  }

  /** A read of n files delivers the first n of the queue, or all, with their contents. */
  lemma ReadNDelivers(s: Store, n: int, phrases: Phrases, rest: seq<Response>)
    requires Inv(s) && s.maxSize < 0x8000_0000 && forall p :: p in s.files ==> 0 !in p
    ensures var frames := ReadNFrames(phrases, ReadNFiles(s, n)) + rest;
            var k := if 0 < n <= |s.fifo| then n else |s.fifo|;
            && frames[0].status == Code(Success) && |frames[0].body| == INT_BYTES
            && Int(frames[0].body) == k <= |frames[1..]|
            && var files := Received(frames[1..], k);
               && |files| == k
               && forall i :: 0 <= i < k ==>
                    && s.fifo[i] in s.files && files[i].path == s.fifo[i]
                    && files[i].body == s.files[s.fifo[i]].contents
  {
    var o := ReadNFiles(s, n);
    ReadNReadsAll(s, n);
    LimitFits(s);
    var trailing := [Frame(phrases, Success, [], [])] + rest;
    assert ReadNFrames(phrases, o) + rest == Announce(phrases, Success, o.sent) + trailing;
    AnnouncementDelivers(phrases, Success, o.sent, trailing);
  }
}
