// gpustack/api/responses.py: a streaming response that takes its status from the
// first chunk, as messages of the ASGI HTTP specification.
module Streaming {
  import opened Text

  type Bytes = seq<bv8>

  datatype Content = Raw(bytes: Bytes) | Chars(text: string)

  /** What the body iterator yields; a header value that is no dictionary is
      None. */
  datatype Chunk = Chunk(content: Content, headers: Option<seq<(string, string)>>, status: nat)

  /** How the iterator stops after its chunks. A cancellation is no Exception. */
  datatype Ending = Exhausted | Raises | Cancelled

  datatype Producer = Producer(chunks: seq<Chunk>, ending: Ending)

  datatype Message =
    | Start(status: nat, headers: seq<(Bytes, Bytes)>)
    | Body(body: Bytes, more: bool)

  const UNAVAILABLE := 503
  const INTERNAL_ERROR := 500

  /** str.encode("latin-1"). */
  function Latin1(s: string): (r: Option<Bytes>)
    ensures r.Some? <==> forall i :: 0 <= i < |s| ==> s[i] as int < 256
    ensures r.Some? ==> |r.value| == |s|
    ensures r.Some? ==> forall i :: 0 <= i < |s| ==> s[i] as int < 256 && r.value[i] == s[i] as int as bv8
  {
    if forall i :: 0 <= i < |s| ==> s[i] as int < 256
    then Some(seq(|s|, i requires 0 <= i < |s| && s[i] as int < 256 => s[i] as int as bv8))
    else None
  }

  function Latin1Headers(headers: seq<(string, string)>): Option<seq<(Bytes, Bytes)>> {
    if headers == [] then Some([])
    else
      match (Latin1(headers[0].0), Latin1(headers[0].1), Latin1Headers(headers[1..]))
      case (Some(k), Some(v), Some(rest)) => Some([(k, v)] + rest)
      case _ => None
  }

  predicate Latin1Text(s: string) {
    forall c :: c in s ==> c as int < 256
  }

  /** b is the text with one byte a character. */
  ghost predicate Spells(b: Bytes, s: string) {
    |b| == |s| && forall i :: 0 <= i < |s| ==> s[i] as int < 256 && b[i] == s[i] as int as bv8
  }

  /** The headers go out if all of them are Latin-1, in order, byte for character. */
  lemma {:induction false} HeadersAre(headers: seq<(string, string)>)
    ensures var r := Latin1Headers(headers);
            && (r.Some? <==> forall h :: h in headers ==> Latin1Text(h.0) && Latin1Text(h.1))
            && (r.Some? ==>
                  && |r.value| == |headers|
                  && forall i :: 0 <= i < |headers| ==>
                       Spells(r.value[i].0, headers[i].0) && Spells(r.value[i].1, headers[i].1))
  {
    if headers != [] {
      HeadersAre(headers[1..]);
      FitsLatin1(headers[0].0);
      FitsLatin1(headers[0].1);
      assert headers == [headers[0]] + headers[1..];
      hide Latin1;
    }
  }

  lemma FitsLatin1(s: string)
    ensures Latin1(s).Some? <==> Latin1Text(s)
    ensures Latin1(s).Some? ==> Spells(Latin1(s).value, s)
  {
    assert forall i :: 0 <= i < |s| ==> s[i] in s;
  }

  /** The response object: its charset's encoder, its own headers and error
      bodies, the status code it keeps, and everything sent. */
  class Response {
    const encode: string -> Option<Bytes>
    const rawHeaders: seq<(Bytes, Bytes)>
    const errorBody: nat -> Bytes
    var statusCode: nat
    var sent: seq<Message>

    constructor (encode: string -> Option<Bytes>, rawHeaders: seq<(Bytes, Bytes)>,
                 errorBody: nat -> Bytes, statusCode: nat)
      ensures this.encode == encode && this.rawHeaders == rawHeaders && this.errorBody == errorBody
      ensures this.statusCode == statusCode && sent == []
    {
      this.encode, this.rawHeaders, this.errorBody := encode, rawHeaders, errorBody;
      this.statusCode, sent := statusCode, [];
    }

    method Send(m: Message)
      modifies this`sent
      ensures sent == old(sent) + [m]
    {
      sent := sent + [m];
    }

    function Encoded(c: Content): Option<Bytes> {
      match c
      case Raw(b) => Some(b)
      case Chars(s) => encode(s)
    }

    /** The chunk goes out without an error; the first one with its headers. */
    predicate Fine(p: Producer, i: nat)
      requires i < |p.chunks|
    {
      && Encoded(p.chunks[i].content).Some?
      && (i == 0 ==> p.chunks[0].headers.Some? && Latin1Headers(p.chunks[0].headers.value).Some?)
    }

    /** How many chunks go out. */
    function Good(p: Producer): (n: nat)
      ensures n <= |p.chunks| && (forall i :: 0 <= i < n ==> Fine(p, i)) && (n < |p.chunks| ==> !Fine(p, n))
    {
      GoodFrom(p, 0)
    }

    function GoodFrom(p: Producer, i: nat): (n: nat)
      requires i <= |p.chunks|
      ensures i <= n <= |p.chunks| && (forall j :: i <= j < n ==> Fine(p, j)) && (n < |p.chunks| ==> !Fine(p, n))
      decreases |p.chunks| - i
    {
      if i < |p.chunks| && Fine(p, i) then GoodFrom(p, i + 1) else i
    }

    /** The stream is cut off from outside before anything of its own failed. */
    predicate CutOff(p: Producer) {
      p.ending == Cancelled && Good(p) == |p.chunks|
    }

    function Failure(status: nat): seq<Message> {
      [Start(status, rawHeaders), Body(errorBody(status), false)]
    }

    function BodyOf(p: Producer, i: nat): Message
      requires i < |p.chunks| && Fine(p, i)
    {
      Body(Encoded(p.chunks[i].content).value, true)
    }

    function Bodies(p: Producer, n: nat): (r: seq<Message>)
      requires n <= |p.chunks| && forall i :: 0 <= i < n ==> Fine(p, i)
      ensures |r| == n && forall i :: 0 <= i < n ==> r[i] == BodyOf(p, i)
    {
      if n == 0 then [] else Bodies(p, n - 1) + [BodyOf(p, n - 1)]
    }

    /** The messages up to the first n chunks. */
    function Begun(p: Producer, n: nat): (r: seq<Message>)
      requires 1 <= n <= |p.chunks| && forall i :: 0 <= i < n ==> Fine(p, i)
    {
      assert Fine(p, 0);
      [Start(p.chunks[0].status, Latin1Headers(p.chunks[0].headers.value).value)] + Bodies(p, n)
    }

    function Ended(p: Producer): seq<Message> {
      if CutOff(p) then []
      else if Good(p) == |p.chunks| && p.ending == Exhausted then [Body([], false)]
      else [Body(errorBody(INTERNAL_ERROR), false)]
    }

    /** What a producer leads to, as messages. */
    function Expected(p: Producer): seq<Message> {
      if Good(p) > 0 then Begun(p, Good(p)) + Ended(p)
      else if CutOff(p) then []
      else Failure(if p == Producer([], Exhausted) then UNAVAILABLE else INTERNAL_ERROR)
    }

    function FinalStatus(p: Producer): nat {
      if Good(p) > 0 then p.chunks[0].status
      else if p == Producer([], Exhausted) then UNAVAILABLE
      else INTERNAL_ERROR
    }

    /** The handler of except Exception. */
    method Fail(started: bool)
      modifies this
      ensures sent == old(sent) +
                      (if started then [Body(errorBody(INTERNAL_ERROR), false)] else Failure(INTERNAL_ERROR))
      ensures statusCode == if started then old(statusCode) else INTERNAL_ERROR
    {
      if !started {
        statusCode := INTERNAL_ERROR;
        Send(Start(statusCode, rawHeaders));
      }
      Send(Body(errorBody(INTERNAL_ERROR), false));
    }

    /** stream_response. */
    method StreamResponse(p: Producer)
      modifies this
      ensures sent == old(sent) + Expected(p)
      ensures !(CutOff(p) && p.chunks == []) ==> statusCode == FinalStatus(p)
    {
      if p.chunks == [] {
        match p.ending {
          case Exhausted =>
            statusCode := UNAVAILABLE;
            Send(Start(statusCode, rawHeaders));
            Send(Body(errorBody(UNAVAILABLE), false));
          case Raises => Fail(false);
          case Cancelled =>
        }
        return;
      }
      statusCode := p.chunks[0].status;
      var first := Encoded(p.chunks[0].content);
      if first == None || p.chunks[0].headers == None || Latin1Headers(p.chunks[0].headers.value) == None {
        Fail(false);
        return;
      }
      assert Fine(p, 0);
      Send(Start(statusCode, Latin1Headers(p.chunks[0].headers.value).value));
      Send(Body(first.value, true));
      assert sent == old(sent) + Begun(p, 1);
      StreamRest(p, old(sent));
    }

    /** The async for loop over the later chunks and what ends it. */
    method StreamRest(p: Producer, ghost before: seq<Message>)
      requires p.chunks != [] && Fine(p, 0) && sent == before + Begun(p, 1)
      modifies this
      ensures sent == before + Begun(p, Good(p)) + Ended(p)
      ensures statusCode == old(statusCode)
    {
      hide Latin1Headers, Encoded;
      var i := 1;
      while i < |p.chunks|
        invariant 1 <= i <= |p.chunks| && i <= Good(p)
        invariant statusCode == old(statusCode)
        invariant sent == before + Begun(p, i)
      {
        var body := Encoded(p.chunks[i].content);
        BodyFine(p, i);
        if body == None {
          Fail(true);
          return;
        }
        Send(Body(body.value, true));
        assert Begun(p, i + 1) == Begun(p, i) + [BodyOf(p, i)];
        i := i + 1;
      }
      match p.ending {
        case Exhausted => Send(Body([], false));
        case Raises => Fail(true);
        case Cancelled =>
      }
    }

    lemma BodyFine(p: Producer, i: nat)
      requires 1 <= i < |p.chunks|
      ensures Fine(p, i) <==> Encoded(p.chunks[i].content).Some?
    {
    }

    /** One start, then bodies that announce more, then one that does not. */
    static predicate Complete(m: seq<Message>) {
      && |m| >= 2 && m[0].Start? && m[|m| - 1].Body? && !m[|m| - 1].more
      && forall i :: 1 <= i < |m| - 1 ==> m[i].Body? && m[i].more
    }

    /** A beginning of such a conversation that lacks its last message. */
    static predicate Unfinished(m: seq<Message>) {
      forall i :: 0 <= i < |m| ==> if i == 0 then m[i].Start? else m[i].Body? && m[i].more
    }

    /** Whatever the producer does, the conversation is complete exactly unless
        the stream was cut off, and then it stops short in mid-conversation;
        and the status sent is the one the response keeps. */
    lemma CompleteUnlessCutOff(p: Producer)
      ensures Complete(Expected(p)) <==> !CutOff(p)
      ensures CutOff(p) ==> Unfinished(Expected(p))
      ensures Expected(p) != [] ==> Expected(p)[0].Start? && Expected(p)[0].status == FinalStatus(p)
    {
    }

    /** A chunk's content is bytes, or text that the charset has bytes for. */
    predicate Encodable(c: Content) {
      c.Chars? ==> encode(c.text).Some?
    }

    /** The first chunk also brings headers, all of them Latin-1. */
    ghost predicate Sendable(p: Producer, i: nat)
      requires i < |p.chunks|
    {
      && Encodable(p.chunks[i].content)
      && (i == 0 ==>
            p.chunks[0].headers.Some?
            && forall h :: h in p.chunks[0].headers.value ==> Latin1Text(h.0) && Latin1Text(h.1))
    }

    /** The body message carries the chunk's bytes or the charset's, and says that
        more is to come. */
    predicate Carries(m: Message, c: Content) {
      m.Body? && m.more && match c case Raw(b) => m.body == b case Chars(s) => encode(s) == Some(m.body)
    }

    lemma FineIsSendable(p: Producer, i: nat)
      requires i < |p.chunks|
      ensures Fine(p, i) <==> Sendable(p, i)
    {
      if p.chunks[0].headers.Some? {
        HeadersAre(p.chunks[0].headers.value);
      }
    }

    /** Everything sent, message by message. n chunks go out in order, with the
        first one's status and headers before them. Then comes an empty body if
        that was all, the 500 body if something failed, and nothing if the stream
        was cancelled. If none goes out there is one complete error response, 503
        if nothing was produced and 500 otherwise, or nothing on a cancellation. */
    lemma SentIs(p: Producer, n: nat)
      requires n <= |p.chunks| && (forall i :: 0 <= i < n ==> Sendable(p, i))
      requires n < |p.chunks| ==> !Sendable(p, n)
      ensures var m, failed := Expected(p), n < |p.chunks| || p.ending == Raises;
              if n == 0 then
                if |p.chunks| == 0 && p.ending == Exhausted
                then m == [Start(503, rawHeaders), Body(errorBody(503), false)] && FinalStatus(p) == 503
                else if failed
                then m == [Start(500, rawHeaders), Body(errorBody(500), false)] && FinalStatus(p) == 500
                else m == []
              else
                && |m| == n + (if !failed && p.ending == Cancelled then 1 else 2)
                && m[0].Start? && m[0].status == p.chunks[0].status == FinalStatus(p)
                && Sendable(p, 0) && |m[0].headers| == |p.chunks[0].headers.value|
                && (forall i :: 0 <= i < |m[0].headers| ==>
                      && Spells(m[0].headers[i].0, p.chunks[0].headers.value[i].0)
                      && Spells(m[0].headers[i].1, p.chunks[0].headers.value[i].1))
                && (forall i :: 0 <= i < n ==> Carries(m[i + 1], p.chunks[i].content))
                && (failed ==> m[n + 1] == Body(errorBody(500), false))
                && (!failed && p.ending == Exhausted ==> m[n + 1] == Body([], false))
    {
      forall i | 0 <= i < |p.chunks| ensures Fine(p, i) <==> Sendable(p, i) {
        FineIsSendable(p, i);
      }
      assert Good(p) == n;
      if n > 0 {
        assert Sendable(p, 0) && Fine(p, 0);
        HeadersAre(p.chunks[0].headers.value);
        forall i | 0 <= i < n ensures Carries(Expected(p)[i + 1], p.chunks[i].content) {
          assert Fine(p, i) && Expected(p)[i + 1] == BodyOf(p, i);
        }
      }
    }

    /** Nothing that was produced in order before the first failure is lost. */
    lemma AllGoodChunksSent(p: Producer, i: nat)
      requires i < |p.chunks| && forall j :: 0 <= j <= i ==> Fine(p, j)
      ensures i + 1 < |Expected(p)|
      ensures Expected(p)[i + 1] == BodyOf(p, i)
      ensures Expected(p)[0].Start? && Expected(p)[0].status == p.chunks[0].status
    {
      assert i < Good(p);
    }
  }
}
