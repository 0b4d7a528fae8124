/**
 How a request travels to the TLS front end: the client writes it and then an end marker,
 each followed by a newline; the server reads line by line into a buffer of fixed size, so
 that long lines come in several chunks, until a chunk starts with the marker.
 */
module TlsFraming {
  import opened Text

  const END_OF_SSL_MSG := "$$>>><<<$$"
  const MSG_CHUNK_SIZE: nat := 8096

  // ---- The client ----------------------------------------------------------------------

  /** `sendMsgs`: every message and then the marker, as C strings ending in a newline. */
  method SendMsgs(msgs: seq<string>) returns (stream: string)
    ensures stream == Written(msgs + [END_OF_SSL_MSG])
  {
    var all := msgs + [END_OF_SSL_MSG];
    stream := "";
    var i := 0;
    while i < |all|
      invariant i <= |all|
      invariant Written(all) == stream + Written(all[i..])
    {
      assert all[i..][1..] == all[i + 1..];
      stream := stream + CStr(all[i] + "\n");
      i := i + 1;
    }
  }

  function Written(msgs: seq<string>): string {
    if msgs == [] then "" else CStr(msgs[0] + "\n") + Written(msgs[1..])
  }

  // ---- The server ----------------------------------------------------------------------

  /** Where a line read from `pos` into room for `room` characters ends. */
  function ChunkEnd(s: string, pos: nat, room: nat): (end: nat)
    requires pos < |s| && room >= 1
    ensures pos < end <= |s| && end <= pos + room
    ensures forall j | pos <= j < end - 1 :: s[j] != '\n'
    ensures end == |s| || end == pos + room || s[end - 1] == '\n'
    decreases room
  {
    if s[pos] == '\n' || room == 1 || pos + 1 == |s| then pos + 1
    else ChunkEnd(s, pos + 1, room - 1)
  }

  /** Where the read loop stops, having kept what comes before; None if it waits for ever. */
  function StopAt(stream: string, room: nat, pos: nat): Option<nat>
    requires room >= 1
    decreases |stream| - pos
  {
    if pos >= |stream| then None
    else
      var end := ChunkEnd(stream, pos, room);
      if StartsWith(stream[pos..end], END_OF_SSL_MSG) then Some(pos) else StopAt(stream, room, end)
  }

  /** `recvMsg`, on what the client wrote; the buffer's last character is for the NUL. */
  method RecvMsg(stream: string, bufferSize: nat) returns (data: string, ended: bool)
    requires bufferSize >= 2
    ensures ended <==> StopAt(stream, bufferSize - 1, 0).Some?
    ensures ended ==> var stop := StopAt(stream, bufferSize - 1, 0).value;
                      stop <= |stream| && data == stream[..stop]
  {
    data := "";
    ended := false;
    var pos := 0;
    while pos < |stream|
      invariant pos <= |stream| && data == stream[..pos]
      invariant StopAt(stream, bufferSize - 1, 0) == StopAt(stream, bufferSize - 1, pos)
    {
      var end := ChunkEnd(stream, pos, bufferSize - 1);
      var msgBuf := stream[pos..end];
      if StartsWith(msgBuf, END_OF_SSL_MSG) {
        ended := true;
        return;
      }
      assert stream[..end] == stream[..pos] + msgBuf;
      data := data + msgBuf;
      pos := end;
    }
  }

  // ---- Chunk boundaries ----------------------------------------------------------------

  /** `start` begins the line that `p` is on. */
  predicate LineStart(s: string, start: nat, p: nat) {
    && start <= p <= |s|
    && (start == 0 || s[start - 1] == '\n')
    && forall j | start <= j < p :: s[j] != '\n'
  }

  /** `n` characters fill a whole number of buffers. */
  predicate WholeBuffers(n: nat, room: nat)
    requires room >= 1
  {
    n == 0 || (n >= room && WholeBuffers(n - room, room))
  }

  /** A chunk begins at `p`: a whole number of bufferfuls into its line. */
  ghost predicate ChunkStart(s: string, room: nat, p: nat)
    requires room >= 1
  {
    exists start: nat :: LineStart(s, start, p) && WholeBuffers(p - start, room)
  }

  lemma NextChunkStart(s: string, room: nat, p: nat)
    requires room >= 1 && p < |s| && ChunkStart(s, room, p)
    requires s[|s| - 1] == '\n'
    ensures ChunkStart(s, room, ChunkEnd(s, p, room))
  {
    var start: nat :| LineStart(s, start, p) && WholeBuffers(p - start, room);
    var end := ChunkEnd(s, p, room);
    if s[end - 1] == '\n' {
      assert LineStart(s, end, end) && WholeBuffers(end - end, room);
    } else {
      assert LineStart(s, start, end) && WholeBuffers(end - start - room, room);
    }
  }

  /** Two chunk starts on one line are at least a bufferful apart. */
  lemma {:induction false} StartsApart(a: nat, b: nat, room: nat)
    requires room >= 1 && a < b && WholeBuffers(a, room) && WholeBuffers(b, room)
    ensures b - a >= room
  {
    if a > 0 { StartsApart(a - room, b - room, room); }
  }

  /** No chunk runs over the start of a later one. */
  lemma ChunksDoNotOverlap(s: string, room: nat, p: nat, q: nat)
    requires room >= 1 && p < q < |s| && ChunkStart(s, room, p) && ChunkStart(s, room, q)
    ensures ChunkEnd(s, p, room) <= q
  {
    var end := ChunkEnd(s, p, room);
    var a: nat :| LineStart(s, a, p) && WholeBuffers(p - a, room);
    var b: nat :| LineStart(s, b, q) && WholeBuffers(q - b, room);
    if q < end {
      assert a == b;
      StartsApart(p - a, q - a, room);
    }
  }

  // ---- The framing law -----------------------------------------------------------------

  /** No chunk of the request, with its newline, starts with the marker. */
  ghost predicate MarkerFree(body: string, room: nat)
    requires room >= 1
  {
    forall p: nat | p < |body| && ChunkStart(body, room, p) :: !At(body, END_OF_SSL_MSG, p)
  }

  lemma {:induction false} SameChunks(body: string, rest: string, room: nat, pos: nat)
    requires room >= 1 && pos < |body| && body[|body| - 1] == '\n'
    ensures ChunkEnd(body + rest, pos, room) == ChunkEnd(body, pos, room)
    decreases room
  {
    var s := body + rest;
    assert s[pos] == body[pos];
    if s[pos] != '\n' && room > 1 {
      SameChunks(body, rest, room - 1, pos + 1);
    }
  }

  /** A chunk starts with the marker exactly where the text does, given room for it. */
  lemma MarkerInChunk(body: string, room: nat, pos: nat)
    requires room >= |END_OF_SSL_MSG| && pos < |body|
    ensures StartsWith(body[pos..ChunkEnd(body, pos, room)], END_OF_SSL_MSG) <==> At(body, END_OF_SSL_MSG, pos)
  {
    var end := ChunkEnd(body, pos, room);
    var chunk := body[pos..end];
    if At(body, END_OF_SSL_MSG, pos) {
      var marker := body[pos..pos + 10];
      assert forall j | 0 <= j < 10 :: END_OF_SSL_MSG[j] != '\n';
      forall j | pos <= j < pos + 10 ensures body[j] != '\n' {
        assert body[j] == marker[j - pos];
      }
      assert chunk[0..10] == marker;
    }
    if StartsWith(chunk, END_OF_SSL_MSG) {
      assert body[pos..pos + 10] == chunk[0..10];
    }
  }

  /** From a chunk start on, the loop reads the body out exactly if nothing in it stops it. */
  lemma {:induction false} ReadsBody(body: string, room: nat, pos: nat)
    requires room >= |END_OF_SSL_MSG| && pos <= |body| && body != "" && body[|body| - 1] == '\n'
    requires ChunkStart(body, room, pos)
    ensures var stop := StopAt(body + (END_OF_SSL_MSG + "\n"), room, pos);
            && stop.Some? && stop.value <= |body|
            && (stop.value == |body| <==>
                 forall p: nat | pos <= p < |body| && ChunkStart(body, room, p) :: !At(body, END_OF_SSL_MSG, p))
    decreases |body| - pos
  {
    var stream := body + (END_OF_SSL_MSG + "\n");
    var end := ChunkEnd(stream, pos, room);
    if pos == |body| {
      assert stream[pos..] == END_OF_SSL_MSG + "\n";
      assert At(stream, END_OF_SSL_MSG, pos) by { assert stream[pos..pos + 10] == stream[pos..][..10]; }
      MarkerInChunk(stream, room, pos);
    } else {
      SameChunks(body, END_OF_SSL_MSG + "\n", room, pos);
      assert stream[pos..end] == body[pos..end];
      MarkerInChunk(body, room, pos);
      if !At(body, END_OF_SSL_MSG, pos) {
        NextChunkStart(body, room, pos);
        ReadsBody(body, room, end);
        forall p: nat | pos <= p < |body| && ChunkStart(body, room, p) ensures p == pos || end <= p {
          if p != pos { ChunksDoNotOverlap(body, room, pos, p); }
        }
      }
    }
  }

  lemma WrittenRequest(request: string)
    requires '\0' !in request
    ensures Written([request, END_OF_SSL_MSG]) == request + "\n" + (END_OF_SSL_MSG + "\n")
  {
    assert CStr(request + "\n") == request + "\n";
    assert CStr(END_OF_SSL_MSG + "\n") == END_OF_SSL_MSG + "\n";
    assert [request, END_OF_SSL_MSG][1..] == [END_OF_SSL_MSG] && [END_OF_SSL_MSG][1..] == [];
    assert Written([END_OF_SSL_MSG]) == END_OF_SSL_MSG + "\n" + "";
    assert END_OF_SSL_MSG + "\n" + "" == END_OF_SSL_MSG + "\n";
  }

  lemma {:induction false} WrittenHasNoNul(msgs: seq<string>)
    ensures '\0' !in Written(msgs)
  {
    if msgs != [] { WrittenHasNoNul(msgs[1..]); }
  }

  ghost predicate Delivered(request: string, room: nat)
    requires room >= 1
  {
    var stream := Written([request, END_OF_SSL_MSG]);
    var stop := StopAt(stream, room, 0);
    stop.Some? && stop.value <= |stream| && stream[..stop.value] == request + "\n"
  }

  /**
   With room for the marker, the server's loop ends with the request and one newline exactly
   for the requests without a NUL and without the marker at the start of a chunk.
   */
  lemma FramingRoundTrip(request: string, room: nat)
    requires room >= |END_OF_SSL_MSG|
    ensures Delivered(request, room) <==> '\0' !in request && MarkerFree(request + "\n", room)
  {
    var body := request + "\n";
    var stream := Written([request, END_OF_SSL_MSG]);
    if '\0' in request {
      WrittenHasNoNul([request, END_OF_SSL_MSG]);
      assert '\0' in body;
    } else {
      WrittenRequest(request);
      assert LineStart(body, 0, 0) && WholeBuffers(0 - 0, room);
      ReadsBody(body, room, 0);
      assert stream[..|body|] == body;
    }
  }

  /** A request without the marker anywhere is delivered, however its lines are cut. */
  lemma MarkerlessIsDelivered(request: string, room: nat)
    requires room >= |END_OF_SSL_MSG| && '\0' !in request && !Contains(request, END_OF_SSL_MSG)
    ensures Delivered(request, room)
  {
    var body := request + "\n";
    forall p: nat | p < |body| ensures !At(body, END_OF_SSL_MSG, p) {
      if p + 10 <= |request| {
        assert body[p..p + 10] == request[p..p + 10];
        assert !At(request, END_OF_SSL_MSG, p);
      } else if p + 10 == |body| {
        assert body[p..p + 10][9] == '\n';
      }
    }
    FramingRoundTrip(request, room);
  }

  /** Without room for the marker the loop never ends. */
  lemma {:induction false} SmallBufferWaitsForEver(stream: string, room: nat, pos: nat)
    requires 1 <= room < |END_OF_SSL_MSG|
    ensures StopAt(stream, room, pos) == None
    decreases |stream| - pos
  {
    if pos < |stream| {
      SmallBufferWaitsForEver(stream, room, ChunkEnd(stream, pos, room));
    }
  }

  /** Messages follow one another, each up to its first NUL and, without one, with a newline. */
  lemma {:induction false} WrittenInOrder(a: seq<string>, b: seq<string>)
    ensures Written(a + b) == Written(a) + Written(b)
  {
    if a == [] {
      assert a + b == b && "" + Written(b) == Written(b);
    } else {
      WrittenInOrder(a[1..], b);
      assert (a + b)[1..] == a[1..] + b;
      assert (a + b)[0] == a[0];
      InOrder(CStr(a[0] + "\n"), Written(a[1..]), Written(b));
    }
  }

  lemma InOrder(a: string, b: string, c: string)
    ensures a + (b + c) == a + b + c
  {
  }

  lemma WrittenAlone(msg: string, rest: string)
    requires '\0' !in msg
    ensures Written([msg]) == msg + "\n" && Written([msg + ("\0" + rest)]) == msg
  {
    assert [msg][1..] == [];
    var line, cut := msg + "\n", msg + ("\0" + rest) + "\n";
    assert CStr(line) == line && line + "" == line;
    assert [msg + ("\0" + rest)][1..] == [];
    assert cut[|msg|] == '\0' && cut[..|msg|] == msg;
    CutAt(msg, "\0" + rest + "\n");
    assert msg + ("\0" + rest + "\n") == cut && msg + "" == msg;
  }

  lemma {:induction false} CutAt(msg: string, rest: string)
    requires '\0' !in msg && rest != "" && rest[0] == '\0'
    ensures CStr(msg + rest) == msg
  {
    if msg == "" {
      assert msg + rest == rest;
    } else {
      CutAt(msg[1..], rest);
      assert (msg + rest)[1..] == msg[1..] + rest;
    }
  }
}
