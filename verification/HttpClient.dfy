/** The keep-alive upload client: one cached TLS connection, one request at a
    time, one retry when the cached connection turns out to be dead. */
module HttpClient {
  import opened CLib
  import opened HttpFraming
  import opened HttpNet
  import opened HttpReply
  import HttpDivision

  const UPLOAD_CHUNK_SIZE: nat := 8192
  const KA_IDLE_MAX_US: int := 20 * 1000 * 1000

  // ---- the response buffer ----

  /** The buffer holds what was received, terminated. */
  ghost predicate Holds(buf: array<char>, got: string)
    reads buf
  {
    |got| < buf.Length && buf[..|got|] == got && buf[|got|] == '\0'
  }

  lemma HoldsText(buf: array<char>, got: string)
    requires Holds(buf, got)
    ensures StringAt(buf[..], 0, UpToNul(got))
  {
    var text := UpToNul(got);
    assert buf[..][0..|text|] == got[..|text|] == text;
  }

  /** ci_strstr. */
  method CiStrStr(buf: array<char>, needle: string, ghost text: string) returns (r: Option<nat>)
    requires StringAt(buf[..], 0, text)
    requires needle != "" && NulFree(needle)
    ensures r == CiFind(text, needle)
  {
    hide Lower;
    assert forall i :: 0 <= i < |text| ==> buf[i] == buf[..][0..|text|][i] == text[i];
    var at := 0;
    while buf[at] != '\0'
      invariant at <= |text|
      invariant CiFind(text, needle, at) == CiFind(text, needle)
      decreases |text| - at
    {
      var i := 0;
      while i < |needle| && Lower(buf[at + i]) == Lower(needle[i])
        invariant i <= |needle| && at + i <= |text|
        invariant forall k :: 0 <= k < i ==> Lower(text[at + k]) == Lower(needle[k])
      {
        NotNul(needle, i);
        i := i + 1;
      }
      if i == |needle| {
        return Some(at);
      }
      assert i < |needle| && (at + i < |text| ==> text[at + i] == buf[at + i]);
      at := at + 1;
    }
    return None;
  }

  lemma NotNul(needle: string, i: nat)
    requires i < |needle| && NulFree(needle)
    ensures Lower(needle[i]) != Lower('\0')
  {
  }

  /** Appends a piece behind what was received, as ssl_read does in place. */
  method Append(buf: array<char>, total: nat, piece: string, ghost got: string)
    requires Holds(buf, got) && total == |got| && |got| + |piece| < buf.Length
    modifies buf
    ensures Holds(buf, got + piece)
  {
    var i := 0;
    while i < |piece|
      invariant i <= |piece|
      invariant buf[..total] == got
      invariant buf[total..total + i] == piece[..i]
    {
      buf[total + i] := piece[i];
      i := i + 1;
    }
    buf[total + i] := '\0';
    assert buf[..total + i] == got + piece;
  }

  /** The locals of the read loop are those of the reader. */
  predicate Locals(r: Reader, total: nat, headerEnd: int, contentLen: int, closeHdr: bool,
                   complete: bool, truncated: bool, done: bool)
  {
    && total == |r.got|
    && r.head == HeadVars(headerEnd, contentLen, closeHdr) && (headerEnd < 0 ==> !closeHdr)
    && complete == r.complete && truncated == r.truncated && (complete || truncated ==> done)
    && r.done == (done || total >= BUFFER - 1)
  }

  /** What was read of the reply and what is still to come; nothing is, once the
      connection may be kept. */
  predicate Halfway(r: Reader, unread: string, reply: string) {
    && Reading(r, reply) && reply == r.got + unread
    && (Framed(reply) && Reusable(r) ==> unread == "")
  }

  /** https_client.c:496-566: reads the response of one request.  `rs` records
      what the reads delivered. */
  method ReadResponse(chan: Channel) returns (status: Option<int>, dead: bool, ghost rs: seq<Read>)
    requires chan.InUse()
    modifies chan`unread, chan`peerClosed, chan.wire
    ensures Ran(rs) && status == StatusOf(TakeAll(rs).got) && dead == !Reusable(TakeAll(rs))
    ensures old(chan.unread) == TakeAll(rs).got + chan.unread
    ensures chan.wire.requests == Filled(old(chan.wire.requests), "", TakeAll(rs).got)
    ensures old(chan.wire.failures) <= chan.wire.failures
    // a connection that is kept has nothing left to read
    ensures Framed(old(chan.unread)) && !dead ==> chan.unread == ""
  {
    hide TakeAll, ParseHead, Framed, UpToNul, Atoi, Halfway, Filled, Take, Running;
    ghost var reply := chan.unread;
    ghost var before := chan.wire.requests;
    var response := new char[BUFFER](i => '\0');
    var total, headerEnd, contentLen := 0, -1, -1;
    var closeHdr, complete, truncated, done := false, false, false, false;
    ghost var r := IDLE;
    rs := [];
    NothingTaken();
    NothingRead(reply);
    FilledNothing(before);
    while total < BUFFER - 1 && !done
      invariant fresh(response) && response.Length == BUFFER && Holds(response, r.got)
      invariant Locals(r, total, headerEnd, contentLen, closeHdr, complete, truncated, done)
      invariant r == TakeAll(rs) && Running(rs)
      invariant Halfway(r, chan.unread, reply)
      invariant chan.wire.requests == Filled(before, "", r.got) && chan.InUse()
      invariant old(chan.wire.failures) <= chan.wire.failures
      decreases BUFFER - total, !done
    {
      ghost var read;
      total, headerEnd, contentLen, closeHdr, complete, truncated, done, read :=
        ReadPiece(chan, response, total, headerEnd, contentLen, closeHdr, r, reply, before);
      TakenNext(rs, read);
      rs := rs + [read];
      r := Take(r, read);
    }
    HalfwayMeans(r, chan.unread, reply);
    HoldsText(response, r.got);
    var text := Text(response, 0, UpToNul(r.got));
    status := match Find(text, " ") case Some(i) => Some(Atoi(text[i + 1..])) case None => None;
    dead := !(complete && !closeHdr && !truncated);
  }

  /** One turn of the read loop. */
  method ReadPiece(chan: Channel, response: array<char>, total: nat, headerEnd: int, contentLen: int,
                   closeHdr: bool, ghost r: Reader, ghost reply: string, ghost before: seq<Request>)
    returns (total': nat, end: int, len: int, close: bool, complete: bool, truncated: bool, done: bool,
             ghost read: Read)
    requires response.Length == BUFFER && Holds(response, r.got) && total < BUFFER - 1
    requires Locals(r, total, headerEnd, contentLen, closeHdr, false, false, false)
    requires Halfway(r, chan.unread, reply)
    requires before != [] && chan.wire.requests == Filled(before, "", r.got) && chan.InUse()
    modifies chan`unread, chan`peerClosed, chan.wire, response
    ensures Holds(response, Take(r, read).got)
    ensures Locals(Take(r, read), total', end, len, close, complete, truncated, done)
    ensures Halfway(Take(r, read), chan.unread, reply)
    ensures chan.wire.requests == Filled(before, "", Take(r, read).got) && chan.InUse()
    ensures old(chan.wire.failures) <= chan.wire.failures
    ensures total' > total || (done && total' == total)
  {
    hide ParseHead, Framed, Halfway, Filled;
    total', end, len, close, complete, truncated, done :=
      total, headerEnd, contentLen, closeHdr, false, false, false;
    var piece := chan.Receive(BUFFER - 1 - total);
    read := piece;
    match piece
    case Eof =>
      Ends(r, piece, chan.unread, reply);
      complete := headerEnd >= 0;
      done := true;
    case Failed =>
      Ends(r, piece, chan.unread, reply);
      truncated := total > 0;
      done := true;
    case Data(bytes) =>
      Arrives(r, bytes, chan.unread, reply);
      FilledGot(before, r.got, bytes);
      end, len, close, complete := Absorb(response, total, bytes, headerEnd, contentLen, closeHdr, r);
      total' := total + |bytes|;
      done := complete;
  }

  lemma NothingRead(reply: string)
    ensures Halfway(IDLE, reply, reply)
  {
  }

  lemma HalfwayMeans(r: Reader, unread: string, reply: string)
    requires Halfway(r, unread, reply)
    ensures reply == r.got + unread
    ensures Framed(reply) && Reusable(r) ==> unread == ""
  {
  }

  lemma Ends(r: Reader, read: Read, unread: string, reply: string)
    requires Halfway(r, unread, reply) && !r.done && !read.Data? && (read.Eof? ==> unread == "")
    ensures Halfway(Take(r, read), unread, reply)
  {
    hide ParseHead, Framed;
  }

  /** A piece off the front of what is still to come. */
  lemma Arrives(r: Reader, bytes: string, left: string, reply: string)
    requires Halfway(r, bytes + left, reply) && !r.done && bytes != "" && |r.got + bytes| < BUFFER
    ensures Halfway(Take(r, Data(bytes)), left, reply)
  {
    hide ParseHead, Framed;
    assert r.got + (bytes + left) == (r.got + bytes) + left;
    TakeKeepsReading(r, bytes, reply);
  }

  lemma NothingTaken()
    ensures TakeAll([]) == IDLE && Running([])
  {
  }

  lemma TakenNext(rs: seq<Read>, read: Read)
    requires Running(rs) && !TakeAll(rs).done
    ensures TakeAll(rs + [read]) == Take(TakeAll(rs), read) && Running(rs + [read])
  {
    assert (rs + [read])[..|rs|] == rs;
    forall k | 0 <= k <= |rs|
      ensures !TakeAll((rs + [read])[..k]).done
    {
      assert (rs + [read])[..k] == rs[..k];
      assert rs[..|rs|] == rs;
    }
  }

  function HeadVars(headerEnd: int, contentLen: int, closeHdr: bool): Head {
    if headerEnd < 0 then NoHead else Head(headerEnd, contentLen, closeHdr)
  }

  /** https_client.c:530-550: takes in one piece, and tells whether the body is complete. */
  method Absorb(response: array<char>, total: nat, bytes: string,
                headerEnd: int, contentLen: int, closeHdr: bool, ghost r: Reader)
    returns (end: int, len: int, close: bool, complete: bool)
    requires Holds(response, r.got) && total == |r.got| && |r.got| + |bytes| < response.Length
    requires !r.done && !r.complete && r.head == HeadVars(headerEnd, contentLen, closeHdr)
    modifies response
    ensures var next := Take(r, Data(bytes));
            && Holds(response, next.got)
            && next.head == HeadVars(end, len, close)
            && next.complete == complete
            && next.done == (complete || |next.got| >= BUFFER - 1)
    ensures end < 0 ==> !close
  {
    hide ParseHead;
    end, len, close := headerEnd, contentLen, closeHdr;
    Append(response, total, bytes, r.got);
    if end < 0 {
      end, len, close := ScanHead(response, r.got + bytes);
    }
    complete := end >= 0 && len >= 0 && total + |bytes| >= end + len;
  }

  /** https_client.c:533-545; -1 while the header is incomplete. */
  method ScanHead(response: array<char>, ghost got: string) returns (end: int, contentLen: int, close: bool)
    requires Holds(response, got)
    ensures ParseHead(got) == if end < 0 then NoHead else Head(end, contentLen, close)
    ensures end < 0 ==> contentLen == -1 && !close
  {
    hide UpToNul, Find, CiFind, Atoi;
    end, contentLen, close := -1, -1, false;
    HoldsText(response, got);
    var text := Text(response, 0, UpToNul(got));
    var he := Find(text, END_OF_HEADER);
    if he.Some? {
      end := he.value + |END_OF_HEADER|;
      var cl := CiStrStr(response, CONTENT_LENGTH, text);
      if cl.Some? {
        contentLen := Atoi(text[cl.value + |CONTENT_LENGTH|..]);
      }
      var cn := CiStrStr(response, CONNECTION, text);
      if cn.Some? && CiAt(text, " close", cn.value + |CONNECTION|) {
        close := true;
      }
    }
  }

  // ---- one request ----

  /** The bytes of a chunk: `size` bytes from `offset`, as far as the file goes. */
  function Slice(content: string, offset: nat, size: int): string {
    if offset <= |content| && size > 0 then content[offset..Min(offset + size, |content|)] else ""
  }

  /** https_client.c:481-489: writes one piece, however little each write takes. */
  method WriteAll(chan: Channel, buf: string) returns (ok: bool, ghost sent: string)
    requires chan.InUse()
    modifies chan.wire
    ensures chan.wire.requests == Filled(old(chan.wire.requests), sent, "") && chan.InUse()
    ensures sent <= buf && (ok ==> sent == buf)
    ensures old(chan.wire.failures) <= chan.wire.failures && (!ok ==> old(chan.wire.failures) < chan.wire.failures)
  {
    hide Filled;
    ghost var before := chan.wire.requests;
    var written := 0;
    FilledNothing(before);
    while written < |buf|
      invariant written <= |buf|
      invariant chan.wire.requests == Filled(before, buf[..written], "") && chan.InUse()
      invariant old(chan.wire.failures) <= chan.wire.failures
    {
      var n := chan.Write(buf[written..]);
      if n < 0 {
        return false, buf[..written];
      }
      FilledBody(before, buf[..written], buf[written..][..n]);
      assert buf[..written] + buf[written..][..n] == buf[..written + n];
      written := written + n;
    }
    return true, buf[..written];
  }

  lemma NothingOfSlice(content: string, start: nat, size: int)
    ensures "" <= Slice(content, start, size)
  {
  }

  lemma StartOfSlice(content: string, start: nat, end: nat, size: int)
    requires start <= end <= |content| && end <= start + size
    ensures content[start..end] <= Slice(content, start, size)
  {
  }

  lemma StillStart(content: string, start: nat, at: nat, body: string, buf: string, piece: string)
    requires start <= at && at + |buf| <= |content| && body == content[start..at]
    requires buf == content[at..at + |buf|] && piece <= buf
    ensures body + piece <= content[start..at + |buf|]
    ensures piece == buf ==> body + piece == content[start..at + |buf|]
  {
    assert content[start..at] + content[at..at + |buf|] == content[start..at + |buf|];
  }

  /** Bytes up to the size of the slice, or up to the end of the file, are all of
      the slice. */
  lemma EndOfSlice(content: string, start: nat, body: string, size: int)
    requires body <= Slice(content, start, size)
    requires |body| >= size || start + |body| >= |content|
    ensures body == Slice(content, start, size)
  {
  }

  /** https_client.c:468-493: streams the chunk.  What goes out is the start of
      the slice, and all of it unless a write or a read failed. */
  method SendBody(chan: Channel, fp: FileStream, chunkSize: int) returns (ok: bool, ghost body: string)
    requires chan.InUse()
    modifies chan.wire, fp`pos, fp.disk
    ensures chan.wire.requests == Filled(old(chan.wire.requests), body, "") && chan.InUse()
    ensures body <= Slice(fp.content, old(fp.pos), chunkSize)
    ensures old(chan.wire.failures) <= chan.wire.failures && (!ok ==> old(chan.wire.failures) < chan.wire.failures)
    ensures old(fp.disk.failures) <= fp.disk.failures
    ensures ok && fp.disk.failures == old(fp.disk.failures) ==> body == Slice(fp.content, old(fp.pos), chunkSize)
  {
    hide Filled, Slice;
    NothingOfSlice(fp.content, fp.pos, chunkSize);
    ghost var start, before := fp.pos, chan.wire.requests;
    var sent := 0;
    body := "";
    FilledNothing(before);
    while sent < chunkSize
      invariant sent >= 0 && fp.pos == start + sent && |body| == sent
      invariant sent > 0 ==> sent <= chunkSize && fp.pos <= |fp.content| && body == fp.content[start..fp.pos]
      invariant body <= Slice(fp.content, start, chunkSize)
      invariant chan.wire.requests == Filled(before, body, "") && chan.InUse()
      invariant fp.disk.failures == old(fp.disk.failures) && old(chan.wire.failures) <= chan.wire.failures
      decreases chunkSize - sent
    {
      var toRead := Min(chunkSize - sent, UPLOAD_CHUNK_SIZE);
      var buf := fp.Read(toRead);
      if buf == "" {
        if fp.pos >= |fp.content| {
          EndOfSlice(fp.content, start, body, chunkSize);
        }
        return true, body;
      }
      var written;
      ghost var piece;
      written, piece := WriteAll(chan, buf);
      FilledBody(before, body, piece);
      StillStart(fp.content, start, fp.pos - |buf|, body, buf, piece);
      body := body + piece;
      StartOfSlice(fp.content, start, fp.pos, chunkSize);
      if !written {
        return false, body;
      }
      sent := sent + |buf|;
    }
    EndOfSlice(fp.content, start, body, chunkSize);
    return true, body;
  }

  /** The reads of one response, all of it out of the reply to this request. */
  predicate Answer(rs: seq<Read>, reply: string) {
    Ran(rs) && TakeAll(rs).got <= reply
  }

  lemma NothingIsFramed()
    ensures Framed("")
  {
    assert UpToNul("") == "";
  }

  /** ka_send_chunk.  What it reads is the answer to this request if nothing was
      left of an earlier one. */
  method SendChunk(chan: Channel, fp: FileStream, chunkSize: int, reply: string)
    returns (ret: int, status: Option<int>, dead: bool, ghost body: string, ghost rs: seq<Read>)
    modifies chan, chan.wire, fp`pos, fp.disk
    ensures ret == 0 || ret == -1
    ensures ret == -1 ==> dead && status.None?
    ensures ret == 0 ==> Ran(rs) && status == StatusOf(TakeAll(rs).got) && dead == !Reusable(TakeAll(rs))
    ensures ret == 0 && old(chan.unread) == "" ==> Answer(rs, reply)
    ensures ret == 0 && old(chan.unread) == "" && Framed(reply) && !dead ==> chan.unread == ""
    ensures chan.wire.requests
         == old(chan.wire.requests) + [Request(chan.id, chan.host, chan.port, body, TakeAll(rs).got)]
    ensures body <= Slice(fp.content, old(fp.pos), chunkSize)
    ensures old(chan.wire.failures) <= chan.wire.failures
    ensures ret == -1 ==> old(chan.wire.failures) < chan.wire.failures
    ensures old(fp.disk.failures) <= fp.disk.failures
    ensures ret == 0 && fp.disk.failures == old(fp.disk.failures)
            ==> body == Slice(fp.content, old(fp.pos), chunkSize)
  {
    hide TakeAll, Reusable, Slice, Framed, StatusOf, Running, Filled;
    ret, status, dead, body, rs := -1, None, true, "", [];
    ghost var before := chan.wire.requests;
    ghost var request := Request(chan.id, chan.host, chan.port, "", "");
    NothingTaken();
    var headerOk := chan.SendHeader(reply);
    if !headerOk {
      return;
    }
    var bodyOk;
    bodyOk, body := SendBody(chan, fp, chunkSize);
    FilledLast(before, request, body, "");
    if !bodyOk {
      return;
    }
    NothingIsFramed();
    assert "" + reply == reply;
    status, dead, rs := ReadResponse(chan);
    FilledTwice(before + [request], body, "", "", TakeAll(rs).got);
    assert body + "" == body && "" + TakeAll(rs).got == TakeAll(rs).got;
    FilledLast(before, request, body, TakeAll(rs).got);
    ret := 0;
  }

  lemma FilledLast(before: seq<Request>, request: Request, body: string, got: string)
    requires request.body == "" && request.got == ""
    ensures Filled(before + [request], body, got) == before + [request.(body := body, got := got)]
  {
    assert (before + [request])[..|before|] == before;
    assert "" + body == body && "" + got == got;
  }

  // ---- the cached connection ----

  /** Why a request went out on its connection. */
  datatype Send = Send(conn: nat, host: string, port: string, newConn: bool, idle: int)

  /** The client's account of its requests is that of the wire. */
  predicate Parallel(log: seq<Send>, requests: seq<Request>) {
    && |log| == |requests|
    && forall i :: 0 <= i < |log| ==>
         log[i].conn == requests[i].conn && log[i].host == requests[i].host && log[i].port == requests[i].port
  }

  datatype Outcome =
    | NotInitialized
    | StatFailed
    | OpenFailed
    | SeekFailed
    | ConnectFailed
    | SendFailed
    | FellThrough     // the return after the retry loop
    | Answered(status: int)

  /** The status stays 0 when the response has no number in its first line. */
  function StatusIn(got: string): int {
    match StatusOf(got) case Some(n) => n case None => 0
  }

  function StatusOr0(rs: seq<Read>): int {
    StatusIn(TakeAll(rs).got)
  }

  predicate Success(status: int) {
    200 <= status < 300
  }

  /** Success is a status of three digits that begins with 2. */
  lemma SuccessMeans(status: int)
    ensures Success(status) <==> status >= 0 && |Decimal(status)| == 3 && Decimal(status)[0] == '2'
  {
    hide Decimal;
    if status >= 0 {
      TwoHundreds(status);
    }
  }

  /** Without a blank in what was received there is no status, and no success. */
  lemma NoStatusNoSuccess(got: string)
    requires ' ' !in UpToNul(got)
    ensures StatusIn(got) == 0 && !Success(StatusIn(got))
  {
    hide UpToNul, Find;
    var text := UpToNul(got);
    forall i: nat | i < |text|
      ensures !At(text, " ", i)
    {
      assert text[i..i + 1] == [text[i]];
    }
  }

  /** What a written reply means to the client, however the network cuts it up:
      a status of the 200s is success, and the connection is kept if and only if
      the reply does not ask to close it. */
  lemma ReplyDecides(r: Reply, parts: seq<string>)
    requires Proper(r) && |Written(r)| < BUFFER && HttpDivision.Divides(parts, Written(r))
    ensures var rs := HttpDivision.Datas(parts);
            && StatusOr0(rs) == r.status
            && (Success(StatusOr0(rs)) <==> |Decimal(r.status)| == 3 && Decimal(r.status)[0] == '2')
            && (Reusable(TakeAll(rs)) <==> !AsksToClose(r))
  {
    hide Proper, Written, AsksToClose, Decimal, StatusOf, TakeAll, HttpDivision.Datas, HttpDivision.Divides;
    ReplyRead(r, parts);
    SuccessMeans(r.status);
  }

  /** The client's globals. */
  class Client {
    const clock: Clock
    const wire: Wire
    const disk: Disk
    var initialized: bool
    var valid: bool
    var host: string
    var port: string
    var lastUse: int
    var chan: Channel?
    ghost var created: nat              // connections set up so far
    ghost var released: multiset<nat>   // connections released so far
    ghost var log: seq<Send>

    /** The connection that is held, if one is. */
    ghost predicate Live(id: nat)
      reads this`valid, this`chan
    {
      valid && chan != null && chan.id == id
    }

    ghost predicate Valid()
      reads this, chan, wire
    {
      && (valid <==> chan != null) && (valid ==> initialized)
      && (valid ==> chan.host == host && chan.port == port && chan.id < created && chan.wire == wire)
      && Accounted()
      && Parallel(log, wire.requests)
    }

    /** No response byte of an earlier request is left over. */
    ghost predicate Drained()
      reads this`valid, this`chan, chan
    {
      valid && chan != null ==> chan.unread == ""
    }

    /** Every connection but the live one has been released exactly once. */
    ghost predicate Accounted()
      reads this`valid, this`chan, this`created, this`released
    {
      && (forall id: nat :: id < created ==> released[id] == if Live(id) then 0 else 1)
      && (forall id: nat :: id >= created ==> released[id] == 0)
    }

    constructor (clock: Clock, wire: Wire, disk: Disk)
      requires wire.requests == []
      ensures Valid() && !initialized && !valid && log == [] && created == 0
      ensures this.clock == clock && this.wire == wire && this.disk == disk
    {
      this.clock, this.wire, this.disk := clock, wire, disk;
      initialized, valid, host, port, lastUse, chan := false, false, "", "", 0, null;
      created, released, log := 0, multiset{}, [];
    }

    /** https_client_init, which fails if the random number generator or the TLS
        configuration does; a second call changes nothing. */
    method Init(answer: bool) returns (ok: bool)
      requires Valid()
      modifies this`initialized
      ensures Valid() && ok == initialized && ok == (old(initialized) || answer)
    {
      if initialized {
        return true;
      }
      initialized := answer;
      ok := answer;
    }

    /** ka_drop.  A response may still be in flight on the connection. */
    method Drop()
      requires Valid()
      modifies this`valid, this`lastUse, this`chan, this`released
      ensures Valid() && !valid
    {
      if !valid {
        return;
      }
      released := released + multiset{chan.id};
      valid, chan, lastUse := false, null, 0;
    }

    /** ka_is_stale. */
    method IsStale() returns (stale: bool, ghost idle: int)
      modifies clock`now
      ensures stale == (!valid || idle > KA_IDLE_MAX_US)
      ensures valid ==> old(clock.now) <= lastUse + idle <= clock.now
      ensures clock.now >= old(clock.now)
    {
      idle := 0;
      if !valid {
        return true, 0;
      }
      var now := clock.Read();
      return now - lastUse > KA_IDLE_MAX_US, now - lastUse;
    }

    /** ka_connect: the contexts are set up first, and released on failure. */
    method Connect(host: string, port: string) returns (ok: bool)
      requires Valid() && !valid && initialized
      modifies this`valid, this`host, this`port, this`lastUse, this`chan, this`created, this`released,
               clock`now, wire`failures
      ensures Valid() && ok == valid
      ensures wire.failures == old(wire.failures) + if ok then 0 else 1
      ensures created == old(created) + 1 && clock.now >= old(clock.now)
      ensures ok ==> fresh(chan) && chan.id == old(created) && chan.unread == ""
      ensures ok ==> this.host == host && this.port == port
    {
      hide Parallel;
      var c := new Channel(created, wire, host, port);
      ghost var id := created;
      created := created + 1;
      ok := wire.Dial();
      if !ok {
        released := released + multiset{id};
        return;
      }
      valid, chan := true, c;
      lastUse := clock.Read();
      this.host, this.port := host, port;
    }

    /** https_client.c:616-632: reuses the cached connection if it is fit for this host,
        and connects afresh otherwise. */
    method Acquire(host: string, port: string) returns (ok: bool, cached: bool, ghost idle: int)
      requires Valid() && initialized
      modifies this`valid, this`host, this`port, this`lastUse, this`chan, this`created, this`released,
               clock`now, wire`failures
      ensures Valid() && ok == valid
      ensures wire.failures == old(wire.failures) + if ok then 0 else 1
      ensures ok ==> this.host == host && this.port == port
      // reused exactly when it is held, recently used, and bound to this server
      ensures cached == (old(valid) && idle <= KA_IDLE_MAX_US && old(this.host) == host && old(this.port) == port)
      ensures old(valid) ==> old(clock.now) <= old(lastUse) + idle <= clock.now
      ensures cached ==> ok && chan == old(chan) && created == old(created)
      ensures !cached && ok ==> fresh(chan) && chan.id == old(created) && chan.unread == ""
      ensures !ok ==> chan == null
      ensures clock.now >= old(clock.now)
    {
      idle := 0;
      if valid {
        var stale;
        stale, idle := IsStale();
        if stale {
          Drop();
        }
      }
      cached := valid && this.host == host && this.port == port;
      if valid && !cached {
        Drop();
      }
      ok := true;
      if !cached {
        ok := Connect(host, port);
      }
    }

    /** https_client.c:634-654: one request on the live connection, which is
        dropped unless the response allows it to be kept. */
    method Exchange(fp: FileStream, chunkSize: int, reply: string, ghost send: Send)
      returns (outcome: Outcome, ghost body: string, ghost rs: seq<Read>)
      requires Valid() && valid && chan != null
      requires send.conn == chan.id && send.host == host && send.port == port
      modifies this`valid, this`lastUse, this`chan, this`released, this`log, clock`now, chan, wire,
               fp`pos, fp.disk
      ensures Valid()
      ensures chan == old(chan) || chan == null
      ensures clock.now >= old(clock.now)
      // one request goes out: the start of the slice, and what comes in is what the status is read from
      ensures log == old(log) + [send]
      ensures wire.requests == old(wire.requests) + [Request(send.conn, send.host, send.port, body, TakeAll(rs).got)]
      ensures body <= Slice(fp.content, old(fp.pos), chunkSize)
      ensures old(fp.disk.failures) <= fp.disk.failures
      ensures outcome.Answered? && fp.disk.failures == old(fp.disk.failures)
              ==> body == Slice(fp.content, old(fp.pos), chunkSize)
      ensures outcome.SendFailed? || outcome.Answered?
      ensures outcome.SendFailed? ==> !valid && old(wire.failures) < wire.failures
      ensures old(wire.failures) <= wire.failures
      ensures outcome.Answered? ==> Ran(rs) && outcome.status == StatusOr0(rs) && valid == Reusable(TakeAll(rs))
      ensures outcome.Answered? && old(chan.unread) == "" ==> Answer(rs, reply)
      ensures old(chan.unread) == "" && Framed(reply) ==> Drained()
      ensures outcome.Answered? && valid ==> old(clock.now) <= lastUse <= clock.now
    {
      hide Accounted, Slice, Framed, StatusOf, TakeAll, Answer, Reusable, Running;
      log := log + [send];
      var ret, status, dead;
      ret, status, dead, body, rs := SendChunk(chan, fp, chunkSize, reply);
      lastUse := clock.Read();
      if ret == 0 {
        if dead {
          Drop();
        }
        outcome := Answered(match status case Some(n) => n case None => 0);
      } else {
        Drop();
        outcome := SendFailed;
      }
    }

    /** A send to this server: the cached connection is reused exactly when it
        was held, last used within 20 seconds, and bound to the server; otherwise
        the connection is a new one. */
    twostate predicate Sent(s: Send, host: string, port: string)
      reads this, clock, chan
    {
      && s.host == host && s.port == port
      && (old(valid) ==> old(clock.now) <= old(lastUse) + s.idle <= clock.now)
      && (!s.newConn <==> old(valid) && s.idle <= KA_IDLE_MAX_US && old(this.host) == host && old(this.port) == port)
      && (!s.newConn && old(chan) != null ==> s.conn == old(chan).id)
      && (s.newConn ==> s.conn == old(created))
    }

    /** What one pass of the retry loop did. */
    method Attempt(host: string, port: string, content: string, offset: nat, chunkSize: int, reply: string)
      returns (outcome: Outcome, cached: bool, ghost body: string, ghost rs: seq<Read>)
      requires Valid() && initialized
      modifies this, clock`now, chan, wire, disk
      ensures Valid()
      ensures !old(valid) ==> !cached
      ensures chan == old(chan) || chan == null || fresh(chan)
      ensures clock.now >= old(clock.now)
      ensures outcome.OpenFailed? || outcome.SeekFailed? || outcome.ConnectFailed? ==>
                log == old(log) && wire.requests == old(wire.requests)
      ensures outcome.SendFailed? || outcome.Answered? ==>
                && |log| == |old(log)| + 1 && old(log) <= log
                && Sent(log[|log| - 1], host, port) && log[|log| - 1].newConn == !cached
                && wire.requests == old(wire.requests)
                                    + [Request(log[|log| - 1].conn, host, port, body, TakeAll(rs).got)]
                && body <= Slice(content, offset, chunkSize)
      ensures old(disk.failures) <= disk.failures
      ensures outcome.Answered? && disk.failures == old(disk.failures) ==> body == Slice(content, offset, chunkSize)
      // whatever keeps a request from going out is a failure of the disk or the network
      ensures old(wire.failures) <= wire.failures
      ensures outcome.OpenFailed? || outcome.SeekFailed? ==> old(disk.failures) < disk.failures
      ensures outcome.ConnectFailed? || outcome.SendFailed? ==> old(wire.failures) < wire.failures
      ensures outcome.SendFailed? && cached ==> created == old(created)
      ensures outcome.SendFailed? ==> !valid
      ensures outcome.Answered? ==> Ran(rs) && outcome.status == StatusOr0(rs)
      ensures outcome.Answered? && old(Drained()) ==> Answer(rs, reply)
      ensures old(Drained()) && Framed(reply) ==> Drained()
      ensures outcome.Answered? ==> valid == Reusable(TakeAll(rs))
      ensures outcome.Answered? && valid ==> old(clock.now) <= lastUse <= clock.now
      ensures !outcome.NotInitialized? && !outcome.StatFailed? && !outcome.FellThrough?
      ensures initialized == old(initialized)
    {
      hide Accounted, Parallel, Slice, Framed, StatusOr0, Ran, TakeAll, Answer, Reusable;
      cached, body, rs := false, "", [];
      var opens := disk.Answers();
      if !opens {
        return OpenFailed, false, "", [];
      }
      var fp := new FileStream(content, disk);
      var seeks := fp.Seek(offset);
      if !seeks {
        return SeekFailed, false, "", [];
      }
      var ok;
      ghost var idle;
      ok, cached, idle := Acquire(host, port);
      if !ok {
        return ConnectFailed, cached, "", [];
      }
      outcome, body, rs := Exchange(fp, chunkSize, reply, Send(chan.id, host, port, !cached, idle));
    }

    /** https_post_chunk, for a URL that parsed.  `replies` is what the server
        sends for the first and for a second request. */
    method PostChunk(host: string, port: string, content: string, offset: nat, chunkSize: int, replies: seq<string>)
      returns (ret: int, status: int, outcome: Outcome, ghost body: string, ghost rs: seq<Read>)
      requires Valid()
      requires |replies| == 2
      modifies this, clock`now, chan, wire, disk
      ensures Valid() && initialized == old(initialized)
      ensures chan == old(chan) || chan == null || fresh(chan)
      ensures clock.now >= old(clock.now)
      // at most two sends, the second because the cached connection failed, and on a new one
      ensures old(log) <= log && |log| <= |old(log)| + 2
      ensures |log| > |old(log)| ==> Sent(log[|old(log)|], host, port)
      ensures |log| == |old(log)| + 2 ==>
                var first, second := log[|log| - 2], log[|log| - 1];
                && !first.newConn && second.newConn && second.conn == old(created) > first.conn
                && second.host == host && second.port == port
      // success means an answer of 2xx, read from the reply to the last send
      ensures (ret == 0 || ret == -1) && (ret == 0 <==> outcome.Answered? && Success(outcome.status))
      ensures status == if outcome.Answered? then outcome.status else 0
      ensures outcome.Answered? ==> |log| > |old(log)| && Ran(rs) && status == StatusOr0(rs)
      ensures outcome.Answered? && old(Drained()) ==> Answer(rs, replies[|log| - |old(log)| - 1])
      // the connection is kept exactly when the whole response allows it
      ensures outcome.Answered? ==> valid == Reusable(TakeAll(rs))
      ensures old(Drained()) && Framed(replies[0]) && Framed(replies[1]) ==> Drained()
      ensures outcome.Answered? && valid ==> old(clock.now) <= lastUse <= clock.now
      // the last request of the wire carries the start of the slice, and the status comes from what it got
      ensures old(wire.requests) <= wire.requests
      ensures outcome.Answered? ==>
                && |wire.requests| > |old(wire.requests)|
                && wire.requests[|wire.requests| - 1]
                   == Request(log[|log| - 1].conn, host, port, body, TakeAll(rs).got)
                && body <= Slice(content, offset, Clamp(content, offset, chunkSize))
      // and the whole slice, unless the file could not be read
      ensures old(disk.failures) <= disk.failures
      ensures outcome.Answered? && disk.failures == old(disk.failures)
              ==> body == Slice(content, offset, Clamp(content, offset, chunkSize))
      // a send fails for good only on a new connection; the loop always returns
      ensures outcome.SendFailed? ==> |log| > |old(log)| && log[|log| - 1].newConn && !valid
      ensures !outcome.FellThrough?
      // an initialized client gets its answer, unless the disk or the network fails
      ensures outcome.NotInitialized? <==> !old(initialized)
      ensures old(wire.failures) <= wire.failures
      ensures outcome.StatFailed? || outcome.OpenFailed? || outcome.SeekFailed? ==> old(disk.failures) < disk.failures
      ensures outcome.ConnectFailed? || outcome.SendFailed? ==> old(wire.failures) < wire.failures
    {
      hide Accounted, Parallel, Slice, Framed, StatusOr0, Clamp, TakeAll, Answer, Reusable;
      ret, status, body, rs := -1, 0, "", [];
      if !initialized {
        outcome := NotInitialized;
        return;
      }
      var statOk := disk.Answers();
      if !statOk {
        outcome := StatFailed;
        return;
      }
      var size := Clamp(content, offset, chunkSize);
      var attempt := 0;
      while attempt < 2
        invariant attempt <= 1 && Valid() && initialized == old(initialized)
        invariant chan == old(chan) || chan == null || fresh(chan)
        invariant clock.now >= old(clock.now)
        invariant old(log) <= log && |log| == |old(log)| + attempt
        invariant old(wire.requests) <= wire.requests
        invariant old(disk.failures) <= disk.failures && old(wire.failures) <= wire.failures
        invariant attempt == 1 ==> !valid && created == old(created)
        invariant attempt == 1 ==> Sent(log[|log| - 1], host, port) && !log[|log| - 1].newConn
        invariant attempt == 0 ==> valid == old(valid) && this.host == old(this.host) && this.port == old(this.port)
        invariant attempt == 0 ==> lastUse == old(lastUse) && chan == old(chan) && created == old(created)
        invariant attempt == 0 ==> clock.now == old(clock.now)
        invariant old(Drained()) ==> Drained()
        decreases 2 - attempt
      {
        var cached;
        outcome, cached, body, rs := Attempt(host, port, content, offset, size, replies[attempt]);
        if outcome.Answered? {
          status := outcome.status;
          ret := if Success(status) then 0 else -1;
          return;
        }
        if !outcome.SendFailed? || !cached {
          return;
        }
        attempt := attempt + 1;
      }
      outcome := FellThrough;
    }

    /** https_client_cleanup, as far as the connection goes. */
    method Cleanup()
      requires Valid()
      modifies this`valid, this`lastUse, this`chan, this`released, this`initialized
      ensures Valid() && !valid && !initialized
      ensures forall id: nat :: id < created ==> released[id] == 1
    {
      if !initialized {
        return;
      }
      Drop();
      initialized := false;
    }
  }

  /** https_client.c:593-595: the chunk does not reach past the end of the file. */
  function Clamp(content: string, offset: nat, chunkSize: int): int {
    if chunkSize <= 0 || offset + chunkSize > |content| then |content| - offset else chunkSize
  }

  /** A chunk starts at its offset and has the size asked for, or the rest of the
      file if that is less or no size is given. */
  lemma ChunkMeans(content: string, offset: nat, chunkSize: int)
    ensures var chunk, rest := Slice(content, offset, Clamp(content, offset, chunkSize)), Max(0, |content| - offset);
            && |chunk| == (if chunkSize <= 0 then rest else Min(chunkSize, rest))
            && forall i :: 0 <= i < |chunk| ==> chunk[i] == content[offset + i]
  {
  }
}
