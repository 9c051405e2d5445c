/** The world around the upload client: a clock, a file, and TLS connections to
    a server.  Each answers as it likes within its contract. */
module HttpNet {
  import opened HttpFraming

  /** The monotonic clock, in microseconds. */
  class Clock {
    var now: int
    ghost var asked: nat   // microseconds of sleep asked for, in all

    constructor ()
      ensures now >= 0
    {
      now, asked := 0, 0;
    }

    method Read() returns (t: int)
      modifies this`now
      ensures t == now >= old(now)
    {
      var passed: nat :| passed >= 0;
      now := now + passed;
      t := now;
    }

    /** usleep, which never returns early. */
    method Sleep(us: nat)
      modifies this
      ensures now >= old(now) + us && asked == old(asked) + us
    {
      var late: nat :| late >= 0;
      now, asked := now + us + late, asked + us;
    }
  }

  /** The file system, as far as its failures go. */
  class Disk {
    ghost var failures: nat   // calls that failed, and reads that gave nothing before the end of the file

    constructor ()
    {
      failures := 0;
    }

    /** stat or fopen. */
    method Answers() returns (ok: bool)
      modifies this
      ensures failures == old(failures) + if ok then 0 else 1
    {
      ok := *;
      failures := if ok then failures else failures + 1;
    }
  }

  /** An open file whose contents do not change. */
  class FileStream {
    const content: string
    const disk: Disk
    var pos: nat

    constructor (content: string, disk: Disk)
      ensures this.content == content && this.disk == disk && pos == 0
    {
      this.content, this.disk, pos := content, disk, 0;
    }

    /** fseek to a place from the start. */
    method Seek(offset: nat) returns (ok: bool)
      modifies this`pos, disk
      ensures ok ==> pos == offset
      ensures disk.failures == old(disk.failures) + if ok then 0 else 1
    {
      ok := disk.Answers();
      pos := if ok then offset else pos;
    }

    /** fread: some of what is left, or nothing at the end or on an error. */
    method Read(n: nat) returns (data: string)
      modifies this`pos, disk
      ensures |data| <= n
      ensures pos == old(pos) + |data|
      ensures data != "" ==> pos <= |content| && data == content[old(pos)..pos]
      ensures disk.failures == old(disk.failures) + if data == "" && 0 < n && pos < |content| then 1 else 0
    {
      var k: nat :| k >= 0;
      if pos < |content| && k <= n && pos + k <= |content| {
        data := content[pos..pos + k];
        pos := pos + k;
      } else {
        data := "";
      }
      if data == "" && 0 < n && pos < |content| {
        disk.failures := disk.failures + 1;
      }
    }
  }

  /** One request: the connection and the server it went to, the body bytes that
      followed its header, and the bytes that were received in answer. */
  datatype Request = Request(conn: nat, host: string, port: string, body: string, got: string)

  /** The last request with more bytes sent and received. */
  function Filled(requests: seq<Request>, body: string, got: string): (more: seq<Request>)
    requires requests != []
    ensures |more| == |requests| && more[|more| - 1].conn == requests[|requests| - 1].conn
  {
    var last := requests[|requests| - 1];
    requests[..|requests| - 1] + [last.(body := last.body + body, got := last.got + got)]
  }

  lemma FilledTwice(requests: seq<Request>, a: string, b: string, c: string, d: string)
    requires requests != []
    ensures Filled(Filled(requests, a, b), c, d) == Filled(requests, a + c, b + d)
  {
    var last := requests[|requests| - 1];
    assert (last.body + a) + c == last.body + (a + c) && (last.got + b) + d == last.got + (b + d);
  }

  lemma FilledNothing(requests: seq<Request>)
    requires requests != []
    ensures Filled(requests, "", "") == requests
  {
    var last := requests[|requests| - 1];
    assert last.body + "" == last.body && last.got + "" == last.got;
  }

  lemma FilledBody(requests: seq<Request>, a: string, b: string)
    requires requests != []
    ensures Filled(Filled(requests, a, ""), b, "") == Filled(requests, a + b, "")
  {
    hide Filled;
    FilledTwice(requests, a, "", b, "");
    assert "" + "" == "";
  }

  lemma FilledGot(requests: seq<Request>, a: string, b: string)
    requires requests != []
    ensures Filled(Filled(requests, "", a), "", b) == Filled(requests, "", a + b)
  {
    hide Filled;
    FilledTwice(requests, "", a, "", b);
    assert "" + "" == "";
  }

  /** Everything the client ever sent and received, request by request. */
  class Wire {
    ghost var requests: seq<Request>
    ghost var failures: nat   // connections refused, and writes and reads that failed

    constructor ()
      ensures requests == []
    {
      requests, failures := [], 0;
    }

    /** The set-up of a connection, up to the end of the TLS handshake. */
    method Dial() returns (ok: bool)
      modifies this`failures
      ensures failures == old(failures) + if ok then 0 else 1
    {
      ok := *;
      failures := if ok then failures else failures + 1;
    }
  }

  /** One TLS connection.  `unread` is what the server has sent and the client
      has not read; it arrives in order and in pieces of any size. */
  class Channel {
    ghost const id: nat
    const wire: Wire
    const host: string
    const port: string
    var unread: string
    var peerClosed: bool

    constructor (ghost id: nat, wire: Wire, host: string, port: string)
      ensures this.id == id && this.wire == wire && this.host == host && this.port == port
      ensures unread == "" && !peerClosed
    {
      this.id, this.wire, this.host, this.port := id, wire, host, port;
      unread, peerClosed := "", false;
    }

    /** The request under way is on this connection. */
    ghost predicate InUse()
      reads wire
    {
      wire.requests != [] && wire.requests[|wire.requests| - 1].conn == id
    }

    /** The request header goes out, and the server's reply to this one request
        comes under way; a server that has closed sends none. */
    method SendHeader(reply: string) returns (ok: bool)
      modifies this, wire
      ensures wire.requests == old(wire.requests) + [Request(id, host, port, "", "")]
      ensures unread == old(unread) || (ok && unread == old(unread) + reply)
      ensures wire.failures == old(wire.failures) + if ok then 0 else 1
    {
      wire.requests := wire.requests + [Request(id, host, port, "", "")];
      ok := *;
      wire.failures := if ok then wire.failures else wire.failures + 1;
      if ok {
        unread := if peerClosed then unread else unread + reply;
      }
    }

    /** ssl_write: at least one byte, or an error. */
    method Write(data: string) returns (n: int)
      requires data != "" && InUse()
      modifies wire
      ensures n < 0 || 1 <= n <= |data|
      ensures wire.requests == if n < 0 then old(wire.requests) else Filled(old(wire.requests), data[..n], "")
      ensures wire.failures == old(wire.failures) + if n < 0 then 1 else 0
    {
      n := *;
      if 1 <= n <= |data| {
        wire.requests := Filled(wire.requests, data[..n], "");
      } else {
        n := -1;
        wire.failures := wire.failures + 1;
      }
    }

    /** ssl_read: some unread bytes; the end of the stream, once nothing is left
        to read; or an error or timeout at any time. */
    method Receive(max: nat) returns (r: Read)
      requires max > 0 && InUse()
      modifies this`unread, this`peerClosed, wire
      ensures r.Data? ==> 0 < |r.bytes| <= max && old(unread) == r.bytes + unread
      ensures r.Eof? ==> unread == old(unread) == ""
      ensures r.Failed? ==> unread == old(unread)
      ensures wire.failures == old(wire.failures) + if r.Failed? then 1 else 0
      ensures wire.requests == if r.Data? then Filled(old(wire.requests), "", r.bytes) else old(wire.requests)
    {
      var k: nat :| k >= 0;
      var eof: bool := *;
      if 0 < k <= max && k <= |unread| {
        r := Data(unread[..k]);
        unread := unread[k..];
        wire.requests := Filled(wire.requests, "", r.bytes);
      } else if eof && unread == "" {
        r := Eof;
        peerClosed := true;
      } else {
        r := Failed;
        wire.failures := wire.failures + 1;
      }
    }
  }
}
