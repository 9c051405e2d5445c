/** How a chunk response is read: header search, body length, and the decision
    to keep the connection, over whatever pieces the reads deliver. */
module HttpFraming {
  import opened CLib

  const BUFFER: nat := 1024

  const END_OF_HEADER := "\r\n\r\n"
  const CONTENT_LENGTH := "content-length:"
  const CONNECTION := "connection:"

  // ---- C string functions ----

  /** What C sees of a buffer: everything before the first terminator. */
  function UpToNul(s: string): (t: string)
    ensures t <= s && NulFree(t)
    ensures |t| < |s| ==> s[|t|] == '\0'
  {
    if s == "" || s[0] == '\0' then "" else [s[0]] + UpToNul(s[1..])
  }

  predicate At(s: string, needle: string, i: nat) {
    i + |needle| <= |s| && s[i..i + |needle|] == needle
  }

  /** strstr. */
  function Find(s: string, needle: string, from: nat := 0): (r: Option<nat>)
    requires from <= |s|
    ensures r.Some? ==> from <= r.value && At(s, needle, r.value)
    ensures forall i :: from <= i < (if r.Some? then r.value else |s| + 1) ==> !At(s, needle, i)
    decreases |s| - from
  {
    if At(s, needle, from) then Some(from)
    else if from == |s| then None
    else Find(s, needle, from + 1)
  }

  function Lower(c: char): char {
    if 'A' <= c <= 'Z' then (c as int + 32) as char else c
  }

  predicate CiAt(s: string, needle: string, i: nat) {
    i + |needle| <= |s| && forall k :: 0 <= k < |needle| ==> Lower(s[i + k]) == Lower(needle[k])
  }

  /** The first case-insensitive occurrence. */
  function CiFind(s: string, needle: string, from: nat := 0): (r: Option<nat>)
    requires from <= |s|
    ensures r.Some? ==> from <= r.value && CiAt(s, needle, r.value)
    ensures forall i :: from <= i < (if r.Some? then r.value else |s| + 1) ==> !CiAt(s, needle, i)
    decreases |s| - from
  {
    if CiAt(s, needle, from) then Some(from)
    else if from == |s| then None
    else CiFind(s, needle, from + 1)
  }

  predicate IsDigit(c: char) {
    '0' <= c <= '9'
  }

  function DigitOf(c: char): nat
    requires IsDigit(c)
  {
    c as int - '0' as int
  }

  function Digits(s: string, acc: int): int {
    if s == "" || !IsDigit(s[0]) then acc else Digits(s[1..], acc * 10 + DigitOf(s[0]))
  }

  function Signed(t: string): int {
    if t == "" then 0
    else if t[0] == '-' then -Digits(t[1..], 0)
    else if t[0] == '+' then Digits(t[1..], 0)
    else Digits(t, 0)
  }

  /** atoi. */
  function Atoi(s: string): int {
    Signed(s[LeadingSpaces(s)..])
  }

  // ---- one response ----

  /** What the header says, once it is complete; contentLen is -1 without a
      length. */
  datatype Head = NoHead | Head(end: nat, contentLen: int, close: bool)

  function ContentLen(text: string): int {
    match CiFind(text, CONTENT_LENGTH)
    case Some(i) => Atoi(text[i + |CONTENT_LENGTH|..])
    case None => -1
  }

  predicate SaysClose(text: string) {
    match CiFind(text, CONNECTION)
    case Some(i) => CiAt(text, " close", i + |CONNECTION|)
    case None => false
  }

  /** https_client.c:533-545, on all that was received so far. */
  function ParseHead(got: string): Head {
    var text := UpToNul(got);
    match Find(text, END_OF_HEADER)
    case Some(i) => Head(i + |END_OF_HEADER|, ContentLen(text), SaysClose(text))
    case None => NoHead
  }

  /** https_client.c:553-560: the number after the first space, if there is one. */
  function StatusOf(got: string): Option<int> {
    var text := UpToNul(got);
    match Find(text, " ")
    case Some(i) => Some(Atoi(text[i + 1..]))
    case None => None
  }

  datatype Read = Data(bytes: string) | Eof | Failed

  /** The variables of the read loop. */
  datatype Reader = Reader(got: string, head: Head, done: bool, complete: bool, truncated: bool)

  const IDLE := Reader("", NoHead, false, false, false)

  predicate BodyComplete(head: Head, total: nat) {
    head.Head? && head.contentLen >= 0 && total >= head.end + head.contentLen
  }

  function Take(r: Reader, read: Read): Reader {
    if r.done then r
    else
      match read
      case Eof => r.(done := true, complete := r.head.Head?)
      case Failed => r.(done := true, truncated := |r.got| > 0)
      case Data(bytes) =>
        var got := r.got + bytes;
        var head := if r.head.NoHead? then ParseHead(got) else r.head;
        var complete := BodyComplete(head, |got|);
        Reader(got, head, complete || |got| >= BUFFER - 1, complete, false)
  }

  function TakeAll(rs: seq<Read>): Reader {
    if rs == [] then IDLE else Take(TakeAll(rs[..|rs| - 1]), rs[|rs| - 1])
  }

  /** No read follows one after which the reader is done. */
  predicate Running(rs: seq<Read>) {
    forall k :: 0 <= k < |rs| ==> !TakeAll(rs[..k]).done
  }

  /** The reads of one response: the loop goes on while the reader is not done,
      and no longer. */
  predicate Ran(rs: seq<Read>) {
    TakeAll(rs).done && Running(rs)
  }

  predicate Reusable(r: Reader) {
    r.complete && !(r.head.Head? && r.head.close) && !r.truncated
  }

  // ---- searching a prefix ----

  lemma {:induction false} UpToNulPrefix(a: string, b: string)
    ensures UpToNul(a) <= UpToNul(a + b)
    ensures |UpToNul(a)| < |a| ==> UpToNul(a + b) == UpToNul(a)
  {
    if a != "" && a[0] != '\0' {
      assert (a + b)[1..] == a[1..] + b;
      UpToNulPrefix(a[1..], b);
    }
  }

  lemma AtInPrefix(a: string, s: string, needle: string, i: nat)
    requires a <= s && i + |needle| <= |a|
    ensures At(a, needle, i) == At(s, needle, i)
  {
    assert s[i..i + |needle|] == a[i..i + |needle|];
  }

  lemma AtFits(s: string, needle: string, i: nat)
    ensures At(s, needle, i) ==> i + |needle| <= |s|
  {
  }

  lemma FindInPrefix(a: string, s: string, needle: string)
    requires a <= s
    ensures Find(a, needle).Some? ==> Find(s, needle) == Find(a, needle)
    ensures Find(s, needle).Some? && Find(s, needle).value + |needle| <= |a| ==> Find(a, needle) == Find(s, needle)
  {
    hide Find, At;
    forall i: nat | i + |needle| <= |a|
      ensures At(a, needle, i) == At(s, needle, i)
    {
      AtInPrefix(a, s, needle, i);
    }
    forall i: nat | i + |needle| > |a|
      ensures !At(a, needle, i)
    {
      AtFits(a, needle, i);
    }
    forall i: nat | At(s, needle, i)
      ensures i + |needle| <= |s|
    {
      AtFits(s, needle, i);
    }
  }

  lemma CiFindInPrefix(a: string, s: string, needle: string)
    requires a <= s
    ensures CiFind(a, needle).Some? ==> CiFind(s, needle) == CiFind(a, needle)
    ensures CiFind(s, needle).None? ==> CiFind(a, needle).None?
    ensures CiFind(s, needle).Some? && CiFind(s, needle).value + |needle| <= |a|
            ==> CiFind(a, needle) == CiFind(s, needle)
  {
    hide CiFind;
    forall i: nat | i + |needle| <= |a|
      ensures CiAt(a, needle, i) == CiAt(s, needle, i)
    {
    }
  }

  lemma {:induction false} DigitsLocal(a: string, b: string, acc: int)
    requires a != "" && !IsDigit(a[|a| - 1])
    ensures Digits(a + b, acc) == Digits(a, acc)
  {
    if IsDigit(a[0]) {
      assert (a + b)[1..] == a[1..] + b;
      DigitsLocal(a[1..], b, acc * 10 + DigitOf(a[0]));
    }
  }

  lemma {:induction false} LeadingSpacesLocal(a: string, b: string)
    requires LeadingSpaces(a) < |a|
    ensures LeadingSpaces(a + b) == LeadingSpaces(a)
  {
    if IsSpace(a[0]) {
      assert (a + b)[1..] == a[1..] + b;
      LeadingSpacesLocal(a[1..], b);
    }
  }

  /** A number that begins inside a text whose last character is a newline is
      not changed by what follows. */
  lemma AtoiLocal(a: string, b: string)
    requires LeadingSpaces(a) < |a| && a[|a| - 1] == '\n'
    ensures Atoi(a + b) == Atoi(a)
  {
    hide LeadingSpaces, Signed;
    LeadingSpacesLocal(a, b);
    var k := LeadingSpaces(a);
    assert (a + b)[k..] == a[k..] + b;
    SignedLocal(a[k..], b);
  }

  lemma SignedLocal(t: string, b: string)
    requires t != "" && t[|t| - 1] == '\n'
    ensures Signed(t + b) == Signed(t)
  {
    hide Digits;
    assert (t + b)[1..] == t[1..] + b;
    if |t| > 1 {
      DigitsLocal(t[1..], b, 0);
    }
    DigitsLocal(t, b, 0);
  }

  lemma CutText(part: string, reply: string)
    requires part <= reply
    ensures UpToNul(part) <= UpToNul(reply)
    ensures |UpToNul(part)| == |part| || UpToNul(part) == UpToNul(reply)
  {
    UpToNulPrefix(part, reply[|part|..]);
    assert part + reply[|part|..] == reply;
  }

  // ---- what a cut reply tells ----

  predicate HasHeader(reply: string) {
    Find(UpToNul(reply), END_OF_HEADER).Some?
  }

  function HeaderOf(reply: string): (h: string)
    requires HasHeader(reply)
    ensures h <= UpToNul(reply) && h != "" && h[|h| - 1] == '\n'
  {
    var text := UpToNul(reply);
    var i := Find(text, END_OF_HEADER).value;
    assert text[i..i + 4][3] == '\n';
    text[..i + |END_OF_HEADER|]
  }

  /** The head of a reply with a header. */
  lemma HeadOf(reply: string)
    requires HasHeader(reply)
    ensures ParseHead(reply) == Head(|HeaderOf(reply)|, ContentLen(UpToNul(reply)), SaysClose(UpToNul(reply)))
  {
  }

  lemma NoHeader(reply: string)
    requires !HasHeader(reply)
    ensures ParseHead(reply) == NoHead
  {
  }

  lemma SameHeader(part: string, reply: string)
    requires part <= reply && HasHeader(part)
    ensures HasHeader(reply) && HeaderOf(part) == HeaderOf(reply)
  {
    hide UpToNul, Find;
    CutText(part, reply);
    FindInPrefix(UpToNul(part), UpToNul(reply), END_OF_HEADER);
  }

  lemma HeaderInside(part: string, reply: string)
    requires part <= reply && HasHeader(reply) && |part| >= |HeaderOf(reply)|
    ensures HasHeader(part) && HeaderOf(part) == HeaderOf(reply)
  {
    hide UpToNul, Find;
    CutText(part, reply);
    FindInPrefix(UpToNul(part), UpToNul(reply), END_OF_HEADER);
  }

  lemma AtoiInside(h: string, text: string, i: nat)
    requires h <= text && i <= |h| && LeadingSpaces(h[i..]) < |h[i..]| && h[|h| - 1] == '\n'
    ensures Atoi(text[i..]) == Atoi(h[i..])
  {
    hide Atoi;
    assert text[i..] == h[i..] + text[|h|..];
    AtoiLocal(h[i..], text[|h|..]);
  }

  lemma AtoiBlank(s: string)
    requires LeadingSpaces(s) == |s|
    ensures Atoi(s) == 0
  {
  }

  /** A close option that was seen stays seen. */
  lemma CloseGrows(text: string, more: string)
    requires text <= more && SaysClose(text)
    ensures SaysClose(more)
  {
    hide CiFind;
    CiFindInPrefix(text, more, CONNECTION);
  }

  /** The first place to cut a reply so that the header and a length option are
      both in front of the cut. */
  function FirstLength(reply: string): (r: Option<nat>)
    requires HasHeader(reply)
    ensures r.Some? ==> |HeaderOf(reply)| <= r.value <= |UpToNul(reply)| <= |reply|
  {
    match CiFind(UpToNul(reply), CONTENT_LENGTH)
    case None => None
    case Some(i) =>
      var end := i + |CONTENT_LENGTH|;
      Some(if |HeaderOf(reply)| < end then end else |HeaderOf(reply)|)
  }

  /** The first length option, seen at a cut. */
  lemma FirstSeen(part: string, reply: string)
    requires part <= reply && HasHeader(part) && HasHeader(reply) && ContentLen(UpToNul(part)) >= 0
    ensures CiFind(UpToNul(part), CONTENT_LENGTH).Some?
    ensures CiFind(UpToNul(part), CONTENT_LENGTH) == CiFind(UpToNul(reply), CONTENT_LENGTH)
    ensures FirstLength(reply).Some? && FirstLength(reply).value <= |UpToNul(part)| <= |part|
  {
    hide UpToNul, HasHeader, HeaderOf, CiFind, Atoi;
    SameHeader(part, reply);
    CutText(part, reply);
    CiFindInPrefix(UpToNul(part), UpToNul(reply), CONTENT_LENGTH);
  }

  lemma CutAtFirst(reply: string)
    requires HasHeader(reply) && FirstLength(reply).Some?
    ensures var a := reply[..FirstLength(reply).value];
            && HasHeader(a) && HeaderOf(a) == HeaderOf(reply) && UpToNul(a) == a
            && CiFind(a, CONTENT_LENGTH) == CiFind(UpToNul(reply), CONTENT_LENGTH)
  {
    hide UpToNul, HasHeader, HeaderOf, CiFind;
    var a := reply[..FirstLength(reply).value];
    HeaderInside(a, reply);
    CutText(a, reply);
    CiFindInPrefix(a, UpToNul(reply), CONTENT_LENGTH);
  }

  /** A length that is seen at one cut was seen at the first, and was the same
      there, or 0 with the number still to come. */
  lemma LengthAtFirst(part: string, reply: string)
    requires part <= reply && HasHeader(part) && HasHeader(reply) && ContentLen(UpToNul(part)) >= 0
    ensures var first := FirstLength(reply);
            && first.Some? && first.value <= |part|
            && var a := reply[..first.value];
               && HasHeader(a) && HeaderOf(a) == HeaderOf(reply) == HeaderOf(part)
               && (SaysClose(UpToNul(a)) ==> SaysClose(UpToNul(part)))
               && (ContentLen(UpToNul(a)) == 0 || ContentLen(UpToNul(a)) == ContentLen(UpToNul(part)))
  {
    hide UpToNul, HasHeader, HeaderOf, CiFind, SaysClose, ContentLen;
    SameHeader(part, reply);
    FirstSeen(part, reply);
    CutAtFirst(reply);
    var a, upTo := reply[..FirstLength(reply).value], UpToNul(part);
    CutText(part, reply);
    assert a <= upTo;
    if SaysClose(a) {
      CloseGrows(a, upTo);
    }
    LengthGrows(a, upTo, CiFind(upTo, CONTENT_LENGTH).value, HeaderOf(reply));
  }

  lemma LengthGrows(a: string, text: string, i: nat, h: string)
    requires a <= text && CiFind(a, CONTENT_LENGTH) == CiFind(text, CONTENT_LENGTH) == Some(i)
    requires h != "" && h[|h| - 1] == '\n' && h <= a
    requires |a| == if |h| < i + |CONTENT_LENGTH| then i + |CONTENT_LENGTH| else |h|
    ensures ContentLen(a) == 0 || ContentLen(a) == ContentLen(text)
  {
    hide CiFind, Atoi;
    var from := i + |CONTENT_LENGTH|;
    if LeadingSpaces(a[from..]) == |a[from..]| {
      AtoiBlank(a[from..]);
    } else {
      assert a == h;
      AtoiInside(a, text, from);
    }
  }

  // ---- a reply that can be told from the next one ----

  /** Judging the header on this part of a reply, the client would end inside
      the reply and keep the connection. */
  predicate Undershoots(part: string, reply: string) {
    match ParseHead(part)
    case NoHead => false
    case Head(end, len, close) => len >= 0 && !close && Max(|part|, end + len) < Min(|reply|, BUFFER)
  }

  /** What a server may send for one request so that the client never leaves a
      part of it behind; it is enough to look at the first length option. */
  predicate Framed(reply: string) {
    HasHeader(reply) && FirstLength(reply).Some? ==> !Undershoots(reply[..FirstLength(reply).value], reply)
  }

  lemma NoCutUndershoots(part: string, reply: string)
    requires part <= reply && Framed(reply)
    ensures !Undershoots(part, reply)
  {
    hide HasHeader, HeaderOf, FirstLength, ContentLen, SaysClose, ParseHead;
    if !HasHeader(part) {
      NoHeader(part);
    } else {
      HeadOf(part);
      SameHeader(part, reply);
      if ContentLen(UpToNul(part)) >= 0 {
        LengthAtFirst(part, reply);
        HeadOf(reply[..FirstLength(reply).value]);
      }
    }
  }

  /** The reader holds a prefix of the reply, and judged the header on a prefix
      of that. */
  predicate Reading(r: Reader, reply: string) {
    && r.got <= reply
    && (!r.done ==> !r.complete)
    && (r.head.Head? ==> exists p :: 0 <= p <= |r.got| && r.head == ParseHead(r.got[..p]))
  }

  /** The buffer has room for the piece, and the piece is the next of the reply. */
  predicate Fits(r: Reader, bytes: string, reply: string) {
    bytes != "" && r.got + bytes <= reply && |r.got + bytes| < BUFFER
  }

  /** With a framed reply, the connection is kept only when the whole reply has
      been read. */
  lemma TakeKeepsReading(r: Reader, bytes: string, reply: string)
    requires Reading(r, reply) && !r.done && Fits(r, bytes, reply)
    ensures var next := Take(r, Data(bytes));
            Reading(next, reply) && (Framed(reply) && Reusable(next) ==> next.got == reply)
  {
    hide ParseHead, Framed;
    var next := Take(r, Data(bytes));
    if r.head.Head? {
      var p :| 0 <= p <= |r.got| && r.head == ParseHead(r.got[..p]);
      assert next.got[..p] == r.got[..p];
    } else {
      assert next.got[..|next.got|] == next.got;
    }
    if Framed(reply) && next.head.Head? {
      var p :| 0 <= p <= |next.got| && next.head == ParseHead(next.got[..p]);
      NoCutUndershoots(next.got[..p], reply);
    }
  }

  /** One read of a connection on which the server sends this reply and no more;
      the end of the stream comes after all of it. */
  predicate Delivers(r: Reader, read: Read, reply: string) {
    match read
    case Data(bytes) => Fits(r, bytes, reply)
    case Eof => r.got == reply
    case Failed => true
  }

  predicate AllDelivered(rs: seq<Read>, reply: string) {
    forall k :: 0 <= k < |rs| ==> Delivers(TakeAll(rs[..k]), rs[k], reply)
  }

  lemma ReadingStep(r: Reader, read: Read, reply: string)
    requires Reading(r, reply) && !r.done && Delivers(r, read, reply)
    ensures var next := Take(r, read);
            Reading(next, reply) && (Framed(reply) && Reusable(next) ==> next.got == reply)
  {
    hide Framed, ParseHead;
    if read.Data? {
      TakeKeepsReading(r, read.bytes, reply);
    }
  }

  lemma FrontDelivered(rs: seq<Read>, reply: string)
    requires AllDelivered(rs, reply) && Running(rs) && rs != []
    ensures AllDelivered(rs[..|rs| - 1], reply) && Running(rs[..|rs| - 1])
    ensures Delivers(TakeAll(rs[..|rs| - 1]), rs[|rs| - 1], reply) && !TakeAll(rs[..|rs| - 1]).done
  {
    hide Delivers, TakeAll;
    var n := |rs| - 1;
    forall k | 0 <= k < n
      ensures Delivers(TakeAll(rs[..n][..k]), rs[..n][k], reply) && !TakeAll(rs[..n][..k]).done
    {
      assert rs[..n][..k] == rs[..k];
    }
  }

  lemma {:induction false} ReadingAll(rs: seq<Read>, reply: string)
    requires AllDelivered(rs, reply) && Running(rs)
    ensures Reading(TakeAll(rs), reply)
    ensures Framed(reply) && Reusable(TakeAll(rs)) ==> TakeAll(rs).got == reply
  {
    hide Framed, AllDelivered, Running, Delivers, Take;
    if rs != [] {
      FrontDelivered(rs, reply);
      ReadingAll(rs[..|rs| - 1], reply);
      ReadingStep(TakeAll(rs[..|rs| - 1]), rs[|rs| - 1], reply);
    }
  }

  /** Nothing of the reply is left on a connection that is kept, whatever the
      reads deliver. */
  ghost predicate ReadToItsEnd(reply: string) {
    forall rs :: AllDelivered(rs, reply) && Ran(rs) && Reusable(TakeAll(rs)) ==> TakeAll(rs).got == reply
  }

  /** The framed replies are the replies that are always read to their end. */
  lemma FramedExactly(reply: string)
    ensures ReadToItsEnd(reply) <==> Framed(reply)
  {
    hide Framed, AllDelivered, TakeAll, Reusable;
    if Framed(reply) {
      forall rs | AllDelivered(rs, reply) && Ran(rs) && Reusable(TakeAll(rs))
        ensures TakeAll(rs).got == reply
      {
        ReadingAll(rs, reply);
      }
    } else {
      var _ := LeftBehind(reply);
    }
  }

  /** Two reads, or one, after which a reply that is not framed is taken for
      complete. */
  lemma LeftBehind(reply: string) returns (rs: seq<Read>)
    requires !Framed(reply)
    ensures AllDelivered(rs, reply) && Ran(rs) && Reusable(TakeAll(rs)) && TakeAll(rs).got != reply
  {
    hide ParseHead, HasHeader, HeaderOf, FirstLength, AllDelivered, Ran, TakeAll, Take;
    var p := FirstLength(reply).value;
    var head := ParseHead(reply[..p]);
    var end := Max(p, head.end + head.contentLen);
    if end == p {
      rs := [Data(reply[..p])];
      OneRead(reply, p);
      EndsAt(reply, p, p);
    } else {
      rs := [Data(reply[..p]), Data(reply[p..end])];
      OneRead(reply, p);
      SecondRead(reply, p, end);
      EndsAt(reply, p, end);
    }
  }

  /** The reader that stopped here, having judged the header at p. */
  function Stopped(reply: string, p: nat, end: nat): Reader
    requires p <= end <= |reply|
  {
    var complete := BodyComplete(ParseHead(reply[..p]), end);
    Reader(reply[..end], ParseHead(reply[..p]), complete || end >= BUFFER - 1, complete, false)
  }

  lemma EndsAt(reply: string, p: nat, end: nat)
    requires p <= end < |reply| && BodyComplete(ParseHead(reply[..p]), end) && !ParseHead(reply[..p]).close
    ensures Reusable(Stopped(reply, p, end)) && Stopped(reply, p, end).done && Stopped(reply, p, end).got != reply
  {
    hide ParseHead;
  }

  lemma OneRead(reply: string, p: nat)
    requires 0 < p <= |reply| && p < BUFFER
    ensures var rs := [Data(reply[..p])];
            && AllDelivered(rs, reply) && Running(rs) && TakeAll(rs) == Stopped(reply, p, p)
            && (TakeAll(rs).done ==> Ran(rs))
  {
    hide ParseHead;
    var rs := [Data(reply[..p])];
    assert IDLE.got + reply[..p] == reply[..p] && rs[..0] == [];
  }

  lemma SecondRead(reply: string, p: nat, end: nat)
    requires 0 < p < end <= |reply| && end < BUFFER && ParseHead(reply[..p]).Head?
    requires !BodyComplete(ParseHead(reply[..p]), p)
    ensures var rs := [Data(reply[..p]), Data(reply[p..end])];
            && AllDelivered(rs, reply) && TakeAll(rs) == Stopped(reply, p, end)
            && (TakeAll(rs).done ==> Ran(rs))
  {
    hide ParseHead;
    OneRead(reply, p);
    var rs := [Data(reply[..p]), Data(reply[p..end])];
    assert rs[..1] == [Data(reply[..p])] && rs[..0] == [] && reply[..p] + reply[p..end] == reply[..end];
  }

  // ---- a reply that is not framed ----

  lemma CiFindIs(s: string, needle: string, i: nat)
    requires CiAt(s, needle, i) && forall k :: 0 <= k < i ==> !CiAt(s, needle, k)
    ensures CiFind(s, needle) == Some(i)
  {
  }

  lemma NothingToFind(s: string, needle: string)
    requires |s| < |needle|
    ensures CiFind(s, needle).None?
  {
  }

  lemma FindAtStart(s: string, needle: string)
    requires needle <= s
    ensures Find(s, needle) == Some(0)
  {
    assert At(s, needle, 0);
  }

  lemma {:induction false} NulFreeIsWhole(s: string)
    requires NulFree(s)
    ensures UpToNul(s) == s
  {
    if s != "" {
      NulFreeIsWhole(s[1..]);
    }
  }

  /** A reply without a length in its header, whose body brings one up (a chunked
      reply, say): cut before its last byte it is taken for complete, and the
      connection is kept with that byte unread. */
  lemma NotFramed()
    ensures var reply := END_OF_HEADER + "content-length:0";
            !Framed(reply) && !ReadToItsEnd(reply)
  {
    hide UpToNul, Find, CiFind, CiAt;
    var reply := END_OF_HEADER + "content-length:0";
    var part := reply[..19];
    NulFreeIsWhole(reply);
    NulFreeIsWhole(part);
    FindAtStart(reply, END_OF_HEADER);
    FindAtStart(part, END_OF_HEADER);
    LengthInBody(reply);
    assert part == END_OF_HEADER + CONTENT_LENGTH;
    LengthInBody(part);
    assert part[19..] == "";
    AtoiBlank("");
    NoConnection(part);
    FramedExactly(reply);
  }

  lemma LengthInBody(s: string)
    requires END_OF_HEADER + CONTENT_LENGTH <= s
    ensures CiFind(s, CONTENT_LENGTH) == Some(4)
  {
    forall k: nat | k < 4
      ensures !CiAt(s, CONTENT_LENGTH, k)
    {
      assert Lower(s[k + 0]) != Lower(CONTENT_LENGTH[0]);
    }
    assert CiAt(s, CONTENT_LENGTH, 4);
    CiFindIs(s, CONTENT_LENGTH, 4);
  }

  lemma NoConnection(s: string)
    requires s == END_OF_HEADER + CONTENT_LENGTH
    ensures !SaysClose(s)
  {
    hide CiFind;
    forall i: nat | i <= |s|
      ensures !CiAt(s, CONNECTION, i)
    {
      if i + |CONNECTION| <= |s| {
        assert Lower(s[i + 3]) != Lower(CONNECTION[3]) || Lower(s[i + 0]) != Lower(CONNECTION[0]);
      }
    }
  }
}
