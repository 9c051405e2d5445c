/** How the network cuts up a reply, and when that matters to the client. */
module HttpDivision {
  import opened CLib
  import opened HttpFraming

  /** The pieces make up the reply, and none is empty. */
  predicate Divides(parts: seq<string>, reply: string) {
    Concat(parts) == reply && forall i :: 0 <= i < |parts| ==> parts[i] != ""
  }

  function Datas(parts: seq<string>): seq<Read> {
    seq(|parts|, i requires 0 <= i < |parts| => Data(parts[i]))
  }

  /** The reader after these pieces, and the end of the stream if it still reads. */
  function Fed(parts: seq<string>): Reader {
    TakeAll(Datas(parts) + [Eof])
  }

  /** The decision about the connection depends on the part of the reply that had
      arrived when the header was complete; `total` is the length of the reply. */
  predicate Keeps(part: string, total: nat) {
    match ParseHead(part)
    case NoHead => false
    case Head(end, len, close) => !close && (total < BUFFER - 1 || 0 <= len <= total - end)
  }

  // ---- the decision of one division ----

  /** The reader after pieces that make up `fed`. */
  predicate Midway(r: Reader, fed: string) {
    && r.got <= fed && !r.truncated
    && (r.head.NoHead? ==> ParseHead(fed).NoHead?)
    && (r.head.Head? ==> exists p :: 0 <= p <= |r.got| && r.head == ParseHead(r.got[..p]))
    && r.complete == BodyComplete(r.head, |fed|) && (r.complete ==> BodyComplete(r.head, |r.got|))
    && r.done == (r.complete || |fed| >= BUFFER - 1)
    && (!r.complete ==> r.got == fed)
  }

  lemma MidwayNext(r: Reader, fed: string, piece: string)
    requires Midway(r, fed) && piece != "" && |fed + piece| < BUFFER
    ensures Midway(Take(r, Data(piece)), fed + piece)
  {
    hide ParseHead;
    var next := Take(r, Data(piece));
    if r.head.Head? {
      var p :| 0 <= p <= |r.got| && r.head == ParseHead(r.got[..p]);
      assert next.got[..p] == r.got[..p];
    } else {
      assert next.got[..|next.got|] == next.got;
    }
  }

  lemma {:induction false} AfterPieces(parts: seq<string>, fed: string)
    requires Divides(parts, fed) && |fed| < BUFFER
    ensures Midway(TakeAll(Datas(parts)), fed)
  {
    hide Midway, Take;
    if parts == [] {
      NothingFed();
    } else {
      var n := |parts| - 1;
      ConcatLast(parts);
      assert Datas(parts)[..n] == Datas(parts[..n]);
      AfterPieces(parts[..n], Concat(parts[..n]));
      MidwayNext(TakeAll(Datas(parts[..n])), Concat(parts[..n]), parts[n]);
    }
  }

  lemma NothingFed()
    ensures Midway(IDLE, "")
  {
    assert UpToNul("") == "";
  }

  /** The header is judged on some part of the reply, and that decides. */
  lemma Decided(parts: seq<string>, reply: string) returns (p: nat)
    requires Divides(parts, reply) && HasHeader(reply) && |reply| < BUFFER
    ensures p <= |reply| && HasHeader(reply[..p])
    ensures Reusable(Fed(parts)) <==> Keeps(reply[..p], |reply|)
    ensures Fed(parts).got <= reply && Fed(parts).head == ParseHead(reply[..p])
    ensures Fed(parts).complete ==> Fed(parts).got == reply || BodyComplete(Fed(parts).head, |Fed(parts).got|)
  {
    hide ParseHead, HasHeader;
    AfterPieces(parts, reply);
    var r := TakeAll(Datas(parts));
    assert (Datas(parts) + [Eof])[..|parts|] == Datas(parts);
    HeadOf(reply);
    var q :| 0 <= q <= |r.got| && r.head == ParseHead(r.got[..q]);
    p := q;
    assert r.got[..p] == reply[..p];
    if !HasHeader(reply[..p]) {
      NoHeader(reply[..p]);
      assert false;
    }
  }

  function Cut(reply: string, p: nat): seq<string>
    requires p <= |reply|
  {
    if p == |reply| then [reply] else [reply[..p], reply[p..]]
  }

  lemma CutDivides(reply: string, p: nat)
    requires p <= |reply| && 0 < p
    ensures Divides(Cut(reply, p), reply)
  {
    ConcatTwo(reply[..p], reply[p..]);
    assert Concat([reply]) == reply + Concat([reply][1..]) == reply;
  }

  lemma OneDecides(a: string)
    requires ParseHead(a).Head? && |a| < BUFFER
    ensures Reusable(Take(Take(IDLE, Data(a)), Eof)) <==> Keeps(a, |a|)
  {
    hide ParseHead;
    assert IDLE.got + a == a;
  }

  lemma TwoDecide(a: string, b: string)
    requires ParseHead(a).Head? && b != "" && |a + b| < BUFFER
    ensures Reusable(Take(Take(Take(IDLE, Data(a)), Data(b)), Eof)) <==> Keeps(a, |a + b|)
  {
    hide ParseHead;
    assert IDLE.got + a == a;
  }

  /** Each cut behind the header decides by the part in front of it. */
  lemma CutDecides(reply: string, p: nat)
    requires HasHeader(reply) && |HeaderOf(reply)| <= p <= |reply| < BUFFER
    ensures Divides(Cut(reply, p), reply)
    ensures Reusable(Fed(Cut(reply, p))) <==> Keeps(reply[..p], |reply|)
  {
    hide ParseHead, HeaderOf, HasHeader, Fed, Take, Keeps, Divides, Reusable;
    HeaderInside(reply[..p], reply);
    HeadOf(reply[..p]);
    CutDivides(reply, p);
    var a, b := reply[..p], reply[p..];
    assert a + b == reply;
    if p == |reply| {
      assert a == reply;
      FedOne(a);
      OneDecides(a);
    } else {
      FedTwo(a, b);
      TwoDecide(a, b);
    }
  }

  lemma ConcatTwo(a: string, b: string)
    ensures Concat([a, b]) == a + b
  {
    assert Concat([b]) == b + Concat([b][1..]) == b;
    assert [a, b][1..] == [b];
  }

  lemma FedOne(a: string)
    ensures Fed([a]) == Take(Take(IDLE, Data(a)), Eof)
  {
    assert Datas([a]) + [Eof] == [Data(a), Eof];
    TakeTwo(Data(a), Eof);
  }

  lemma FedTwo(a: string, b: string)
    ensures Fed([a, b]) == Take(Take(Take(IDLE, Data(a)), Data(b)), Eof)
  {
    hide Take;
    assert Datas([a, b]) + [Eof] == [Data(a), Data(b), Eof];
    TakeTwo(Data(a), Data(b));
    var s := [Data(a), Data(b), Eof];
    assert s[..|s| - 1] == [Data(a), Data(b)];
  }

  lemma TakeTwo(a: Read, b: Read)
    ensures TakeAll([a, b]) == Take(Take(IDLE, a), b)
  {
    hide Take;
    var s := [a, b];
    assert s[..|s| - 1] == [a] && [a][..|[a]| - 1] == [];
    assert TakeAll([a]) == Take(TakeAll([]), a);
  }

  // ---- when all divisions agree ----

  ghost predicate AllAgree(reply: string) {
    forall u, v :: Divides(u, reply) && Divides(v, reply) ==> Reusable(Fed(u)) == Reusable(Fed(v))
  }

  /** Three cuts decide alike: behind the header, behind the first length option,
      and none. */
  predicate ThreeAgree(reply: string)
    requires HasHeader(reply)
  {
    var n := |reply|;
    && Keeps(HeaderOf(reply), n) == Keeps(reply, n)
    && (FirstLength(reply).Some? ==> Keeps(reply[..FirstLength(reply).value], n) == Keeps(reply, n))
  }

  lemma HeaderDivisionsAgree(reply: string)
    requires HasHeader(reply) && |reply| < BUFFER
    ensures AllAgree(reply) <==> ThreeAgree(reply)
  {
    hide HeaderOf, HasHeader, Keeps, Fed, FirstLength, Divides;
    var h, n := HeaderOf(reply), |reply|;
    assert h == reply[..|h|] && reply == reply[..n];
    if AllAgree(reply) {
      CutDecides(reply, |h|);
      CutDecides(reply, n);
      if FirstLength(reply).Some? {
        CutDecides(reply, FirstLength(reply).value);
      }
      assert Reusable(Fed(Cut(reply, |h|))) == Reusable(Fed(Cut(reply, n)));
    }
    if ThreeAgree(reply) {
      forall u, v | Divides(u, reply) && Divides(v, reply)
        ensures Reusable(Fed(u)) == Reusable(Fed(v))
      {
        var p := Decided(u, reply);
        var q := Decided(v, reply);
        ThreeDecide(reply, p);
        ThreeDecide(reply, q);
      }
    }
  }

  /** Without a header no division leads to reuse. */
  lemma NoHeaderAgrees(reply: string)
    requires !HasHeader(reply) && |reply| < BUFFER
    ensures AllAgree(reply)
  {
    hide HasHeader, Fed, Divides;
    forall u, v | Divides(u, reply) && Divides(v, reply)
      ensures Reusable(Fed(u)) == Reusable(Fed(v))
    {
      NeverKept(u, reply);
      NeverKept(v, reply);
    }
  }

  lemma NeverKept(parts: seq<string>, reply: string)
    requires Divides(parts, reply) && !HasHeader(reply) && |reply| < BUFFER
    ensures !Reusable(Fed(parts))
  {
    hide ParseHead, HasHeader;
    AfterPieces(parts, reply);
    var r := TakeAll(Datas(parts));
    assert (Datas(parts) + [Eof])[..|parts|] == Datas(parts);
    if r.head.Head? {
      var p :| 0 <= p <= |r.got| && r.head == ParseHead(r.got[..p]);
      NoHeaderInside(r.got[..p], reply);
    }
  }

  lemma NoHeaderInside(part: string, reply: string)
    requires part <= reply && !HasHeader(reply)
    ensures ParseHead(part) == NoHead
  {
    hide HasHeader;
    if HasHeader(part) {
      SameHeader(part, reply);
    } else {
      NoHeader(part);
    }
  }

  /** For every reply that fits the buffer, the decision does not depend on the
      division if and only if it is the same for three of them, or there is no
      header.  If the reply leaves room in the buffer, three decide alike if and
      only if the body does not change what the header says about closing. */
  lemma DivisionsAgree(reply: string)
    requires |reply| < BUFFER
    ensures AllAgree(reply) <==> !HasHeader(reply) || ThreeAgree(reply)
    ensures |reply| < BUFFER - 1 ==>
              (AllAgree(reply) <==> !HasHeader(reply) || SaysClose(UpToNul(reply)) == SaysClose(HeaderOf(reply)))
  {
    hide HasHeader, HeaderOf, AllAgree, ThreeAgree, SaysClose;
    if HasHeader(reply) {
      HeaderDivisionsAgree(reply);
      if |reply| < BUFFER - 1 {
        ShortThree(reply);
      }
    } else {
      NoHeaderAgrees(reply);
    }
  }

  lemma KeepsHead(part: string, total: nat)
    requires HasHeader(part)
    ensures Keeps(part, total)
       <==> && !SaysClose(UpToNul(part))
            && (total < BUFFER - 1 || 0 <= ContentLen(UpToNul(part)) <= total - |HeaderOf(part)|)
  {
    hide ParseHead, HeaderOf, HasHeader;
    HeadOf(part);
  }

  /** What is said about closing grows with the part that is seen. */
  lemma CloseSeen(part: string, reply: string)
    requires part <= reply && HasHeader(part) && HasHeader(reply)
    ensures HasHeader(HeaderOf(reply)) && HeaderOf(HeaderOf(reply)) == HeaderOf(reply) == UpToNul(HeaderOf(reply))
    ensures HeaderOf(part) == HeaderOf(reply)
    ensures SaysClose(HeaderOf(reply)) ==> SaysClose(UpToNul(part))
    ensures SaysClose(UpToNul(part)) ==> SaysClose(UpToNul(reply))
  {
    hide HasHeader, SaysClose, UpToNul;
    var h := HeaderOf(reply);
    SameHeader(part, reply);
    HeaderInside(h, reply);
    CutText(h, reply);
    CutText(part, reply);
    if SaysClose(h) {
      CloseGrows(h, UpToNul(part));
    }
    if SaysClose(UpToNul(part)) {
      CloseGrows(UpToNul(part), UpToNul(reply));
    }
  }

  lemma ShortThree(reply: string)
    requires HasHeader(reply) && |reply| < BUFFER - 1
    ensures ThreeAgree(reply) <==> SaysClose(UpToNul(reply)) == SaysClose(HeaderOf(reply))
  {
    hide HeaderOf, HasHeader, Keeps, FirstLength, SaysClose, ContentLen;
    CloseSeen(reply, reply);
    KeepsHead(HeaderOf(reply), |reply|);
    KeepsHead(reply, |reply|);
    if FirstLength(reply).Some? {
      var a := reply[..FirstLength(reply).value];
      HeaderInside(a, reply);
      CloseSeen(a, reply);
      KeepsHead(a, |reply|);
    }
  }

  lemma ThreeDecide(reply: string, p: nat)
    requires HasHeader(reply) && |reply| < BUFFER && ThreeAgree(reply)
    requires p <= |reply| && HasHeader(reply[..p])
    ensures Keeps(reply[..p], |reply|) == Keeps(reply, |reply|)
  {
    hide HeaderOf, HasHeader, Keeps, FirstLength, SaysClose, ContentLen, UpToNul;
    var part, h, n := reply[..p], HeaderOf(reply), |reply|;
    CloseSeen(part, reply);
    KeepsHead(h, n);
    KeepsHead(part, n);
    KeepsHead(reply, n);
    if n == BUFFER - 1 {
      if Keeps(reply, n) {
        LengthInRange(part, reply, n - |h|);
      } else if Keeps(part, n) {
        LengthAtFirst(part, reply);
        KeepsHead(reply[..FirstLength(reply).value], n);
      }
    }
  }

  // ---- numbers that grow ----

  lemma {:induction false} DigitsGrow(s: string, more: string, acc: int)
    requires acc >= 0
    ensures acc <= Digits(s, acc) <= Digits(s + more, acc)
  {
    if s == "" {
      if more != "" && IsDigit(more[0]) {
        DigitsGrow("", more[1..], acc * 10 + DigitOf(more[0]));
        assert "" + more[1..] == more[1..];
      }
      assert s + more == more;
    } else if IsDigit(s[0]) {
      assert (s + more)[1..] == s[1..] + more;
      DigitsGrow(s[1..], more, acc * 10 + DigitOf(s[0]));
    }
  }

  /** A number between 0 and a bound was between them when only a part of it had
      been seen. */
  lemma AtoiGrows(s: string, more: string, bound: int)
    requires 0 <= Atoi(s + more) <= bound
    ensures 0 <= Atoi(s) <= bound
  {
    hide LeadingSpaces, Digits, Signed;
    if LeadingSpaces(s) == |s| {
      AtoiBlank(s);
    } else {
      LeadingSpacesLocal(s, more);
      var k := LeadingSpaces(s);
      assert (s + more)[k..] == s[k..] + more;
      SignedGrows(s[k..], more, bound);
    }
  }

  lemma SignedGrows(t: string, more: string, bound: int)
    requires t != "" && 0 <= Signed(t + more) <= bound
    ensures 0 <= Signed(t) <= bound
  {
    hide Digits;
    assert (t + more)[1..] == t[1..] + more;
    DigitsGrow(t[1..], more, 0);
    DigitsGrow(t, more, 0);
  }

  /** A length seen behind the header is read at the same place wherever the
      reply is cut. */
  lemma LengthPlace(h: string, text: string) returns (from: nat)
    requires h <= text && ContentLen(h) >= 0
    ensures CiFind(h, CONTENT_LENGTH) == CiFind(text, CONTENT_LENGTH) == Some(from - |CONTENT_LENGTH|)
    ensures |CONTENT_LENGTH| <= from <= |h| && ContentLen(text) == Atoi(text[from..])
  {
    hide CiFind, Atoi;
    CiFindInPrefix(h, text, CONTENT_LENGTH);
    from := CiFind(h, CONTENT_LENGTH).value + |CONTENT_LENGTH|;
  }

  lemma LengthInRange(part: string, reply: string, bound: int)
    requires part <= reply && HasHeader(part) && HasHeader(reply)
    requires 0 <= ContentLen(UpToNul(reply)) <= bound && 0 <= ContentLen(UpToNul(HeaderOf(reply)))
    ensures 0 <= ContentLen(UpToNul(part)) <= bound
  {
    hide HasHeader, HeaderOf, UpToNul, CiFind, Atoi, ContentLen;
    var text, upTo, h := UpToNul(reply), UpToNul(part), HeaderOf(reply);
    CloseSeen(part, reply);
    CutText(part, reply);
    var from := LengthPlace(h, upTo);
    var at := LengthPlace(h, text);
    assert text[from..] == upTo[from..] + text[|upTo|..];
    AtoiGrows(upTo[from..], text[|upTo|..], bound);
  }

  // ---- a reply of announced length ----

  /** The header carries a length whose number begins inside the header. */
  predicate HasLength(reply: string)
    requires HasHeader(reply)
  {
    var h := HeaderOf(reply);
    match CiFind(h, CONTENT_LENGTH)
    case Some(i) => LeadingSpaces(h[i + |CONTENT_LENGTH|..]) < |h[i + |CONTENT_LENGTH|..]|
    case None => false
  }

  function LengthOf(reply: string): int
    requires HasHeader(reply) && HasLength(reply)
  {
    ContentLen(HeaderOf(reply))
  }

  /** The length is announced in the header, or the text never mentions one. */
  predicate LengthSettled(reply: string)
    requires HasHeader(reply)
  {
    HasLength(reply) || CiFind(UpToNul(reply), CONTENT_LENGTH).None?
  }

  /** The announced length does not depend on how much has arrived. */
  lemma SameLength(part: string, reply: string)
    requires part <= reply && HasHeader(part) && HasHeader(reply) && LengthSettled(reply)
    ensures ContentLen(UpToNul(part)) == if HasLength(reply) then LengthOf(reply) else -1
  {
    hide UpToNul, CiFind, HeaderOf, HasHeader, ContentLen, HasLength, LengthOf;
    SameHeader(part, reply);
    CutText(part, reply);
    CiFindInPrefix(UpToNul(part), UpToNul(reply), CONTENT_LENGTH);
    if HasLength(reply) {
      LengthOfHeader(part, reply);
      LengthLocal(part, UpToNul(part));
    } else {
      NoLength(UpToNul(part));
    }
  }

  lemma NoLength(text: string)
    requires CiFind(text, CONTENT_LENGTH).None?
    ensures ContentLen(text) == -1
  {
  }

  lemma LengthOfHeader(part: string, reply: string)
    requires HasHeader(part) && HasHeader(reply) && HeaderOf(part) == HeaderOf(reply) && HasLength(reply)
    ensures HasLength(part) && LengthOf(part) == LengthOf(reply)
  {
    hide HeaderOf, HasHeader;
  }

  lemma LengthLocal(reply: string, text: string)
    requires HasHeader(reply) && HasLength(reply) && HeaderOf(reply) <= text
    ensures ContentLen(text) == LengthOf(reply)
  {
    hide CiFind, HeaderOf, HasHeader, Atoi;
    var h := HeaderOf(reply);
    CiFindInPrefix(h, text, CONTENT_LENGTH);
    AtoiInside(h, text, CiFind(h, CONTENT_LENGTH).value + |CONTENT_LENGTH|);
  }

  // ---- clean replies ----

  /** A whole reply that fits the buffer, of honest length, whose body neither
      brings up a length nor changes what the header says about closing. */
  predicate Clean(reply: string) {
    && |reply| < BUFFER
    && HasHeader(reply)
    && LengthSettled(reply)
    && (HasLength(reply) ==> |reply| == |HeaderOf(reply)| + LengthOf(reply))
    && SaysClose(UpToNul(reply)) == SaysClose(HeaderOf(reply))
  }

  /** A server that never sends more than it announced sends framed replies. */
  lemma HonestIsFramed(reply: string)
    requires HasHeader(reply) && HasLength(reply) && |reply| <= |HeaderOf(reply)| + LengthOf(reply)
    ensures Framed(reply)
  {
    hide HasHeader, HeaderOf, HasLength, LengthOf, ParseHead, UpToNul, FirstLength;
    if FirstLength(reply).Some? {
      var a := reply[..FirstLength(reply).value];
      CutAtFirst(reply);
      HeadOf(a);
      SameLength(a, reply);
    }
  }

  lemma CleanIsFramed(reply: string)
    requires Clean(reply)
    ensures Framed(reply)
  {
    hide HasHeader, HeaderOf, HasLength, LengthOf, ParseHead, UpToNul, Undershoots, CiFind, SaysClose;
    if HasLength(reply) {
      HonestIsFramed(reply);
    }
  }

  /** However the network cuts up a clean reply, the client ends with the same
      status and the same decision about the connection. */
  lemma FragmentationInvariant(parts: seq<string>, reply: string)
    requires Clean(reply) && Divides(parts, reply)
    ensures StatusOf(Fed(parts).got) == StatusOf(reply)
    ensures Reusable(Fed(parts)) <==> !SaysClose(HeaderOf(reply)) && (HasLength(reply) || |reply| < BUFFER - 1)
  {
    hide HeaderOf, HasHeader, HasLength, LengthOf, LengthSettled, Keeps, SaysClose, StatusOf, Fed, Divides;
    var p := Decided(parts, reply);
    HeadOf(reply[..p]);
    SameLength(reply[..p], reply);
    KeepsHead(reply[..p], |reply|);
    CloseSeen(reply[..p], reply);
    FedWhole(parts, reply);
  }

  /** A clean reply with a length is complete with its last piece; the client does
      not wait for the connection to end. */
  lemma DoneAtLength(parts: seq<string>, reply: string)
    requires Clean(reply) && HasLength(reply) && Divides(parts, reply)
    ensures var r := TakeAll(Datas(parts));
            r.done && r.complete && r.got == reply && (Reusable(r) <==> !SaysClose(HeaderOf(reply)))
  {
    hide HeaderOf, HasHeader, HasLength, LengthOf, LengthSettled, SaysClose, ParseHead;
    AfterPieces(parts, reply);
    HeadOf(reply);
    var r := TakeAll(Datas(parts));
    var p :| 0 <= p <= |r.got| && r.head == ParseHead(r.got[..p]);
    var part := r.got[..p];
    assert part == reply[..p];
    if !HasHeader(part) {
      NoHeader(part);
      assert false;
    }
    HeadOf(part);
    SameLength(part, reply);
    SameHeader(part, reply);
    CloseSeen(part, reply);
  }

  /** Of a clean reply, everything is read. */
  lemma FedWhole(parts: seq<string>, reply: string)
    requires Clean(reply) && Divides(parts, reply)
    ensures Fed(parts).got == reply
  {
    hide HeaderOf, HasHeader, HasLength, LengthOf, LengthSettled, SaysClose, ParseHead;
    AfterPieces(parts, reply);
    HeadOf(reply);
    var r := TakeAll(Datas(parts));
    assert (Datas(parts) + [Eof])[..|parts|] == Datas(parts);
    if r.head.Head? {
      var p :| 0 <= p <= |r.got| && r.head == ParseHead(r.got[..p]);
      assert r.got[..p] == reply[..p];
      if !HasHeader(reply[..p]) {
        NoHeader(reply[..p]);
        assert false;
      }
      HeadOf(reply[..p]);
      SameLength(reply[..p], reply);
      SameHeader(reply[..p], reply);
    }
  }

  // ---- bodies that mention the keywords ----

  function BodyText(reply: string): string
    requires HasHeader(reply)
  {
    UpToNul(reply)[|HeaderOf(reply)|..]
  }

  /** No keyword straddles the end of the header. */
  lemma NoStraddle(h: string, b: string, needle: string)
    requires h != "" && h[|h| - 1] == '\n' && needle != ""
    requires forall k :: 0 <= k < |needle| ==> Lower(needle[k]) != '\n'
    requires CiFind(h, needle).None? && CiFind(b, needle).None?
    ensures CiFind(h + b, needle).None?
  {
    hide CiFind;
    var s := h + b;
    forall i: nat | i <= |s|
      ensures !CiAt(s, needle, i)
    {
      if i + |needle| <= |h| {
        CiAtLeft(h, b, needle, i);
      } else if i >= |h| {
        CiAtRight(h, b, needle, i - |h|);
      } else if i + |needle| <= |s| {
        var k := |h| - 1 - i;
        assert Lower(s[i + k]) == '\n' != Lower(needle[k]);
      }
    }
  }

  lemma CiAtLeft(h: string, b: string, needle: string, i: nat)
    requires i + |needle| <= |h|
    ensures CiAt(h + b, needle, i) == CiAt(h, needle, i)
  {
  }

  lemma CiAtRight(h: string, b: string, needle: string, i: nat)
    ensures CiAt(h + b, needle, |h| + i) == CiAt(b, needle, i)
  {
    if i + |needle| <= |b| {
      assert forall k {:trigger needle[k]} :: 0 <= k < |needle| ==> (h + b)[|h| + i + k] == b[i + k];
    }
  }

  lemma CloseLocal(h: string, b: string, i: nat)
    requires i < |h| && h[|h| - 1] == '\n'
    ensures CiAt(h + b, " close", i) == CiAt(h, " close", i)
  {
    if |h| < i + 6 <= |h + b| {
      var k := |h| - 1 - i;
      assert Lower((h + b)[i + k]) == '\n' != Lower(" close"[k]);
    }
  }

  lemma OptionInside(h: string, i: nat)
    requires CiAt(h, CONNECTION, i) && h[|h| - 1] == '\n'
    ensures i + |CONNECTION| < |h|
  {
    assert Lower(h[i + 10]) == Lower(CONNECTION[10]);
  }

  lemma CloseInHeader(h: string, b: string)
    requires h != "" && h[|h| - 1] == '\n' && CiFind(h, CONNECTION).Some?
    ensures SaysClose(h + b) == SaysClose(h)
  {
    hide CiFind, CiAt;
    CiFindInPrefix(h, h + b, CONNECTION);
    OptionInside(h, CiFind(h, CONNECTION).value);
    CloseLocal(h, b, CiFind(h, CONNECTION).value + |CONNECTION|);
  }

  /** A reply of honest length is clean when its body mentions neither keyword. */
  lemma CleanBody(reply: string)
    requires |reply| < BUFFER && HasHeader(reply)
    requires CiFind(HeaderOf(reply), CONTENT_LENGTH).Some? ==>
               HasLength(reply) && |reply| == |HeaderOf(reply)| + LengthOf(reply)
    requires CiFind(BodyText(reply), CONTENT_LENGTH).None? && CiFind(BodyText(reply), CONNECTION).None?
    ensures Clean(reply)
  {
    hide CiFind, UpToNul, Find;
    var h, b := HeaderOf(reply), BodyText(reply);
    assert UpToNul(reply) == h + b;
    if CiFind(h, CONTENT_LENGTH).None? {
      NoStraddle(h, b, CONTENT_LENGTH);
    }
    if CiFind(h, CONNECTION).None? {
      NoStraddle(h, b, CONNECTION);
    } else {
      CloseInHeader(h, b);
    }
  }

  /** A body that brings up a close option can make the outcome depend on the
      cut: here the header has no options, and the body is "connection: close". */
  lemma FragmentationMatters()
    ensures var reply := END_OF_HEADER + "connection: close"; HasHeader(reply) && !AllAgree(reply)
  {
    hide UpToNul, Find, CiFind, AllAgree, ThreeAgree;
    var h := END_OF_HEADER;
    var reply := h + "connection: close";
    NulFreeIsWhole(reply);
    FindAtStart(reply, END_OF_HEADER);
    assert HeaderOf(reply) == h;
    NothingToFind(h, CONNECTION);
    forall k | 0 <= k < 4
      ensures !CiAt(reply, CONNECTION, k)
    {
      assert Lower(reply[k + 0]) != Lower(CONNECTION[0]);
    }
    assert CiAt(reply, CONNECTION, 4);
    CiFindIs(reply, CONNECTION, 4);
    assert CiAt(reply, " close", 15);
    DivisionsAgree(reply);
  }
}
