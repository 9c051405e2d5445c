/** Replies as servers write them, and what the client reads from them:
    options in any letter case, numbers in decimal, cut up in any way. */
module HttpReply {
  import opened CLib
  import opened HttpFraming
  import opened HttpDivision

  // ---- letters ----

  /** The same letter, whatever its case, or the same character. */
  predicate SameLetter(a: char, b: char) {
    || a == b
    || ('A' <= a <= 'Z' && b as int == a as int + 32)
    || ('A' <= b <= 'Z' && a as int == b as int + 32)
  }

  predicate SameText(s: string, t: string) {
    |s| == |t| && forall k :: 0 <= k < |s| ==> SameLetter(s[k], t[k])
  }

  lemma LowerMeans(a: char, b: char)
    ensures Lower(a) == Lower(b) <==> SameLetter(a, b)
  {
  }

  /** The search of ci_strstr and strncasecmp compares letters without their
      case, and nothing else. */
  lemma CiAtMeans(s: string, needle: string, i: nat)
    ensures CiAt(s, needle, i) <==> i + |needle| <= |s| && SameText(s[i..i + |needle|], needle)
  {
    hide Lower, SameLetter;
    if i + |needle| <= |s| {
      var t := s[i..i + |needle|];
      forall k | 0 <= k < |needle|
        ensures t[k] == s[i + k] && (Lower(s[i + k]) == Lower(needle[k]) <==> SameLetter(t[k], needle[k]))
      {
        LowerMeans(s[i + k], needle[k]);
      }
    }
  }

  // ---- numbers ----

  function DigitChar(d: nat): (c: char)
    requires d < 10
    ensures IsDigit(c) && DigitOf(c) == d
  {
    (d + '0' as int) as char
  }

  function Decimal(n: nat): (s: string)
    ensures s != "" && IsDigit(s[0])
  {
    if n < 10 then [DigitChar(n)] else Decimal(n / 10) + [DigitChar(n % 10)]
  }

  function Pow10(k: nat): nat {
    if k == 0 then 1 else 10 * Pow10(k - 1)
  }

  predicate NoDigitFirst(s: string) {
    s != "" ==> !IsDigit(s[0])
  }

  lemma DigitFirst(d: char, rest: string, acc: int)
    requires IsDigit(d)
    ensures Digits([d] + rest, acc) == Digits(rest, acc * 10 + DigitOf(d))
  {
    assert ([d] + rest)[1..] == rest;
  }

  /** Digits written down are read back, in front of anything else. */
  lemma {:induction false} DigitsRead(n: nat, rest: string, acc: int)
    ensures Digits(Decimal(n) + rest, acc) == Digits(rest, acc * Pow10(|Decimal(n)|) + n)
  {
    hide Digits, DigitChar;
    if n < 10 {
      DigitFirst(DigitChar(n), rest, acc);
      assert Pow10(1) == 10;
    } else {
      var d := DigitChar(n % 10);
      DigitsRead(n / 10, [d] + rest, acc);
      assert Decimal(n) + rest == Decimal(n / 10) + ([d] + rest);
      var p := Pow10(|Decimal(n / 10)|);
      DigitFirst(d, rest, acc * p + n / 10);
      Shifted(acc, p, n);
    }
  }

  lemma Shifted(acc: int, p: nat, n: nat)
    ensures (acc * p + n / 10) * 10 + n % 10 == acc * (10 * p) + n
  {
    assert acc * (10 * p) == (acc * p) * 10;
  }

  predicate AllSpace(s: string) {
    forall i :: 0 <= i < |s| ==> IsSpace(s[i])
  }

  lemma {:induction false} SpacesLead(pad: string, s: string)
    requires AllSpace(pad) && (s != "" ==> !IsSpace(s[0]))
    ensures LeadingSpaces(pad + s) == |pad| && (pad + s)[|pad|..] == s
  {
    if pad != "" {
      assert (pad + s)[1..] == pad[1..] + s;
      SpacesLead(pad[1..], s);
    }
  }

  /** atoi reads back a decimal number behind white space, with its sign. */
  lemma AtoiReads(pad: string, sign: string, n: nat, rest: string)
    requires AllSpace(pad) && sign in {"", "+", "-"} && NoDigitFirst(rest)
    ensures Atoi(pad + (sign + (Decimal(n) + rest))) == if sign == "-" then 0 - n else n
  {
    hide LeadingSpaces, Digits, Decimal;
    var number := Decimal(n) + rest;
    SpacesLead(pad, sign + number);
    DigitsRead(n, rest, 0);
    DigitsStop(rest, n);
    assert sign != "" ==> (sign + number)[1..] == number && (sign + number)[0] == sign[0];
    assert sign == "" ==> sign + number == number;
  }

  lemma DigitsStop(rest: string, acc: int)
    requires NoDigitFirst(rest)
    ensures Digits(rest, acc) == acc
  {
  }

  // ---- one reply ----

  const CRLF := "\r\n"

  /** A reply with a length and a connection option, named in any letter case.
      The reason must not look like either option. */
  datatype Reply = Reply(status: nat, reason: string, lengthName: string, connName: string, connValue: string,
                         body: string)

  function StatusLine(r: Reply): string {
    "HTTP/1.1 " + Decimal(r.status) + " " + r.reason + CRLF
  }

  function LengthLine(r: Reply): string {
    r.lengthName + (" " + (Decimal(|r.body|) + CRLF))
  }

  function ConnLine(r: Reply): string {
    r.connName + (" " + (r.connValue + CRLF))
  }

  function HeaderText(r: Reply): string {
    StatusLine(r) + (LengthLine(r) + (ConnLine(r) + CRLF))
  }

  function Written(r: Reply): string {
    HeaderText(r) + r.body
  }

  predicate OnOneLine(s: string) {
    forall i :: 0 <= i < |s| ==> s[i] !in "\r\n\0"
  }

  predicate Proper(r: Reply) {
    && OnOneLine(r.reason) && OnOneLine(r.connValue)
    && SameText(r.lengthName, CONTENT_LENGTH) && SameText(r.connName, CONNECTION)
    && CiFind(StatusLine(r), CONTENT_LENGTH).None? && CiFind(StatusLine(r), CONNECTION).None?
  }

  predicate AsksToClose(r: Reply) {
    |r.connValue| >= 5 && SameText(r.connValue[..5], "close")
  }

  // ---- the header found ----

  /** A line of its own, with something on it. */
  predicate IsLine(s: string) {
    && |s| > 2 && s[|s| - 2..] == CRLF
    && forall i :: 0 <= i < |s| - 2 ==> s[i] !in "\r\n\0"
  }

  lemma LastLine(line: string)
    requires IsLine(line)
    ensures Find(line + CRLF, END_OF_HEADER) == Some(|line| - 2)
  {
    hide Find;
    var s := line + CRLF;
    forall i: nat | i < |line| - 2
      ensures !At(s, END_OF_HEADER, i)
    {
      if i + 4 <= |s| {
        assert s[i..i + 4][0] == line[i];
      }
    }
    assert s[|line| - 2..|line| + 2] == line[|line| - 2..] + CRLF;
    FindAt(s, |line| - 2);
  }

  lemma NotInLine(line: string, rest: string, i: nat)
    requires IsLine(line) && rest != "" && rest[0] != '\r' && i < |line|
    ensures !At(line + rest, END_OF_HEADER, i)
  {
    var s := line + rest;
    if i + 4 <= |s| {
      var t := s[i..i + 4];
      assert t[0] == line[i];
      if i == |line| - 2 {
        assert t[2] == rest[0];
      } else if i == |line| - 1 {
        assert line[|line| - 2..][1] == '\n';
      }
    }
  }

  lemma AtBehind(line: string, rest: string, i: nat)
    ensures At(line + rest, END_OF_HEADER, |line| + i) == At(rest, END_OF_HEADER, i)
  {
    if i + 4 <= |rest| {
      assert (line + rest)[|line| + i..|line| + i + 4] == rest[i..i + 4];
    }
  }

  lemma OneMoreLine(line: string, rest: string, k: nat)
    requires IsLine(line) && rest != "" && rest[0] != '\r' && Find(rest, END_OF_HEADER) == Some(k)
    ensures Find(line + rest, END_OF_HEADER) == Some(|line| + k)
  {
    hide Find, At, IsLine;
    var s := line + rest;
    forall i: nat | i < |line| + k
      ensures !At(s, END_OF_HEADER, i)
    {
      if i >= |line| {
        AtBehind(line, rest, i - |line|);
      } else {
        NotInLine(line, rest, i);
      }
    }
    AtBehind(line, rest, k);
    FindAt(s, |line| + k);
  }

  lemma FindAt(s: string, k: nat)
    requires At(s, END_OF_HEADER, k) && forall i: nat | i < k :: !At(s, END_OF_HEADER, i)
    ensures Find(s, END_OF_HEADER) == Some(k)
  {
  }

  lemma {:induction false} DecimalDigits(n: nat)
    ensures forall i :: 0 <= i < |Decimal(n)| ==> IsDigit(Decimal(n)[i])
  {
    if n >= 10 {
      DecimalDigits(n / 10);
    }
  }

  lemma MakesLine(s: string)
    requires OnOneLine(s) && s != ""
    ensures IsLine(s + CRLF) && (s + CRLF)[0] == s[0] != '\r'
  {
    assert (s + CRLF)[|s|..] == CRLF;
  }

  lemma OnOneLineConcat(s: string, t: string)
    requires OnOneLine(s) && OnOneLine(t)
    ensures OnOneLine(s + t)
  {
  }

  lemma LinesOf(r: Reply)
    requires Proper(r)
    ensures IsLine(StatusLine(r)) && IsLine(LengthLine(r)) && IsLine(ConnLine(r))
    ensures LengthLine(r)[0] != '\r' && ConnLine(r)[0] != '\r'
  {
    hide Decimal, OnOneLine, IsLine, SameText;
    DecimalOnOneLine(r.status);
    DecimalOnOneLine(|r.body|);
    NamesOnOneLine(r);
    OnOneLineConcat("HTTP/1.1 ", Decimal(r.status));
    OnOneLineConcat("HTTP/1.1 " + Decimal(r.status), " ");
    OnOneLineConcat("HTTP/1.1 " + Decimal(r.status) + " ", r.reason);
    MakesLine("HTTP/1.1 " + Decimal(r.status) + " " + r.reason);
    OnOneLineConcat(" ", Decimal(|r.body|));
    OnOneLineConcat(r.lengthName, " " + Decimal(|r.body|));
    MakesLine(r.lengthName + (" " + Decimal(|r.body|)));
    assert LengthLine(r) == r.lengthName + (" " + Decimal(|r.body|)) + CRLF;
    OnOneLineConcat(" ", r.connValue);
    OnOneLineConcat(r.connName, " " + r.connValue);
    MakesLine(r.connName + (" " + r.connValue));
    assert ConnLine(r) == r.connName + (" " + r.connValue) + CRLF;
  }

  lemma DecimalOnOneLine(n: nat)
    ensures OnOneLine(Decimal(n))
  {
    DecimalDigits(n);
  }

  lemma NamesOnOneLine(r: Reply)
    requires Proper(r)
    ensures OnOneLine(r.lengthName) && r.lengthName != "" && OnOneLine(r.connName) && r.connName != ""
    ensures OnOneLine(" ") && OnOneLine("HTTP/1.1 ")
  {
    hide SameText, OnOneLine;
    LikeContentLength();
    LikeConnection();
    NameIsPlain(r.lengthName, CONTENT_LENGTH);
    NameIsPlain(r.connName, CONNECTION);
    LikeVersion();
  }

  lemma LikeContentLength()
    ensures OnOneLine(CONTENT_LENGTH)
  {
  }

  lemma LikeConnection()
    ensures OnOneLine(CONNECTION)
  {
  }

  lemma LikeVersion()
    ensures OnOneLine(" ") && OnOneLine("HTTP/1.1 ")
  {
  }

  lemma NameIsPlain(name: string, like: string)
    requires SameText(name, like) && OnOneLine(like) && like != ""
    ensures OnOneLine(name) && name != ""
  {
  }

  lemma HeaderFound(r: Reply)
    requires Proper(r)
    ensures Find(HeaderText(r), END_OF_HEADER) == Some(|HeaderText(r)| - 4)
    ensures NulFree(HeaderText(r)) && HeaderText(r)[|HeaderText(r)| - 1] == '\n'
  {
    hide StatusLine, LengthLine, ConnLine, Find;
    LinesOf(r);
    LastLine(ConnLine(r));
    OneMoreLine(LengthLine(r), ConnLine(r) + CRLF, |ConnLine(r)| - 2);
    OneMoreLine(StatusLine(r), LengthLine(r) + (ConnLine(r) + CRLF), |LengthLine(r)| + |ConnLine(r)| - 2);
  }

  lemma WrittenHeader(r: Reply)
    requires Proper(r)
    ensures HasHeader(Written(r)) && HeaderOf(Written(r)) == HeaderText(r)
  {
    hide Find, UpToNul, HeaderText, Proper;
    var h := HeaderText(r);
    HeaderFound(r);
    NulFreeIsWhole(h);
    assert HasHeader(h) && HeaderOf(h) == h;
    assert h <= Written(r);
    SameHeader(h, Written(r));
  }

  // ---- the options read ----

  /** An option that the lines before it do not hold is found where it stands. */
  lemma FirstAfter(h: string, b: string, needle: string)
    requires h != "" && h[|h| - 1] == '\n' && needle != ""
    requires forall k :: 0 <= k < |needle| ==> Lower(needle[k]) != '\n'
    requires CiFind(h, needle).None? && CiAt(b, needle, 0)
    ensures CiFind(h + b, needle) == Some(|h|)
  {
    hide CiFind;
    var s := h + b;
    forall i: nat | i < |h|
      ensures !CiAt(s, needle, i)
    {
      if i + |needle| <= |h| {
        CiAtLeft(h, b, needle, i);
      } else if i + |needle| <= |s| {
        var k := |h| - 1 - i;
        assert Lower(s[i + k]) == '\n' != Lower(needle[k]);
      }
    }
    CiAtRight(h, b, needle, 0);
    CiFindIs(s, needle, |h|);
  }

  lemma NamedHere(name: string, needle: string, rest: string)
    requires SameText(name, needle)
    ensures CiAt(name + rest, needle, 0)
  {
    hide CiAt;
    CiAtMeans(name + rest, needle, 0);
    assert (name + rest)[0..|needle|] == name;
  }

  lemma LengthRead(r: Reply)
    requires Proper(r)
    ensures CiFind(HeaderText(r), CONTENT_LENGTH) == Some(|StatusLine(r)|)
    ensures ContentLen(HeaderText(r)) == |r.body|
  {
    hide CiFind, CiAt, Atoi, Decimal, StatusLine, ConnLine, SameText;
    var h, rest := HeaderText(r), ConnLine(r) + CRLF;
    LinesOf(r);
    var after := " " + (Decimal(|r.body|) + CRLF) + rest;
    assert LengthLine(r) + rest == r.lengthName + after;
    NamedHere(r.lengthName, CONTENT_LENGTH, after);
    FirstAfter(StatusLine(r), LengthLine(r) + rest, CONTENT_LENGTH);
    assert |r.lengthName| == 15 by { NameLength(r); }
    assert h[|StatusLine(r)| + 15..] == after;
    assert after == " " + ("" + (Decimal(|r.body|) + (CRLF + rest)));
    AtoiReads(" ", "", |r.body|, CRLF + rest);
  }

  lemma NameLength(r: Reply)
    requires Proper(r)
    ensures |r.lengthName| == 15 && |r.connName| == 11
  {
  }

  lemma NotTheOther(r: Reply)
    requires Proper(r)
    ensures CiFind(LengthLine(r), CONNECTION).None?
  {
    hide CiFind, Decimal;
    var s := LengthLine(r);
    DecimalDigits(|r.body|);
    forall i: nat | i <= |s|
      ensures !CiAt(s, CONNECTION, i)
    {
      if i + 11 <= |s| {
        if 0 < i {
          assert !SameLetter(s[i], 'c');
          LowerMeans(s[i + 0], 'c');
          assert CONNECTION[0] == 'c';
        } else {
          assert SameLetter(s[3], 't');
          LowerMeans(s[i + 3], 'n');
          assert CONNECTION[3] == 'n';
        }
      }
    }
  }

  lemma CloseRead(r: Reply)
    requires Proper(r)
    ensures CiFind(HeaderText(r), CONNECTION).Some?
    ensures SaysClose(HeaderText(r)) <==> AsksToClose(r)
  {
    hide CiFind, CiAt, SameText, StatusLine, LengthLine;
    var before := StatusLine(r) + LengthLine(r);
    LinesOf(r);
    NameLength(r);
    NotTheOther(r);
    NoStraddle(StatusLine(r), LengthLine(r), CONNECTION);
    var value := r.connValue + CRLF + CRLF;
    assert ConnLine(r) + CRLF == r.connName + (" " + value);
    NamedHere(r.connName, CONNECTION, " " + value);
    FirstAfter(before, ConnLine(r) + CRLF, CONNECTION);
    assert HeaderText(r) == before + (ConnLine(r) + CRLF);
    var at := |before| + 11;
    assert HeaderText(r)[at..] == " " + value;
    CiAtMeans(HeaderText(r), " close", at);
    CloseMeans(r.connValue, value);
    if at + 6 <= |HeaderText(r)| {
      assert HeaderText(r)[at..at + 6] == (" " + value)[..6];
    }
  }

  lemma CloseMeans(v: string, value: string)
    requires value == v + CRLF + CRLF && OnOneLine(v)
    ensures |" " + value| >= 6 && SameText((" " + value)[..6], " close")
       <==> |v| >= 5 && SameText(v[..5], "close")
  {
    var t := " " + value;
    if |t| >= 6 {
      var u := t[..6];
      assert u[0] == ' ' && forall k :: 1 <= k < 6 ==> u[k] == value[k - 1] && " close"[k] == "close"[k - 1];
      if |v| >= 5 {
        assert forall k :: 0 <= k < 5 ==> u[k + 1] == v[..5][k];
        if SameText(u, " close") {
          forall k | 0 <= k < 5
            ensures SameLetter(v[..5][k], "close"[k])
          {
            assert SameLetter(u[k + 1], " close"[k + 1]);
          }
        }
      } else {
        assert u[|v| + 1] == '\r';
      }
    }
  }

  lemma StatusRead(r: Reply, more: string)
    ensures var text := StatusLine(r) + more;
            Find(text, " ") == Some(8) && Atoi(text[9..]) == r.status
  {
    hide Find, Atoi, Decimal;
    var text := StatusLine(r) + more;
    assert text[..9] == "HTTP/1.1 ";
    forall i: nat | i < 8
      ensures !At(text, " ", i)
    {
      assert text[i] == text[..9][i];
      assert text[i..i + 1][0] == text[i];
    }
    assert text[8..9][0] == text[..9][8];
    assert At(text, " ", 8);
    var rest := " " + r.reason + CRLF + more;
    assert text[9..] == "" + ("" + (Decimal(r.status) + rest));
    AtoiReads("", "", r.status, rest);
  }

  // ---- the whole reply ----

  lemma StatusOfWritten(r: Reply)
    requires Proper(r)
    ensures StatusOf(Written(r)) == Some(r.status)
  {
    hide Find, UpToNul, Atoi, StatusLine, Proper;
    WrittenHeader(r);
    var text := UpToNul(Written(r));
    var more := text[|StatusLine(r)|..];
    assert StatusLine(r) <= HeaderText(r) <= text;
    assert text == StatusLine(r) + more;
    StatusRead(r, more);
  }

  lemma WrittenIsClean(r: Reply)
    requires Proper(r) && |Written(r)| < BUFFER
    ensures Clean(Written(r)) && HasLength(Written(r))
    ensures SaysClose(HeaderOf(Written(r))) <==> AsksToClose(r)
  {
    hide Find, CiFind, UpToNul, HeaderOf, HasHeader, Proper, SaysClose, Atoi, StatusLine;
    var reply, h := Written(r), HeaderText(r);
    WrittenHeader(r);
    LengthRead(r);
    CloseRead(r);
    HeaderFound(r);
    LengthBegins(r);
    var text := UpToNul(reply);
    assert h <= text && text == h + text[|h|..];
    CloseInHeader(h, text[|h|..]);
  }

  lemma LengthBegins(r: Reply)
    requires Proper(r)
    ensures var rest := HeaderText(r)[|StatusLine(r)| + 15..]; LeadingSpaces(rest) < |rest|
  {
    hide StatusLine, ConnLine, Decimal;
    NameLength(r);
    var number := Decimal(|r.body|) + (CRLF + (ConnLine(r) + CRLF));
    assert HeaderText(r)[|StatusLine(r)| + 15..] == " " + number;
    SpacesLead(" ", number);
  }

  /** However the network cuts up a written reply, the client reads all of it and
      no further, takes its status, and keeps the connection if and only if the
      reply does not ask to close it. */
  lemma ReplyRead(r: Reply, parts: seq<string>)
    requires Proper(r) && |Written(r)| < BUFFER && Divides(parts, Written(r))
    ensures var end := TakeAll(Datas(parts));
            && end.done && end.complete && end.got == Written(r)
            && StatusOf(end.got) == Some(r.status)
            && (Reusable(end) <==> !AsksToClose(r))
  {
    hide Written, Clean, HeaderOf, HasHeader, HasLength, SaysClose, StatusOf, AsksToClose, Divides, Proper;
    WrittenIsClean(r);
    StatusOfWritten(r);
    DoneAtLength(parts, Written(r));
  }

  // ---- success ----

  lemma OneDigitMore(n: nat)
    requires n >= 10
    ensures |Decimal(n)| == |Decimal(n / 10)| + 1 && Decimal(n)[0] == Decimal(n / 10)[0]
  {
    hide DigitChar;
  }

  /** Three digits, the first of them 2: the hundreds are 2. */
  lemma TwoHundreds(n: nat)
    ensures |Decimal(n)| == 3 && Decimal(n)[0] == '2' <==> 200 <= n < 300
  {
    hide Decimal;
    if n >= 10 {
      OneDigitMore(n);
      if n >= 100 {
        OneDigitMore(n / 10);
        if n >= 1000 {
          OneDigitMore(n / 100);
        } else {
          OneDigit(n / 100);
        }
      } else {
        OneDigit(n / 10);
      }
    } else {
      OneDigit(n);
    }
  }

  lemma OneDigit(n: nat)
    requires n < 10
    ensures Decimal(n) == [DigitChar(n)] && (DigitChar(n) == '2' <==> n == 2)
  {
  }
}
