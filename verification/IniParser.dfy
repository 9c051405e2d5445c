/** The streaming INI reader: a string stream, fixed buffers cut in place, and
    the loop over physical lines. */
module IniParser {
  import opened CLib
  import opened IniSpec
  import opened CText

  const ABYSS_SIZE: nat := 16

  /** ini_parse_string_ctx with ini_reader_string. */
  class StringStream {
    const text: string
    var ptr: nat
    var numLeft: nat

    ghost predicate Valid()
      reads this
    {
      ptr + numLeft == |text|
    }

    ghost function Rest(): string
      reads this
      requires Valid()
    {
      text[ptr..]
    }

    constructor (text: string)
      ensures Valid() && Rest() == text && this.text == text
    {
      this.text := text;
      ptr, numLeft := 0, |text|;
    }

    /** Copies at most num - 1 characters, not past a newline, and terminates. */
    method Read(str: array<char>, num: nat) returns (ok: bool, ghost n: nat)
      requires Valid() && num <= str.Length
      modifies this`ptr, this`numLeft, str
      ensures Valid()
      ensures ok == (old(Rest()) != "" && num >= 2)
      ensures !ok ==> Rest() == old(Rest()) && str[..] == old(str[..])
      ensures ok ==> n == Min(LineLen(old(Rest())), num - 1)
      ensures ok ==> Rest() == old(Rest())[n..] && Loaded(str, old(Rest()), n)
    {
      if numLeft == 0 || num < 2 {
        return false, 0;
      }
      ghost var rest := Rest();
      var p, left, budget, k := ptr, numLeft, num, 0;
      var done := false;
      while budget > 1 && left != 0 && !done
        invariant ptr == old(ptr) && numLeft == old(numLeft)
        invariant k <= |rest| && k < num
        invariant if done then k > 0 && rest[k - 1] == '\n' else k + budget == num
        invariant p == ptr + k && left == |rest| - k
        invariant budget >= 1
        invariant forall i :: 0 <= i < k ==> str[i] == rest[i]
        invariant forall i :: 0 <= i < k - 1 ==> rest[i] != '\n'
        invariant !done && k > 0 ==> rest[k - 1] != '\n'
        decreases left
      {
        var c := text[p];
        p, left := p + 1, left - 1;
        str[k] := c;
        k := k + 1;
        if c == '\n' {
          done := true;
        } else {
          budget := budget - 1;
        }
      }
      ReadLength(rest, k, num - 1, done);
      str[k] := '\0';
      ptr, numLeft := p, left;
      return true, k;
    }

    /** Reads one piece into the abyss; `ended` when it ends the physical line. */
    method DiscardPiece(abyss: array<char>) returns (got: bool, ended: bool)
      requires Valid() && NulFree(Rest()) && abyss.Length == ABYSS_SIZE
      modifies this`ptr, this`numLeft, abyss
      ensures Valid() && NulFree(Rest())
      ensures got == (old(Rest()) != "") && (ended ==> got)
      ensures if got then |Rest()| < |old(Rest())| else Rest() == old(Rest())
      ensures got ==> if ended then Rest() == AfterLine(old(Rest())) else AfterLine(Rest()) == AfterLine(old(Rest()))
    {
      hide LineLen, StringAt, AfterLine;
      ghost var left := Rest();
      ghost var n;
      got, n := Read(abyss, ABYSS_SIZE);
      ended := false;
      if got {
        AfterPiece(left, n);
        LoadedIsString(abyss, left, n);
        var len := Length(abyss, 0, left[..n]);
        ended := len > 0 && abyss[len - 1] == '\n';
      }
    }

    /** ini.c:170-176: reads up to the end of the physical line into the abyss
        and tells whether there was anything to read. */
    method DiscardLine() returns (tail: bool)
      requires Valid() && NulFree(Rest())
      modifies this`ptr, this`numLeft
      ensures Valid() && Rest() == AfterLine(old(Rest()))
      ensures tail == (old(Rest()) != "")
    {
      hide LineLen, AfterLine;
      AfterNothing();
      var abyss := new char[ABYSS_SIZE];
      var done := false;
      tail := false;
      while !done
        invariant Valid() && NulFree(Rest()) && fresh(abyss)
        invariant if done then Rest() == AfterLine(old(Rest())) else AfterLine(Rest()) == AfterLine(old(Rest()))
        invariant if tail then old(Rest()) != "" else Rest() == old(Rest())
        invariant done && !tail ==> Rest() == ""
        decreases |Rest()|, !done
      {
        var got, ended := DiscardPiece(abyss);
        tail, done := tail || got, !got || ended;
      }
    }
  }

  /** The buffer holds the first k characters of the text, terminated. */
  ghost predicate Loaded(str: array<char>, text: string, k: nat)
    reads str
  {
    && k <= |text| && k < str.Length
    && (forall i :: 0 <= i < k ==> str[i] == text[i])
    && str[k] == '\0'
  }

  lemma LoadedIsString(str: array<char>, text: string, k: nat)
    requires Loaded(str, text, k) && NulFree(text)
    ensures StringAt(str[..], 0, text[..k])
  {
    assert str[..][0..k] == text[..k];
  }

  lemma ReadLength(rest: string, k: nat, limit: nat, newline: bool)
    requires k <= |rest| && k <= limit
    requires forall i :: 0 <= i < k - 1 ==> rest[i] != '\n'
    requires if newline then k > 0 && rest[k - 1] == '\n' else k > 0 ==> rest[k - 1] != '\n'
    requires newline || k == limit || k == |rest|
    ensures k == Min(LineLen(rest), limit)
  {
    LineLenSkip(rest, if newline then k - 1 else k);
  }

  lemma ApplyNothing(st: State, h: Handler)
    ensures Apply(st, Nothing, h) == st
  {
  }

  /** The locals of ini_parse_stream.  The calls made so far stand for the
      handler's own state. */
  class Parser {
    const line: array<char>
    const section: array<char>
    const prevName: array<char>
    const handler: Handler
    var lineno: nat
    var error: nat
    var calls: seq<Call>

    /** The abstract state and the strings behind the two name buffers. */
    ghost predicate Holds(st: State)
      reads this, section, prevName
    {
      && Buffers(st.section, st.prevName)
      && lineno == st.lineno && error == st.error && calls == st.calls
    }

    ghost predicate Buffers(sec: string, prev: string)
      reads section, prevName
    {
      && line.Length == MAX_LINE && section.Length == MAX_SECTION && prevName.Length == MAX_NAME
      && line != section && line != prevName && section != prevName
      && StringAt(section[..], 0, sec)
      && StringAt(prevName[..], 0, prev)
    }

    constructor (handler: Handler)
      ensures Holds(INITIAL) && fresh(line) && fresh(section) && fresh(prevName)
      ensures this.handler == handler
    {
      line := new char[MAX_LINE];
      section := new char[MAX_SECTION](i => '\0');
      prevName := new char[MAX_NAME](i => '\0');
      this.handler := handler;
      lineno, error, calls := 0, 0, [];
    }

    lemma Distinct(st: State)
      requires Holds(st)
      ensures line.Length == MAX_LINE && line != section && line != prevName
    {
    }

    /** The HANDLER macro with the error check around it. */
    method Handle(name: string, value: string, ghost st: State)
      requires Holds(st)
      modifies this`error, this`calls
      ensures Holds(CallHandler(st, name, value, handler))
    {
      var sec := Text(section, 0, st.section);
      calls := calls + [Call(sec, name, value)];
      if !handler(calls) && error == 0 {
        error := lineno;
      }
    }

    /** ini.c:189-257, for a line whose text begins at `start`. */
    method Interpret(start: nat, indented: bool, ghost t: string, ghost st: State)
      requires Holds(st)
      requires StringAt(line[..], start, t)
      modifies this`error, this`calls, line, section, prevName
      ensures Holds(Apply(st, IniSpec.Interpret(t, indented, st.prevName), handler))
    {
      hide StringAt, Apply;
      FirstChar(prevName[..], 0, st.prevName);
      FirstChar(line[..], start, t);
      ApplyNothing(st, handler);
      var c := line[start];
      if c == '\0' || c in ";#" {
        // blank, or a comment
      } else if prevName[0] != '\0' && indented {
        ContinuationLine(start, t, st);
      } else if c == '[' {
        SectionLine(start, t, st);
      } else {
        PairLine(start, t, st);
      }
    }

    /** ini.c:193-203: a further line of the previous name's value. */
    method ContinuationLine(start: nat, ghost t: string, ghost st: State)
      requires Holds(st)
      requires StringAt(line[..], start, t)
      modifies this`error, this`calls, line
      ensures Holds(Apply(st, Continuation(RTrim(UpToComment(t))), handler))
    {
      var end := FindCharsOrComment(line, start, "", t);
      Terminate(line, start, end, t);
      RStrip(line, start, end, UpToComment(t));
      var name := Text(prevName, 0, st.prevName);
      var value := Text(line, start, RTrim(UpToComment(t)));
      Handle(name, value, st);
    }

    /** ini.c:205-223: a section header, or one that lacks its bracket. */
    method SectionLine(start: nat, ghost t: string, ghost st: State)
      requires Holds(st)
      requires StringAt(line[..], start, t) && t != ""
      modifies this`error, line, section, prevName
      ensures var k := Find(t[1..], "]");
              Holds(Apply(st, if k < |t[1..]| && t[1..][k] == ']' then Section(t[1..][..k]) else Malformed, handler))
    {
      Suffix(line[..], start, t, 1);
      var end := FindCharsOrComment(line, start + 1, "]", t[1..]);
      if line[end] == ']' {
        Terminate(line, start + 1, end, t[1..]);
        CopyText(section, line, start + 1, t[1..][..end - start - 1]);
        prevName[0] := '\0';
      } else if error == 0 {
        error := lineno;
      }
    }

    /** ini.c:228-244: a pair whose delimiter stands at `end`. */
    method TakePair(start: nat, end: nat, ghost t: string, ghost st: State)
      requires Holds(st)
      requires StringAt(line[..], start, t)
      requires start <= end < start + |t|
      modifies this`error, this`calls, line, prevName
      ensures var k := end - start;
              Holds(Apply(st, Pair(RTrim(t[..k]), RTrim(LTrim(UpToComment(t[k + 1..])))), handler))
    {
      hide RTrim, LTrim, UpToComment, Truncate;
      ghost var name, value := RTrim(t[..end - start]), RTrim(LTrim(UpToComment(t[end - start + 1..])));
      var valueAt := SplitPair(start, end, t);
      CopyText(prevName, line, start, name);
      var nameText := Text(line, start, name);
      var valueText := Text(line, valueAt, value);
      Handle(nameText, valueText, st.(prevName := Truncate(name, MAX_NAME)));
    }

    /** ini.c:224-257: a pair, or a line without a delimiter. */
    method PairLine(start: nat, ghost t: string, ghost st: State)
      requires Holds(st)
      requires StringAt(line[..], start, t)
      modifies this`error, this`calls, line, prevName
      ensures var k := Find(t, "=:");
              Holds(Apply(st,
                          if k < |t| && t[k] in "=:"
                          then Pair(RTrim(t[..k]), RTrim(LTrim(UpToComment(t[k + 1..]))))
                          else Malformed,
                          handler))
    {
      hide RTrim, LTrim, UpToComment, Find, Truncate;
      var end := FindCharsOrComment(line, start, "=:", t);
      if line[end] == '=' || line[end] == ':' {
        TakePair(start, end, t, st);
      } else if error == 0 {
        error := lineno;
      }
    }

    /** Cuts name and value out of the line in place; the name stays at `start`. */
    method SplitPair(start: nat, end: nat, ghost t: string) returns (value: nat)
      requires StringAt(line[..], start, t)
      requires start <= end < start + |t|
      modifies line
      ensures StringAt(line[..], start, RTrim(t[..end - start]))
      ensures StringAt(line[..], value, RTrim(LTrim(UpToComment(t[end - start + 1..]))))
    {
      hide RTrim, LTrim, UpToComment, StringAt;
      ghost var k := end - start;
      CutName(start, end, t);
      ghost var before := line[..];
      InBounds(before, start, RTrim(t[..k]));
      value := CutValue(end + 1, t[k + 1..]);
      Kept(before, line[..], start, RTrim(t[..k]));
    }

    /** Ends the name at the delimiter and drops the white space before it; what
        follows the delimiter is left alone. */
    method CutName(start: nat, end: nat, ghost t: string)
      requires StringAt(line[..], start, t)
      requires start <= end < start + |t|
      modifies line
      ensures StringAt(line[..], start, RTrim(t[..end - start]))
      ensures StringAt(line[..], end + 1, t[end - start + 1..])
    {
      hide RTrim, StringAt;
      ghost var k := end - start;
      Suffix(line[..], start, t, k + 1);
      ghost var before := line[..];
      InBounds(before, end + 1, t[k + 1..]);
      Terminate(line, start, end, t);
      RStrip(line, start, end, t[..k]);
      Kept(before, line[..], end + 1, t[k + 1..]);
    }

    /** Drops an inline comment and the white space on either side. */
    method CutValue(at: nat, ghost v: string) returns (value: nat)
      requires StringAt(line[..], at, v)
      modifies line
      ensures StringAt(line[..], value, RTrim(LTrim(UpToComment(v))))
      ensures forall i :: 0 <= i < line.Length && i < at ==> line[i] == old(line[i])
    {
      hide RTrim, StringAt;
      var end := FindCharsOrComment(line, at, "", v);
      Terminate(line, at, end, v);
      value := LSkip(line, at, UpToComment(v));
      RStrip(line, value, end, LTrim(UpToComment(v)));
    }

    /** ini.c:181-186: the first line may begin with a byte order mark. */
    method SkipBom(ghost cut: string, ghost st: State) returns (start: nat)
      requires Holds(st)
      requires StringAt(line[..], 0, cut)
      ensures start == (if st.lineno == 1 && HasBom(cut) then 3 else 0) && start <= |cut|
    {
      start := 0;
      assert forall i :: 0 <= i < |cut| ==> line[i] == line[..][0..|cut|][i] == cut[i];
      if lineno == 1 && line[0] == '\U{EF}' && line[1] == '\U{BB}' && line[2] == '\U{BF}' {
        start := 3;
      }
    }

    /** ini.c:179-257: the buffer holds one (cut) physical line. */
    method ParseLine(offset: nat, ghost cut: string, ghost st: State)
      requires Holds(st)
      requires StringAt(line[..], 0, cut) && offset == |cut|
      modifies this`error, this`calls, line, section, prevName
      ensures Holds(Apply(st, Classify(cut, st.lineno, st.prevName), handler))
    {
      hide Apply, IniSpec.Interpret, RTrim, StringAt;
      var start := SkipBom(cut, st);
      Suffix(line[..], 0, cut, start);
      ghost var indent := Indent(cut, st.lineno);
      start := LSkip(line, start, cut[start..]);
      Suffix(line[..], 0, cut, indent);
      RStrip(line, start, offset, cut[indent..]);
      Interpret(start, start > 0, RTrim(cut[indent..]), st);
    }

    /** ini.c:145-177: a physical line goes from the stream into the buffer,
        its tail into the abyss. */
    method FetchLine(stream: StringStream, ghost st: State) returns (more: bool, offset: nat)
      requires Holds(st)
      requires stream.Valid()
      requires NulFree(stream.Rest())
      modifies this`lineno, this`error, line, stream`ptr, stream`numLeft
      ensures stream.Valid()
      ensures more == (old(stream.Rest()) != "")
      ensures stream.Rest() == AfterLine(old(stream.Rest()))
      ensures !more ==> Holds(st)
      ensures more ==> Holds(Begin(st, FirstLine(old(stream.Rest()))))
      ensures more ==> StringAt(line[..], 0, Cut(FirstLine(old(stream.Rest()))))
      ensures more ==> offset == |Cut(FirstLine(old(stream.Rest())))|
    {
      hide LineLen, Buffers, StringAt, AfterLine, FirstLine, Cut, Overlong;
      AfterNothing();
      Distinct(st);
      ghost var rest := stream.Rest();
      ghost var n;
      more, n := stream.Read(line, MAX_LINE);
      offset := 0;
      if !more {
        return;
      }
      LoadedIsString(line, rest, n);
      offset := Length(line, 0, rest[..n]);
      lineno := lineno + 1;
      FirstPiece(rest, n);
      if offset == MAX_LINE - 1 && line[offset - 1] != '\n' {
        var tail := stream.DiscardLine();
        if tail && error == 0 {
          error := lineno;
        }
      }
      LoadedIsString(line, rest, n);
    }

    /** One turn of the loop at ini.c:145. */
    method NextLine(stream: StringStream, ghost st: State) returns (more: bool)
      requires Holds(st)
      requires stream.Valid()
      requires NulFree(stream.Rest())
      modifies this, line, section, prevName, stream`ptr, stream`numLeft
      ensures stream.Valid()
      ensures more == (old(stream.Rest()) != "")
      ensures stream.Rest() == AfterLine(old(stream.Rest()))
      ensures !more ==> Holds(st)
      ensures more ==> Holds(Step(st, FirstLine(old(stream.Rest())), handler))
    {
      hide Apply, Classify, LineLen, Buffers;
      ghost var cut := Cut(FirstLine(stream.Rest()));
      ghost var begun := Begin(st, FirstLine(stream.Rest()));
      var offset;
      more, offset := FetchLine(stream, st);
      if more {
        ParseLine(offset, cut, begun);
      }
    }

    /** ini_parse_stream over a string stream. */
    method ParseStream(stream: StringStream) returns (result: nat)
      requires Holds(INITIAL)
      requires stream.Valid()
      requires NulFree(stream.Rest())
      modifies this, line, section, prevName, stream`ptr, stream`numLeft
      ensures result == Parse(INITIAL, old(stream.Rest()), handler).error
      ensures calls == Parse(INITIAL, old(stream.Rest()), handler).calls
      ensures stream.Valid() && stream.Rest() == ""
    {
      hide Step, Apply;
      ghost var st := INITIAL;
      while true
        invariant Holds(st)
        invariant stream.Valid()
        invariant NulFree(stream.Rest())
        invariant Parse(st, stream.Rest(), handler) == Parse(INITIAL, old(stream.Rest()), handler)
        decreases |stream.Rest()|
      {
        ghost var rest := stream.Rest();
        var more := NextLine(stream, st);
        if !more {
          break;
        }
        st := Step(st, FirstLine(rest), handler);
      }
      result := error;
    }
  }

  lemma AfterNothing()
    ensures AfterLine("") == ""
  {
  }

  /** The piece that fits the line buffer, and when there is a tail to discard. */
  lemma FirstPiece(text: string, n: nat)
    requires text != ""
    requires n == Min(LineLen(text), MAX_LINE - 1)
    ensures 0 < n && text[..n] == Cut(FirstLine(text))
    ensures if n == MAX_LINE - 1 && text[n - 1] != '\n'
            then AfterLine(text[n..]) == AfterLine(text) && (text[n..] != "" <==> Overlong(FirstLine(text)))
            else text[n..] == AfterLine(text) && !Overlong(FirstLine(text))
  {
    hide LineLen;
    if text[n - 1] == '\n' {
      assert n == LineLen(text);
    } else {
      assert forall i :: 0 <= i < n ==> text[..n][i] == text[i];
      LineLenSkip(text, n);
      assert text[n..][LineLen(text[n..])..] == text[LineLen(text)..];
    }
  }

  function FirstLine(text: string): string {
    text[..LineLen(text)]
  }

  function AfterLine(text: string): string {
    text[LineLen(text)..]
  }

  /** One piece of a line either ends it or leaves the end where it was. */
  lemma AfterPiece(text: string, n: nat)
    requires 0 < n <= LineLen(text)
    ensures if text[n - 1] == '\n' then text[n..] == AfterLine(text)
            else AfterLine(text[n..]) == AfterLine(text)
  {
    hide LineLen;
    if text[n - 1] == '\n' {
      assert n == LineLen(text);
    } else {
      assert forall i :: 0 <= i < n ==> text[..n][i] == text[i];
      LineLenSkip(text, n);
      assert text[n..][LineLen(text[n..])..] == text[LineLen(text)..];
    }
  }

  /** ini_parse_string. */
  method ParseString(text: string, handler: Handler) returns (result: nat, calls: seq<Call>)
    requires NulFree(text)
    ensures result == Parse(INITIAL, text, handler).error
    ensures calls == Parse(INITIAL, text, handler).calls
  {
    hide Parse;
    var stream := new StringStream(text);
    var parser := new Parser(handler);
    result := parser.ParseStream(stream);
    calls := parser.calls;
  }
}
