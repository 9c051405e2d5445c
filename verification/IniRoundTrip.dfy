/** Writing a configuration and reading it back. */
module IniRoundTrip {
  import opened CLib
  import opened IniSpec
  import opened IniParser

  /** How an entry is set out: white space on either side of the separator, and
      a trailing comment with the white space before it. */
  datatype Layout = Layout(before: string, separator: char, after: string, note: string)

  datatype Item =
    | Header(name: string, tail: string)                        // what follows the bracket is ignored
    | Entry(name: string, value: string, layout: Layout)
    | More(indent: string, value: string, note: string)         // a further line of the value before it
    | Remark(indent: string, text: string)                      // a blank line or a comment line
    | Broken(bracket: bool, text: string, note: string)         // no delimiter, or no closing bracket

  function Body(item: Item): string {
    match item
    case Header(n, tail) => "[" + n + "]" + tail
    case Entry(n, v, l) => n + l.before + [l.separator] + l.after + v + l.note
    case More(indent, v, note) => indent + (v + note)
    case Remark(indent, text) => indent + text
    case Broken(bracket, text, note) => (if bracket then "[" else "") + text + note
  }

  function Render(items: seq<Item>): string {
    if items == [] then "" else Body(items[0]) + "\n" + Render(items[1..])
  }

  function SectionAfter(item: Item, section: string): string {
    if item.Header? then Truncate(item.name, MAX_SECTION) else section
  }

  function NameAfter(item: Item, name: string): string {
    match item
    case Header(_, _) => ""
    case Entry(n, _, _) => n
    case _ => name
  }

  function CallOf(item: Item, section: string, name: string): seq<Call> {
    match item
    case Header(_, _) => []
    case Entry(n, v, _) => [Call(section, n, v)]
    case More(_, v, _) => [Call(section, Truncate(name, MAX_NAME), v)]
    case _ => []
  }

  /** The calls that a document stands for. */
  function Calls(items: seq<Item>, section: string, name: string): seq<Call> {
    if items == [] then []
    else
      CallOf(items[0], section, name)
      + Calls(items[1..], SectionAfter(items[0], section), NameAfter(items[0], name))
  }

  /** The item is at fault: its line cannot be read, or its call is refused. */
  predicate Faults(item: Item, section: string, name: string, calls: seq<Call>, h: Handler) {
    item.Broken? || (CallOf(item, section, name) != [] && !h(calls + CallOf(item, section, name)))
  }

  /** The number of the first line at fault, 0 if there is none, after `lineno`
      lines and these calls. */
  function FirstFault(items: seq<Item>, section: string, name: string, calls: seq<Call>, lineno: nat,
                      h: Handler): nat
  {
    if items == [] then 0
    else if Faults(items[0], section, name, calls, h) then lineno + 1
    else
      FirstFault(items[1..], SectionAfter(items[0], section), NameAfter(items[0], name),
                 calls + CallOf(items[0], section, name), lineno + 1, h)
  }

  // ---- which documents can be written ----

  /** Fits on a line of a C text. */
  predicate OneLine(s: string) {
    forall i :: 0 <= i < |s| ==> s[i] != '\0' && s[i] != '\n'
  }

  /** The white space of C: a blank, tabs, line ends and a form feed. */
  predicate White(c: char) {
    c == ' ' || c == '\t' || c == '\n' || c == '\U{0B}' || c == '\U{0C}' || c == '\r'
  }

  /** On one line, with nothing that reads as an inline comment: no semicolon
      stands behind white space. */
  predicate Plain(s: string) {
    OneLine(s) && forall i :: 0 < i < |s| && White(s[i - 1]) ==> s[i] != ';'
  }

  predicate Blank(s: string) {
    forall i :: 0 <= i < |s| ==> White(s[i]) && s[i] != '\n'
  }

  predicate Trimmed(s: string) {
    s != "" ==> !White(s[0]) && !White(s[|s| - 1])
  }

  predicate Avoids(s: string, chars: string) {
    forall i :: 0 <= i < |s| ==> s[i] !in chars
  }

  /** `name` is the name that a More item would continue. */
  predicate WritableItem(item: Item, name: string) {
    && |Body(item)| <= MAX_LINE - 2
    && match item
       case Header(n, tail) =>
         Plain(n) && Avoids(n, "]") && OneLine(tail) && (tail != "" ==> !White(tail[|tail| - 1]))
       case Entry(n, v, l) =>
         && Plain(n) && Trimmed(n) && Avoids(n, "=:") && (n != "" ==> n[0] !in ";#[")
         && Plain(v) && Trimmed(v)
         && WritableLayout(l, n, v)
       case More(indent, v, note) =>
         && indent != "" && Blank(indent)
         && Plain(v) && Trimmed(v) && v != "" && v[0] !in ";#" && WritableNote(note) && name != ""
       case Remark(indent, text) =>
         Blank(indent) && OneLine(text) && (text != "" ==> text[0] in ";#")
       case Broken(bracket, text, note) =>
         && Plain(text) && Trimmed(text) && WritableNote(note)
         && if bracket then Avoids(text, "]") else text != "" && text[0] !in ";#[" && Avoids(text, "=:")
  }

  predicate WritableLayout(l: Layout, n: string, v: string) {
    && l.separator in "=:"
    && Blank(l.before) && (n == "" ==> l.before == "")
    && Blank(l.after) && (v == "" && l.note == "" ==> l.after == "")
    && (v != "" && l.after != "" ==> v[0] != ';')
    && WritableNote(l.note)
  }

  /** Nothing, or white space, a semicolon and any text. */
  predicate WritableNote(note: string) {
    note != "" ==>
      && |note| > 1 && OneLine(note) && White(note[0]) && note[1] == ';' && !White(note[|note| - 1])
  }

  predicate Writable(items: seq<Item>, name: string) {
    items == [] || (WritableItem(items[0], name) && Writable(items[1..], NameAfter(items[0], name)))
  }

  /** A byte-order mark would be taken off line 1. */
  predicate NoBom(items: seq<Item>) {
    items != [] ==> !HasBom(Body(items[0]) + "\n")
  }

  // ---- one line ----

  function MeaningOf(item: Item): Meaning {
    match item
    case Header(n, _) => Section(n)
    case Entry(n, v, _) => Pair(n, v)
    case More(_, v, _) => Continuation(v)
    case Remark(_, _) => Nothing
    case Broken(_, _, _) => Malformed
  }

  lemma FindUnique(s: string, chars: string, k: nat)
    requires k <= |s|
    requires forall i :: 0 <= i < k ==> !StopsAt(s, chars, i)
    requires k < |s| ==> StopsAt(s, chars, k)
    ensures Find(s, chars) == k
  {
  }

  /** A delimiter set that a plain prefix avoids is first met after it. */
  lemma FindAfterPlain(s: string, n: string, chars: string)
    requires Plain(n) && Avoids(n, chars)
    requires n < s && s[|n|] in chars
    ensures Find(s, chars) == |n|
  {
    forall i | 0 <= i < |n|
      ensures !StopsAt(s, chars, i)
    {
      assert !StopsAt(n, "", i) && s[i] == n[i];
    }
    FindUnique(s, chars, |n|);
  }

  /** isspace means what it does in C. */
  lemma WhiteIsSpace()
    ensures forall c :: White(c) <==> IsSpace(c)
    ensures !White(';')
  {
  }

  lemma TrimmedIsFixed(s: string)
    requires Trimmed(s)
    ensures RTrim(s) == s && LTrim(s) == s
  {
    hide White, IsSpace;
    WhiteIsSpace();
  }

  lemma RTrimNewline(body: string)
    requires body != "" && !IsSpace(body[|body| - 1])
    ensures RTrim(body + "\n") == body
  {
    assert (body + "\n")[..|body|] == body;
  }

  lemma PlainIsWhole(s: string)
    requires Plain(s)
    ensures UpToComment(s) == s
  {
    FindUnique(s, "", |s|);
  }

  lemma InterpretHeader(n: string, tail: string)
    requires Plain(n) && Avoids(n, "]")
    ensures forall prev :: Interpret("[" + n + "]" + tail, false, prev) == Section(n)
  {
    hide Find;
    var t := "[" + n + "]" + tail;
    assert t[1..] == n + ("]" + tail);
    FindAfterPlain(t[1..], n, "]");
    assert t[1..][..|n|] == n;
  }

  lemma {:induction false} BlankIsSkipped(pad: string, s: string)
    requires Blank(pad) && (s != "" ==> !IsSpace(s[0]))
    ensures LeadingSpaces(pad + s) == |pad| && LTrim(pad + s) == s
  {
    if pad != "" {
      assert (pad + s)[1..] == pad[1..] + s;
      BlankIsSkipped(pad[1..], s);
    }
  }

  lemma {:induction false} BlankIsCut(s: string, pad: string)
    requires (forall i :: 0 <= i < |pad| ==> IsSpace(pad[i])) && (s != "" ==> !IsSpace(s[|s| - 1]))
    ensures RTrim(s + pad) == s
  {
    if pad == "" {
      assert s + pad == s;
    } else {
      assert (s + pad)[..|s + pad| - 1] == s + pad[..|pad| - 1];
      BlankIsCut(s, pad[..|pad| - 1]);
    }
  }

  /** White space, a value and a comment come apart again. */
  lemma ValueInLayout(l: Layout, n: string, v: string)
    requires Plain(v) && Trimmed(v) && WritableLayout(l, n, v)
    ensures RTrim(LTrim(UpToComment(l.after + v + l.note))) == v
  {
    hide LTrim, RTrim, Find, White, IsSpace;
    WhiteIsSpace();
    var s := l.after + v + l.note;
    var k := |l.after| + |v|;
    var gap := if l.note == "" then "" else [l.note[0]];
    forall i | 0 <= i < k + |gap|
      ensures !StopsAt(s, "", i)
    {
      if |l.after| < i < k {
        assert !StopsAt(v, "", i - |l.after|);
      }
    }
    FindUnique(s, "", k + |gap|);
    assert UpToComment(s) == l.after + (v + gap);
    if v == "" {
      OnlyBlank(l.after + gap);
      assert l.after + (v + gap) == l.after + gap;
    } else {
      BlankIsSkipped(l.after, v + gap);
      BlankIsCut(v, gap);
    }
  }

  lemma {:induction false} OnlyBlank(pad: string)
    requires Blank(pad)
    ensures LTrim(pad) == "" && RTrim("") == ""
  {
    BlankIsSkipped(pad, "");
    assert pad + "" == pad;
  }

  lemma NameInLayout(l: Layout, n: string, v: string)
    requires Plain(n) && Trimmed(n) && Avoids(n, "=:") && WritableLayout(l, n, v)
    ensures Plain(n + l.before) && Avoids(n + l.before, "=:") && RTrim(n + l.before) == n
  {
    var s := n + l.before;
    forall i | 0 <= i < |s|
      ensures !StopsAt(s, "", i)
    {
      if i < |n| {
        assert !StopsAt(n, "", i);
      }
    }
    BlankIsCut(n, l.before);
  }

  lemma InterpretEntry(n: string, v: string, l: Layout, prev: string)
    requires WritableItem(Entry(n, v, l), prev)
    ensures Interpret(Body(Entry(n, v, l)), false, prev) == Pair(n, v)
  {
    hide Find, RTrim, LTrim, UpToComment, WritableLayout, Plain;
    var t, u := Body(Entry(n, v, l)), n + l.before;
    LayoutStarts(l, n, v);
    NameInLayout(l, n, v);
    FindAfterPlain(t, u, "=:");
    assert t[..|u|] == u && t[|u| + 1..] == l.after + v + l.note;
    ValueInLayout(l, n, v);
  }

  lemma LayoutStarts(l: Layout, n: string, v: string)
    requires WritableLayout(l, n, v)
    ensures n == "" ==> l.before == ""
    ensures l.separator in "=:"
  {
  }

  /** The line of an entry begins and ends with characters of its own. */
  lemma HeaderEnds(n: string, tail: string)
    requires tail != "" ==> !White(tail[|tail| - 1])
    ensures var t := Body(Header(n, tail)); t != "" && !IsSpace(t[0]) && !IsSpace(t[|t| - 1])
  {
  }

  lemma EntryEnds(l: Layout, n: string, v: string)
    requires Trimmed(n) && Trimmed(v) && WritableLayout(l, n, v)
    ensures var t := Body(Entry(n, v, l));
            t != "" && !IsSpace(t[0]) && !IsSpace(t[|t| - 1])
  {
  }

  /** A comment comes off a text, and the white space before it with it. */
  lemma NoteComesOff(v: string, note: string)
    requires Plain(v) && Trimmed(v) && WritableNote(note)
    ensures RTrim(UpToComment(v + note)) == v
  {
    hide RTrim, Find;
    var s := v + note;
    var gap := if note == "" then "" else [note[0]];
    forall i | 0 <= i < |v| + |gap|
      ensures !StopsAt(s, "", i)
    {
      assert i < |v| ==> !StopsAt(v, "", i);
    }
    FindUnique(s, "", |v| + |gap|);
    assert UpToComment(s) == v + gap;
    BlankIsCut(v, gap);
  }

  lemma InterpretMore(v: string, note: string, prev: string)
    requires Plain(v) && Trimmed(v) && v != "" && v[0] !in ";#" && WritableNote(note) && prev != ""
    ensures Interpret(v + note, true, prev) == Continuation(v)
  {
    NoteComesOff(v, note);
  }

  /** The scan of a broken line ends at its comment or at its end. */
  lemma NothingFound(text: string, note: string, chars: string)
    requires Plain(text) && Avoids(text, chars) && WritableNote(note) && forall c :: c in chars ==> c in "=:]"
    ensures var k := Find(text + note, chars); k < |text + note| ==> (text + note)[k] !in chars
  {
    hide Find;
    var s := text + note;
    var gap := if note == "" then "" else [note[0]];
    forall i | 0 <= i < |text| + |gap|
      ensures !StopsAt(s, chars, i)
    {
      assert i < |text| ==> !StopsAt(text, "", i);
    }
    FindUnique(s, chars, |text| + |gap|);
  }

  lemma InterpretUnclosed(text: string, note: string, prev: string)
    requires Plain(text) && Avoids(text, "]") && WritableNote(note)
    ensures Interpret("[" + text + note, false, prev) == Malformed
  {
    hide Find, Plain, WritableNote, Avoids, RTrim, LTrim;
    NothingFound(text, note, "]");
    var t := "[" + text + note;
    assert t[0] == '[' && t[1..] == text + note;
  }

  lemma InterpretUndelimited(text: string, note: string, prev: string)
    requires Plain(text) && Avoids(text, "=:") && WritableNote(note) && text != "" && text[0] !in ";#["
    ensures Interpret(text + note, false, prev) == Malformed
  {
    hide Find, Plain, WritableNote, Avoids, RTrim, LTrim;
    NothingFound(text, note, "=:");
    assert (text + note)[0] == text[0];
  }

  lemma BrokenEnds(bracket: bool, text: string, note: string)
    requires Trimmed(text) && WritableNote(note) && (bracket || text != "")
    ensures var t := Body(Broken(bracket, text, note));
            t != "" && !IsSpace(t[0]) && !IsSpace(t[|t| - 1])
  {
  }

  lemma FlushLeft(body: string, lineno: nat)
    requires body != "" && !IsSpace(body[0]) && !IsSpace(body[|body| - 1])
    requires lineno == 1 ==> !HasBom(body + "\n")
    ensures forall prev :: Classify(body + "\n", lineno, prev) == Interpret(body, false, prev)
  {
    var line := body + "\n";
    assert line[0..] == line;
    RTrimNewline(body);
  }

  lemma Indented(indent: string, body: string, lineno: nat)
    requires indent != "" && Blank(indent)
    requires body != "" && !IsSpace(body[0]) && !IsSpace(body[|body| - 1])
    requires lineno == 1 ==> !HasBom(indent + body + "\n")
    ensures forall prev :: Classify(indent + body + "\n", lineno, prev) == Interpret(body, true, prev)
  {
    hide LeadingSpaces;
    var line := indent + body + "\n";
    assert line[0..] == line == indent + (body + "\n");
    BlankIsSkipped(indent, body + "\n");
    assert line[|indent|..] == body + "\n";
    RTrimNewline(body);
  }

  lemma ClassifyMore(indent: string, v: string, note: string, lineno: nat, prev: string)
    requires WritableItem(More(indent, v, note), prev)
    requires lineno == 1 ==> !HasBom(indent + (v + note) + "\n")
    ensures Classify(indent + (v + note) + "\n", lineno, Truncate(prev, MAX_NAME)) == Continuation(v)
  {
    hide Classify, Interpret, Plain, Blank;
    Indented(indent, v + note, lineno);
    InterpretMore(v, note, Truncate(prev, MAX_NAME));
  }

  lemma ClassifyBroken(bracket: bool, text: string, note: string, lineno: nat, prev: string)
    requires WritableItem(Broken(bracket, text, note), prev)
    requires lineno == 1 ==> !HasBom(Body(Broken(bracket, text, note)) + "\n")
    ensures Classify(Body(Broken(bracket, text, note)) + "\n", lineno, Truncate(prev, MAX_NAME)) == Malformed
  {
    hide Classify, Interpret, Plain, Avoids, WritableNote;
    BrokenEnds(bracket, text, note);
    FlushLeft(Body(Broken(bracket, text, note)), lineno);
    if bracket {
      InterpretUnclosed(text, note, Truncate(prev, MAX_NAME));
    } else {
      assert "" + text == text;
      InterpretUndelimited(text, note, Truncate(prev, MAX_NAME));
    }
  }

  lemma ClassifyItem(item: Item, lineno: nat, prev: string)
    requires WritableItem(item, prev)
    requires lineno == 1 ==> !HasBom(Body(item) + "\n")
    ensures Classify(Body(item) + "\n", lineno, Truncate(prev, MAX_NAME)) == MeaningOf(item)
  {
    hide Classify, Interpret, White, Plain, Trimmed, Avoids, OneLine, Blank, StopsAt;
    match item
    case Header(n, tail) =>
      HeaderEnds(n, tail);
      FlushLeft(Body(item), lineno);
      InterpretHeader(n, tail);
    case Entry(n, v, l) =>
      EntryEnds(l, n, v);
      FlushLeft(Body(item), lineno);
      InterpretEntry(n, v, l, Truncate(prev, MAX_NAME));
    case More(indent, v, note) =>
      ClassifyMore(indent, v, note, lineno, prev);
    case Remark(indent, text) =>
      ClassifyRemark(indent, text, lineno);
    case Broken(bracket, text, note) =>
      ClassifyBroken(bracket, text, note, lineno, prev);
  }

  lemma ClassifyRemark(indent: string, text: string, lineno: nat)
    requires WritableItem(Remark(indent, text), "")
    requires lineno == 1 ==> !HasBom(indent + text + "\n")
    ensures forall prev :: Classify(indent + text + "\n", lineno, prev) == Nothing
  {
    hide RTrim, Find, LeadingSpaces;
    var line := indent + text + "\n";
    assert line[0..] == line;
    if text == "" {
      AllSkipped(indent + "\n");
      assert line == indent + "\n" && line[|line|..] == "";
    } else {
      BlankIsSkipped(indent, text + "\n");
      assert line == indent + (text + "\n");
      var u := line[|indent|..];
      assert u == text + "\n";
      assert !IsSpace(u[0]);
      assert RTrim(u)[0] == u[0] == text[0];
    }
  }

  lemma {:induction false} AllSkipped(s: string)
    requires forall i :: 0 <= i < |s| ==> IsSpace(s[i])
    ensures LeadingSpaces(s) == |s| && RTrim("") == ""
  {
    if s != "" {
      AllSkipped(s[1..]);
    }
  }

  lemma OneLineConcat(s: string, t: string)
    requires OneLine(s) && OneLine(t)
    ensures OneLine(s + t)
  {
  }

  lemma PartsOneLine(s: string, note: string)
    ensures Blank(s) || Plain(s) ==> OneLine(s)
    ensures WritableNote(note) ==> OneLine(note)
  {
  }

  lemma BodyOneLine(item: Item, name: string)
    requires WritableItem(item, name)
    ensures OneLine(Body(item))
  {
    hide OneLine, Plain, Blank, WritableNote, Avoids, Trimmed;
    Brackets();
    match item
    case Header(n, tail) =>
      PartsOneLine(n, "");
      OneLineConcat("[", n);
      OneLineConcat("[" + n, "]");
      OneLineConcat("[" + n + "]", tail);
    case Entry(n, v, l) =>
      PartsOneLine(n, l.note);
      PartsOneLine(v, "");
      PartsOneLine(l.before, "");
      PartsOneLine(l.after, "");
      Separator(l.separator);
      OneLineConcat(n, l.before);
      OneLineConcat(n + l.before, [l.separator]);
      OneLineConcat(n + l.before + [l.separator], l.after);
      OneLineConcat(n + l.before + [l.separator] + l.after, v);
      OneLineConcat(n + l.before + [l.separator] + l.after + v, l.note);
    case More(indent, v, note) =>
      PartsOneLine(indent, note);
      PartsOneLine(v, "");
      OneLineConcat(v, note);
      OneLineConcat(indent, v + note);
    case Remark(indent, text) =>
      PartsOneLine(indent, "");
      OneLineConcat(indent, text);
    case Broken(bracket, text, note) =>
      PartsOneLine(text, note);
      OneLineConcat(if bracket then "[" else "", text);
      OneLineConcat((if bracket then "[" else "") + text, note);
  }

  lemma Brackets()
    ensures OneLine("") && OneLine("[") && OneLine("]")
  {
  }

  lemma Separator(c: char)
    ensures c in "=:" ==> OneLine([c])
  {
  }

  lemma LineOf(item: Item, name: string, rest: string)
    requires WritableItem(item, name)
    ensures var line := Body(item) + "\n";
            && LineLen(line + rest) == |line|
            && Cut(line) == line && !Overlong(line)
            && NulFree(line)
  {
    BodyOneLine(item, name);
    var body := Body(item);
    var text := body + "\n" + rest;
    assert forall i :: 0 <= i < |body| ==> body[i] != '\n' && body[i] != '\0';
    assert text[..|body|] == body;
    LineLenSkip(text, |body|);
    assert text[|body|..][0] == '\n';
  }

  // ---- whole documents ----

  /** The handler accepts every call after the first `from`. */
  predicate Accepts(h: Handler, calls: seq<Call>, from: nat) {
    forall k :: from < k <= |calls| ==> h(calls[..k])
  }

  lemma AcceptsNone(h: Handler, calls: seq<Call>)
    ensures Accepts(h, calls, |calls|)
  {
  }

  lemma AcceptsSplit(h: Handler, before: seq<Call>, more: seq<Call>, from: nat)
    requires from <= |before|
    ensures Accepts(h, before + more, from)
       <==> Accepts(h, before, from) && Accepts(h, before + more, |before|)
  {
    assert forall k :: 0 <= k <= |before| ==> (before + more)[..k] == before[..k];
  }

  lemma ApplyItem(item: Item, st: State, name: string, h: Handler)
    requires WritableItem(item, name) && st.prevName == Truncate(name, MAX_NAME) && st.lineno > 0
    ensures var next := Apply(st, MeaningOf(item), h);
            && next.lineno == st.lineno
            && next.section == SectionAfter(item, st.section)
            && next.prevName == Truncate(NameAfter(item, name), MAX_NAME)
            && next.calls == st.calls + CallOf(item, st.section, name)
            && next.error == (if st.error != 0 then st.error
                              else if Faults(item, st.section, name, st.calls, h) then st.lineno else 0)
            && (next.error == 0 <==> st.error == 0 && !item.Broken? && Accepts(h, next.calls, |st.calls|))
  {
    var next := Apply(st, MeaningOf(item), h);
    assert next.calls[..|next.calls|] == next.calls;
  }

  /** One item read back: the calls and the name it leaves behind. */
  lemma StepItem(item: Item, st: State, name: string, h: Handler)
    requires WritableItem(item, name) && st.prevName == Truncate(name, MAX_NAME)
    requires st.lineno == 0 ==> !HasBom(Body(item) + "\n")
    ensures Step(st, Body(item) + "\n", h) == Apply(st.(lineno := st.lineno + 1), MeaningOf(item), h)
  {
    hide Classify, Apply;
    LineOf(item, name, "");
    ClassifyItem(item, st.lineno + 1, name);
  }

  lemma ParseNothing(st: State, h: Handler)
    ensures Parse(st, "", h) == st
  {
  }

  lemma ParseItem(item: Item, rest: string, st: State, name: string, h: Handler)
    requires WritableItem(item, name) && st.prevName == Truncate(name, MAX_NAME)
    requires st.lineno == 0 ==> !HasBom(Body(item) + "\n")
    ensures Parse(st, Body(item) + "\n" + rest, h)
         == Parse(Apply(st.(lineno := st.lineno + 1), MeaningOf(item), h), rest, h)
  {
    hide Step, Apply, LineLen;
    var line := Body(item) + "\n";
    LineOf(item, name, rest);
    assert (line + rest)[..|line|] == line && (line + rest)[|line|..] == rest;
    StepItem(item, st, name, h);
  }

  predicate NoneBroken(items: seq<Item>) {
    forall i :: 0 <= i < |items| ==> !items[i].Broken?
  }

  lemma BrokenFirst(items: seq<Item>)
    ensures NoneBroken(items) <==> items == [] || (!items[0].Broken? && NoneBroken(items[1..]))
  {
  }

  /** Reading a written document makes exactly the calls it stands for, in
      order, whatever the handler answers, and reports the first line that cannot
      be read or whose call was refused, 0 when there is none. */
  lemma {:induction false} ParseRendered(items: seq<Item>, st: State, name: string, h: Handler)
    requires Writable(items, name) && st.prevName == Truncate(name, MAX_NAME)
    requires st.lineno == 0 ==> NoBom(items)
    ensures var end := Parse(st, Render(items), h);
            && end.calls == st.calls + Calls(items, st.section, name)
            && end.error == (if st.error != 0 then st.error
                             else FirstFault(items, st.section, name, st.calls, st.lineno, h))
            && (end.error == 0 <==> st.error == 0 && NoneBroken(items) && Accepts(h, end.calls, |st.calls|))
  {
    hide LineLen, Step, Body, Parse, WritableItem, Accepts, Apply, CallOf, MeaningOf, NameAfter, SectionAfter, Faults;
    hide NoneBroken, Truncate, HasBom;
    BrokenFirst(items);
    if items == [] {
      ParseNothing(st, h);
      AcceptsNone(h, st.calls);
    } else {
      var item, rest := items[0], items[1..];
      var begun := st.(lineno := st.lineno + 1);
      var next := Apply(begun, MeaningOf(item), h);
      ApplyItem(item, begun, name, h);
      ParseItem(item, Render(rest), st, name, h);
      ParseRendered(rest, next, NameAfter(item, name), h);
      AcceptsSplit(h, next.calls, Calls(rest, next.section, NameAfter(item, name)), |st.calls|);
    }
  }

  lemma {:induction false} RenderedNulFree(items: seq<Item>, name: string)
    requires Writable(items, name)
    ensures NulFree(Render(items))
  {
    hide Body, LineLen;
    if items != [] {
      LineOf(items[0], name, "");
      RenderedNulFree(items[1..], NameAfter(items[0], name));
    }
  }

  /** The round trip through the buffered parser itself. */
  method WriteAndRead(items: seq<Item>, h: Handler) returns (result: nat, calls: seq<Call>)
    requires Writable(items, "") && NoBom(items)
    ensures calls == Calls(items, "", "")
    ensures result == FirstFault(items, "", "", [], 0, h)
    ensures result == 0 <==> NoneBroken(items) && Accepts(h, calls, 0)
  {
    RenderedNulFree(items, "");
    ParseRendered(items, INITIAL, "", h);
    result, calls := ParseString(Render(items), h);
  }

  // ---- the byte-order mark ----

  const BOM := "\U{EF}\U{BB}\U{BF}"

  lemma BomIndents(line: string)
    requires !HasBom(line)
    ensures var k := Indent(line, 1);
            Indent(BOM + line, 1) == 3 + k && (BOM + line)[3 + k..] == line[k..]
  {
    hide LeadingSpaces;
    var marked := BOM + line;
    assert marked[..3] == BOM && marked[3..] == line && line[0..] == line;
    assert HasBom(marked);
    assert marked[3 + Indent(line, 1)..] == line[Indent(line, 1)..];
  }

  /** Without a name to continue, it does not matter whether a line is indented. */
  lemma NotContinued(t: string)
    ensures Interpret(t, true, "") == Interpret(t, false, "")
  {
    hide Find, RTrim, UpToComment;
  }

  lemma BomIsSkipped(line: string)
    requires !HasBom(line)
    ensures Classify(BOM + line, 1, "") == Classify(line, 1, "")
  {
    hide RTrim, Indent, Interpret, HasBom;
    BomIndents(line);
    NotContinued(RTrim(line[Indent(line, 1)..]));
  }

  /** A mark before a text that fits with its first line changes nothing. */
  lemma ParseBom(text: string, h: Handler)
    requires text != "" && LineLen(text) + 3 < MAX_LINE && !HasBom(text[..LineLen(text)])
    ensures Parse(INITIAL, BOM + text, h) == Parse(INITIAL, text, h)
  {
    hide LineLen, Classify, Apply;
    var n := LineLen(text);
    var marked := BOM + text;
    assert marked[..3] == BOM && marked[3..] == text;
    LineLenSkip(marked, 3);
    assert marked[..3 + n] == BOM + text[..n] && marked[3 + n..] == text[n..];
    BomIsSkipped(text[..n]);
    assert Step(INITIAL, BOM + text[..n], h) == Step(INITIAL, text[..n], h);
  }
}
