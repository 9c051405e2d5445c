/** What the INI reader promises, as pure functions over text: physical lines,
    what one line means, and the state that a text leads to.  Characters stand
    for bytes; '\0' is C's terminator. */
module IniSpec {
  import opened CLib

  const MAX_LINE: nat := 200
  const MAX_SECTION: nat := 50
  const MAX_NAME: nat := 50

  /** One invocation of the caller's handler. */
  datatype Call = Call(section: string, name: string, value: string)

  /** A handler may remember everything it has been told: it answers on the
      whole list of calls, the newest last. */
  type Handler = seq<Call> -> bool

  datatype State = State(section: string, prevName: string, lineno: nat, error: nat, calls: seq<Call>)

  const INITIAL := State("", "", 0, 0, [])

  // ---- characters and trimming ----

  function LTrim(s: string): string {
    s[LeadingSpaces(s)..]
  }

  function RTrim(s: string): (t: string)
    ensures t <= s
    ensures t != "" ==> !IsSpace(t[|t| - 1])
    ensures forall i :: |t| <= i < |s| ==> IsSpace(s[i])
  {
    if s != "" && IsSpace(s[|s| - 1]) then RTrim(s[..|s| - 1]) else s
  }

  /** The scan for a delimiter stops at k. */
  predicate StopsAt(s: string, chars: string, k: nat)
    requires k < |s|
  {
    s[k] in chars || (k > 0 && IsSpace(s[k - 1]) && s[k] == ';')
  }

  /** First place at or after `from` holding one of `chars` or an inline
      comment; the length of the text when there is none. */
  function Find(s: string, chars: string, from: nat := 0): (k: nat)
    requires from <= |s|
    ensures from <= k <= |s|
    ensures forall i :: from <= i < k ==> !StopsAt(s, chars, i)
    ensures k < |s| ==> StopsAt(s, chars, k)
    decreases |s| - from
  {
    if from == |s| || StopsAt(s, chars, from) then from else Find(s, chars, from + 1)
  }

  function UpToComment(s: string): string {
    s[..Find(s, "")]
  }

  function Truncate(s: string, size: nat): (t: string)
    requires size > 0
    ensures t <= s && |t| == Min(|s|, size - 1)
  {
    if |s| < size then s else s[..size - 1]
  }

  // ---- physical lines ----

  /** Length of the first physical line, its newline included. */
  function LineLen(text: string): (n: nat)
    ensures n <= |text|
    ensures text != "" ==> n > 0
    ensures forall i :: 0 <= i < n - 1 ==> text[i] != '\n'
    ensures 0 < n < |text| ==> text[n - 1] == '\n'
  {
    if text == "" then 0
    else if text[0] == '\n' then 1
    else 1 + LineLen(text[1..])
  }

  function Lines(text: string): seq<string> {
    if text == "" then [] else [text[..LineLen(text)]] + Lines(text[LineLen(text)..])
  }

  /** The part of a physical line that the line buffer holds. */
  function Cut(line: string): string {
    if |line| < MAX_LINE then line else line[..MAX_LINE - 1]
  }

  predicate Overlong(line: string) {
    |line| > MAX_LINE - 1
  }

  // ---- the meaning of one line ----

  datatype Meaning =
    | Nothing
    | Continuation(value: string)
    | Section(name: string)
    | Pair(name: string, value: string)
    | Malformed

  predicate HasBom(line: string) {
    |line| >= 3 && line[0] == '\U{EF}' && line[1] == '\U{BB}' && line[2] == '\U{BF}'
  }

  /** Characters of a line that precede its text: a byte-order mark on line 1,
      then white space. */
  function Indent(line: string, lineno: nat): (k: nat)
    ensures k <= |line|
  {
    var bom := if lineno == 1 && HasBom(line) then 3 else 0;
    bom + LeadingSpaces(line[bom..])
  }

  function Classify(line: string, lineno: nat, prevName: string): Meaning {
    var indent := Indent(line, lineno);
    Interpret(RTrim(line[indent..]), indent > 0, prevName)
  }

  function Interpret(t: string, indented: bool, prevName: string): Meaning {
    if t == "" || t[0] in ";#" then Nothing
    else if prevName != "" && indented then Continuation(RTrim(UpToComment(t)))
    else if t[0] == '[' then
      var k := Find(t[1..], "]");
      if k < |t[1..]| && t[1..][k] == ']' then Section(t[1..][..k]) else Malformed
    else
      var k := Find(t, "=:");
      if k < |t| && t[k] in "=:" then
        Pair(RTrim(t[..k]), RTrim(LTrim(UpToComment(t[k + 1..]))))
      else Malformed
  }

  function Note(error: nat, bad: bool, lineno: nat): nat {
    if bad && error == 0 then lineno else error
  }

  function CallHandler(st: State, name: string, value: string, h: Handler): State {
    var calls := st.calls + [Call(st.section, name, value)];
    st.(calls := calls, error := Note(st.error, !h(calls), st.lineno))
  }

  function Apply(st: State, m: Meaning, h: Handler): State {
    match m
    case Nothing => st
    case Continuation(value) => CallHandler(st, st.prevName, value, h)
    case Section(name) => st.(section := Truncate(name, MAX_SECTION), prevName := "")
    case Pair(name, value) => CallHandler(st.(prevName := Truncate(name, MAX_NAME)), name, value, h)
    case Malformed => st.(error := Note(st.error, true, st.lineno))
  }

  /** A line is counted, and is at fault if it does not fit the buffer. */
  function Begin(st: State, line: string): State {
    st.(lineno := st.lineno + 1, error := Note(st.error, Overlong(line), st.lineno + 1))
  }

  /** One physical line, newline included. */
  function Step(st: State, line: string, h: Handler): State {
    Apply(Begin(st, line), Classify(Cut(line), st.lineno + 1, st.prevName), h)
  }

  function Parse(st: State, text: string, h: Handler): State
    decreases |text|
  {
    if text == "" then st
    else Parse(Step(st, text[..LineLen(text)], h), text[LineLen(text)..], h)
  }

  lemma {:induction false} LineLenSkip(text: string, m: nat)
    requires m <= |text|
    requires '\n' !in text[..m]
    ensures LineLen(text) == m + LineLen(text[m..])
  {
    if m == 0 {
      assert text[0..] == text;
    } else {
      assert text[0] == text[..m][0];
      assert text[1..][..m - 1] == text[..m][1..];
      LineLenSkip(text[1..], m - 1);
      assert text[1..][m - 1..] == text[m..];
    }
  }

  predicate IsPhysicalLine(line: string, last: bool) {
    && line != ""
    && (forall i :: 0 <= i < |line| - 1 ==> line[i] != '\n')
    && (last || line[|line| - 1] == '\n')
  }

  /** Splitting at newlines loses nothing, and each piece is one physical line:
      it is not empty, and a newline stands at its end and nowhere else, or, in
      the last piece only, nowhere. */
  lemma {:induction false} LinesPartition(text: string)
    ensures Concat(Lines(text)) == text
    ensures forall i :: 0 <= i < |Lines(text)| ==> IsPhysicalLine(Lines(text)[i], i == |Lines(text)| - 1)
  {
    if text != "" {
      var line, rest := text[..LineLen(text)], text[LineLen(text)..];
      assert IsPhysicalLine(line, rest == "");
      LinesPartition(rest);
      assert Lines(text) == [line] + Lines(rest);
      forall i | 0 <= i < |Lines(text)|
        ensures IsPhysicalLine(Lines(text)[i], i == |Lines(text)| - 1)
      {
        if i > 0 {
          assert Lines(text)[i] == Lines(rest)[i - 1];
        }
      }
    }
  }

  // ---- errors ----

  /** The state before line n (from 0), as the parser carries it. */
  function Before(lines: seq<string>, n: nat, h: Handler): State
    requires n <= |lines|
  {
    if n == 0 then INITIAL else Step(Before(lines, n - 1, h), lines[n - 1], h)
  }

  /** Line n is at fault, whatever happened on earlier lines. */
  predicate Errs(lines: seq<string>, n: nat, h: Handler)
    requires n < |lines|
  {
    Step(Before(lines, n, h).(error := 0), lines[n], h).error != 0
  }

  lemma ApplyError(st: State, m: Meaning, h: Handler)
    requires st.lineno > 0
    ensures Apply(st, m, h).lineno == st.lineno
    ensures Apply(st, m, h).error == Note(st.error, Apply(st.(error := 0), m, h).error != 0, st.lineno)
  {
  }

  lemma StepError(st: State, line: string, h: Handler)
    ensures Step(st, line, h).lineno == st.lineno + 1
    ensures Step(st, line, h).error == Note(st.error, Step(st.(error := 0), line, h).error != 0, st.lineno + 1)
    ensures Overlong(line) ==> Step(st.(error := 0), line, h).error != 0
  {
    var n := st.lineno + 1;
    var m := Classify(Cut(line), n, st.prevName);
    ApplyError(Begin(st, line), m, h);
    ApplyError(Begin(st.(error := 0), line), m, h);
  }

  lemma BeforeNext(done: seq<string>, line: string, h: Handler)
    ensures Before(done + [line], |done| + 1, h) == Step(Before(done, |done|, h), line, h)
  {
    hide Step;
    BeforePrefix(done, [line], |done|, h);
  }

  lemma LinesNext(text: string)
    requires text != ""
    ensures Lines(text) == [text[..LineLen(text)]] + Lines(text[LineLen(text)..])
  {
    hide LineLen;
  }

  lemma {:induction false} ParseIsFold(text: string, h: Handler, done: seq<string>)
    ensures Parse(Before(done, |done|, h), text, h) == Before(done + Lines(text), |done| + |Lines(text)|, h)
    decreases |text|
  {
    hide Step, LineLen, Before, Lines;
    if text == "" {
      NoLines();
      assert done + [] == done;
    } else {
      var line, rest := text[..LineLen(text)], text[LineLen(text)..];
      BeforeNext(done, line, h);
      ParseIsFold(rest, h, done + [line]);
      LinesNext(text);
      assert done + [line] + Lines(rest) == done + ([line] + Lines(rest));
    }
  }

  lemma NoLines()
    ensures Lines("") == []
  {
  }

  lemma {:induction false} BeforePrefix(lines: seq<string>, more: seq<string>, n: nat, h: Handler)
    requires n <= |lines|
    ensures Before(lines + more, n, h) == Before(lines, n, h)
  {
    hide Step;
    if n > 0 {
      BeforePrefix(lines, more, n - 1, h);
    }
  }

  lemma {:induction false} BeforeErrors(lines: seq<string>, n: nat, h: Handler)
    requires n <= |lines|
    ensures var st := Before(lines, n, h);
            && st.lineno == n
            && st.error <= n
            && (st.error == 0 <==> forall m: nat | m < n :: !Errs(lines, m, h))
            && (st.error > 0 ==> Errs(lines, st.error - 1, h)
                                 && forall m: nat | m < st.error - 1 :: !Errs(lines, m, h))
  {
    hide Step;
    if n > 0 {
      BeforeErrors(lines, n - 1, h);
      StepError(Before(lines, n - 1, h), lines[n - 1], h);
      assert Before(lines, n, h).error == Note(Before(lines, n - 1, h).error, Errs(lines, n - 1, h), n);
    }
  }

  /** The result of a parse is 0 when no physical line errs and otherwise the
      1-based number of the first one that does; parsing goes on past it. */
  lemma FirstError(text: string, h: Handler)
    ensures var st, lines := Parse(INITIAL, text, h), Lines(text);
            && st.lineno == |lines|
            && (st.error == 0 <==> forall m: nat | m < |lines| :: !Errs(lines, m, h))
            && (st.error > 0 ==> st.error <= |lines| && Errs(lines, st.error - 1, h)
                                 && forall m: nat | m < st.error - 1 :: !Errs(lines, m, h))
  {
    hide Step, Parse, Lines, Errs, LineLen;
    var none: seq<string> := [];
    ParseIsFold(text, h, none);
    assert none + Lines(text) == Lines(text);
    BeforeErrors(Lines(text), |Lines(text)|, h);
  }
}
