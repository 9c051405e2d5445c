/** C characters and strings.  Characters stand for bytes and '\0' for the
    terminator; a string in a buffer runs from an index up to the first one. */
module CLib {

  datatype Option<T> = None | Some(value: T)

  function Min(a: int, b: int): int {
    if a < b then a else b
  }

  function Max(a: int, b: int): int {
    if a > b then a else b
  }

  predicate IsSpace(c: char) {
    c == ' ' || '\t' <= c <= '\r'
  }

  function LeadingSpaces(s: string): (k: nat)
    ensures k <= |s|
    ensures forall i :: 0 <= i < k ==> IsSpace(s[i])
    ensures k < |s| ==> !IsSpace(s[k])
  {
    if s != "" && IsSpace(s[0]) then 1 + LeadingSpaces(s[1..]) else 0
  }

  predicate NulFree(s: string) {
    forall i :: 0 <= i < |s| ==> s[i] != '\0'
  }

  function Concat(parts: seq<string>): string {
    if parts == [] then "" else parts[0] + Concat(parts[1..])
  }

  lemma {:induction false} ConcatLast(parts: seq<string>)
    requires parts != []
    ensures Concat(parts) == Concat(parts[..|parts| - 1]) + parts[|parts| - 1]
  {
    if |parts| > 1 {
      assert parts[1..][..|parts| - 2] == parts[..|parts| - 1][1..];
      ConcatLast(parts[1..]);
    }
  }

  /** The C string that starts at index `at` of the buffer is `s`. */
  ghost predicate StringAt(buf: seq<char>, at: nat, s: string) {
    && at + |s| < |buf|
    && buf[at..at + |s|] == s
    && buf[at + |s|] == '\0'
    && NulFree(s)
  }

  lemma InBounds(buf: seq<char>, at: nat, s: string)
    requires StringAt(buf, at, s)
    ensures at + |s| < |buf|
  {
  }

  lemma FirstChar(buf: seq<char>, at: nat, s: string)
    requires StringAt(buf, at, s)
    ensures at < |buf| && if s == "" then buf[at] == '\0' else buf[at] == s[0] != '\0'
  {
    assert s != "" ==> buf[at..at + |s|][0] == s[0];
  }

  /** A string is still there when its own characters were left alone. */
  lemma Kept(buf: seq<char>, buf': seq<char>, at: nat, s: string)
    requires StringAt(buf, at, s)
    requires |buf| == |buf'|
    requires forall i :: at <= i <= at + |s| ==> buf'[i] == buf[i]
    ensures StringAt(buf', at, s)
  {
    assert buf'[at..at + |s|] == buf[at..at + |s|];
  }

  /** A suffix of a string is the string further on. */
  lemma Suffix(buf: seq<char>, at: nat, s: string, k: nat)
    requires StringAt(buf, at, s) && k <= |s|
    ensures StringAt(buf, at + k, s[k..])
  {
    assert buf[at + k..at + |s|] == buf[at..at + |s|][k..];
  }

  /** strlen. */
  method Length(buf: array<char>, at: nat, ghost s: string) returns (n: nat)
    requires StringAt(buf[..], at, s)
    ensures n == |s|
  {
    n := 0;
    assert forall i :: at <= i < at + |s| ==> buf[i] == buf[..][at..at + |s|][i - at] == s[i - at];
    while buf[at + n] != '\0'
      invariant n <= |s|
      invariant forall i :: at <= i < at + |s| ==> buf[i] != '\0'
      decreases |s| - n
    {
      n := n + 1;
    }
  }

  /** What a callee sees when it is handed a pointer into the buffer. */
  method Text(buf: array<char>, at: nat, ghost s: string) returns (r: string)
    requires StringAt(buf[..], at, s)
    ensures r == s
  {
    var n := Length(buf, at, s);
    r := buf[at..at + n];
    assert r == buf[..][at..at + n];
  }
}
