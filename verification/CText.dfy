/** The helpers of the INI reader that work in place on a character buffer. */
module CText {
  import opened CLib
  import opened IniSpec

  /** A cut at `end` shortens the string that starts at `at`. */
  method Terminate(buf: array<char>, at: nat, end: nat, ghost s: string)
    requires StringAt(buf[..], at, s)
    requires at <= end <= at + |s|
    modifies buf
    ensures buf[..] == old(buf[..])[end := '\0']
    ensures StringAt(buf[..], at, s[..end - at])
  {
    buf[end] := '\0';
    assert buf[at..end] == s[..end - at] by {
      assert old(buf[..])[at..at + |s|][..end - at] == old(buf[..])[at..end];
    }
  }

  /** ini_rstrip: cuts trailing white space in place, working back from `end`. */
  method RStrip(buf: array<char>, at: nat, end: nat, ghost s: string)
    requires StringAt(buf[..], at, s)
    requires end == at + |s|
    modifies buf
    ensures StringAt(buf[..], at, RTrim(s))
    ensures forall i :: 0 <= i < buf.Length && !(at <= i < end) ==> buf[i] == old(buf[i])
  {
    var e := end;
    ghost var t := s;
    while e > at && IsSpace(buf[e - 1])
      invariant at <= e <= end
      invariant t == s[..e - at]
      invariant StringAt(buf[..], at, t)
      invariant RTrim(t) == RTrim(s)
      invariant forall i :: 0 <= i < buf.Length && !(at <= i < end) ==> buf[i] == old(buf[i])
    {
      e := e - 1;
      assert buf[..][e] == t[e - at];
      Terminate(buf, at, e, t);
      t := t[..e - at];
    }
    assert e > at ==> buf[..][e - 1] == t[e - 1 - at];
  }

  /** ini_lskip. */
  method LSkip(buf: array<char>, at: nat, ghost s: string) returns (k: nat)
    requires StringAt(buf[..], at, s)
    ensures k == at + LeadingSpaces(s)
    ensures StringAt(buf[..], k, LTrim(s))
  {
    k := at;
    while buf[k] != '\0' && IsSpace(buf[k])
      invariant at <= k <= at + LeadingSpaces(s)
      invariant StringAt(buf[..], at, s)
      decreases at + |s| - k
    {
      assert k - at < |s| ==> buf[..][k] == s[k - at];
      k := k + 1;
    }
    assert k - at < |s| ==> buf[..][k] == s[k - at];
    assert buf[..][k..at + |s|] == s[k - at..];
  }

  /** ini_find_chars_or_comment; no `chars` stands for the null pointer. */
  method FindCharsOrComment(buf: array<char>, at: nat, chars: string, ghost s: string) returns (k: nat)
    requires StringAt(buf[..], at, s)
    ensures k == at + Find(s, chars)
    ensures buf[k] == (if k - at < |s| then s[k - at] else '\0')
  {
    k := at;
    var wasSpace := false;
    assert forall i :: 0 <= i < |s| ==> buf[at + i] == buf[..][at..at + |s|][i] == s[i];
    while buf[k] != '\0' && buf[k] !in chars && !(wasSpace && buf[k] == ';')
      invariant at <= k <= at + |s|
      invariant wasSpace == (k > at && IsSpace(s[k - at - 1]))
      invariant Find(s, chars, k - at) == Find(s, chars)
      decreases at + |s| - k
    {
      wasSpace := IsSpace(buf[k]);
      k := k + 1;
    }
  }

  /** ini_strncpy0: copies at most dest.Length - 1 characters and terminates. */
  method CopyText(dest: array<char>, src: array<char>, at: nat, ghost s: string)
    requires dest.Length > 0 && dest != src
    requires StringAt(src[..], at, s)
    modifies dest
    ensures StringAt(dest[..], 0, Truncate(s, dest.Length))
  {
    var i := 0;
    assert forall j :: 0 <= j < |s| ==> src[at + j] == src[..][at..at + |s|][j] == s[j];
    while i < dest.Length - 1 && src[at + i] != '\0'
      invariant i <= dest.Length - 1 && i <= |s|
      invariant dest[..i] == s[..i]
    {
      dest[i] := src[at + i];
      i := i + 1;
    }
    dest[i] := '\0';
    assert dest[..][0..i] == s[..i] == Truncate(s, dest.Length);
  }
}
