/** The Base64 encoder of the Grafana push client, and a decoder written from
    section 4 of RFC 4648 to hold against it. */
module Base64 {
  import opened CLib

  type Byte = bv8

  const TABLE: string := "ABCDEFGHIJKLMNOPQRSTUVWXYZ" + "abcdefghijklmnopqrstuvwxyz" + "0123456789+/"

  // ---- encoder ----

  function First(a: Byte): Byte { (a >> 2) & 0x3F }
  function Second(a: Byte, b: Byte): Byte { ((a & 0x3) << 4) | ((b >> 4) & 0xF) }
  function Third(b: Byte, c: Byte): Byte { ((b & 0xF) << 2) | ((c >> 6) & 0x3) }
  function Fourth(c: Byte): Byte { c & 0x3F }

  function LetterAt(i: nat): char
    requires i < 64
  {
    TABLE[i]
  }

  function Letter(v: Byte): char
    requires v < 64
  {
    LetterAt(v as int)
  }

  function Group(a: Byte, b: Byte, c: Byte): string {
    [Letter(First(a)), Letter(Second(a, b)), Letter(Third(b, c)), Letter(Fourth(c))]
  }

  function Encode(s: seq<Byte>): string {
    if |s| == 0 then ""
    else if |s| == 1 then [Letter(First(s[0])), Letter(Second(s[0], 0)), '=', '=']
    else if |s| == 2 then [Letter(First(s[0])), Letter(Second(s[0], s[1])), Letter(Third(s[1], 0)), '=']
    else Group(s[0], s[1], s[2]) + Encode(s[3..])
  }

  // ---- decoder ----

  function Join0(p: Byte, q: Byte): Byte { (p << 2) | (q >> 4) }
  function Join1(q: Byte, r: Byte): Byte { (q << 4) | (r >> 2) }
  function Join2(r: Byte, s: Byte): Byte { (r << 6) | s }

  /** The place of a character in the alphabet of RFC 4648, table 1. */
  function Place(c: char): (r: Option<nat>)
    ensures r.Some? ==> r.value < 64
  {
    if 'A' <= c <= 'Z' then Some(c as int - 'A' as int)
    else if 'a' <= c <= 'z' then Some(c as int - 'a' as int + 26)
    else if '0' <= c <= '9' then Some(c as int - '0' as int + 52)
    else if c == '+' then Some(62)
    else if c == '/' then Some(63)
    else None
  }

  function Value(c: char): Option<Byte> {
    match Place(c)
    case Some(i) => Some(i as Byte)
    case None => None
  }

  /** Rejects foreign characters, a wrong length, padding inside the text, and
      pad bits that are not zero (section 3.5 of RFC 4648). */
  function Decode(t: string): Option<seq<Byte>> {
    if t == "" then Some([])
    else if |t| < 4 then None
    else
      match (Value(t[0]), Value(t[1]), Value(t[2]), Value(t[3]))
      case (Some(p), Some(q), Some(r), Some(s)) =>
        (match Decode(t[4..])
         case Some(rest) => Some([Join0(p, q), Join1(q, r), Join2(r, s)] + rest)
         case None => None)
      case (Some(p), Some(q), Some(r), None) =>
        if |t| == 4 && t[3] == '=' && r & 0x3 == 0
        then Some([Join0(p, q), Join1(q, r)]) else None
      case (Some(p), Some(q), None, None) =>
        if |t| == 4 && t[2] == '=' && t[3] == '=' && q & 0xF == 0
        then Some([Join0(p, q)]) else None
      case _ => None
  }

  // ---- the alphabet ----

  lemma CapitalAt(i: nat)
    requires i < 26
    ensures LetterAt(i) as int == 'A' as int + i
  {
  }

  lemma SmallAt(i: nat)
    requires 26 <= i < 52
    ensures LetterAt(i) as int == 'a' as int + i - 26
  {
  }

  lemma TableAt(i: nat)
    requires i < 64
    ensures LetterAt(i) as int == if i < 26 then 'A' as int + i
                               else if i < 52 then 'a' as int + i - 26
                               else if i < 62 then '0' as int + i - 52
                               else if i == 62 then '+' as int else '/' as int
  {
    if i < 26 {
      hide LetterAt;
      CapitalAt(i);
    } else if i < 52 {
      hide LetterAt;
      SmallAt(i);
    }
  }

  lemma PlaceInTable(c: char)
    requires Place(c).Some?
    ensures LetterAt(Place(c).value) == c
  {
    TableAt(Place(c).value);
  }

  lemma ValueOfLetter(v: Byte)
    requires v < 64
    ensures Value(Letter(v)) == Some(v)
  {
    hide LetterAt;
    TableAt(v as int);
  }

  lemma LetterOfValue(c: char)
    requires Value(c).Some?
    ensures Value(c).value < 64 && Letter(Value(c).value) == c
  {
    hide Place, LetterAt;
    PlaceInTable(c);
    assert (Place(c).value as Byte) as int == Place(c).value;
  }

  // ---- bits ----

  lemma Sextets(a: Byte, b: Byte, c: Byte)
    ensures First(a) < 64 && Second(a, b) < 64 && Third(b, c) < 64 && Fourth(c) < 64
    ensures Join0(First(a), Second(a, b)) == a
    ensures Join1(Second(a, b), Third(b, c)) == b
    ensures Join2(Third(b, c), Fourth(c)) == c
    ensures Second(a, 0) & 0xF == 0 && Third(b, 0) & 0x3 == 0
    ensures Second(a, 0) == (a & 0x3) << 4 && Third(b, 0) == (b & 0xF) << 2
  {
  }

  lemma Octets(p: Byte, q: Byte, r: Byte, s: Byte)
    requires p < 64 && q < 64 && r < 64 && s < 64
    ensures First(Join0(p, q)) == p
    ensures Second(Join0(p, q), Join1(q, r)) == q
    ensures Third(Join1(q, r), Join2(r, s)) == r
    ensures Fourth(Join2(r, s)) == s
    ensures q & 0xF == 0 ==> Second(Join0(p, q), 0) == q
    ensures r & 0x3 == 0 ==> Third(Join1(q, r), 0) == r
  {
  }

  // ---- round trips ----

  lemma {:induction false} EncodedLength(s: seq<Byte>)
    ensures |Encode(s)| == (|s| + 2) / 3 * 4
  {
    if |s| >= 3 {
      EncodedLength(s[3..]);
    }
  }

  lemma DecodeGroup(a: Byte, b: Byte, c: Byte, t: string)
    ensures Decode(Group(a, b, c) + t) == match Decode(t) case Some(rest) => Some([a, b, c] + rest) case None => None
  {
    Sextets(a, b, c);
    ValueOfLetter(First(a));
    ValueOfLetter(Second(a, b));
    ValueOfLetter(Third(b, c));
    ValueOfLetter(Fourth(c));
    assert (Group(a, b, c) + t)[4..] == t;
  }

  /** Decoding recovers every byte sequence of every length. */
  lemma {:induction false} DecodeEncode(s: seq<Byte>)
    ensures Decode(Encode(s)) == Some(s)
  {
    hide First, Second, Third, Fourth, Letter, Value;
    if |s| == 1 {
      DecodeOne(s[0]);
      assert s == [s[0]];
    } else if |s| == 2 {
      DecodeTwo(s[0], s[1]);
      assert s == [s[0], s[1]];
    } else if |s| >= 3 {
      hide Group;
      DecodeEncode(s[3..]);
      DecodeGroup(s[0], s[1], s[2], Encode(s[3..]));
      assert s == [s[0], s[1], s[2]] + s[3..];
    }
  }

  lemma DecodeOne(a: Byte)
    ensures Decode([Letter(First(a)), Letter(Second(a, 0)), '=', '=']) == Some([a])
  {
    Sextets(a, 0, 0);
    ValueOfLetter(First(a));
    ValueOfLetter(Second(a, 0));
  }

  lemma DecodeTwo(a: Byte, b: Byte)
    ensures Decode([Letter(First(a)), Letter(Second(a, b)), Letter(Third(b, 0)), '=']) == Some([a, b])
  {
    Sextets(a, b, 0);
    ValueOfLetter(First(a));
    ValueOfLetter(Second(a, b));
    ValueOfLetter(Third(b, 0));
  }

  lemma EncodeOne(p: Byte, q: Byte)
    requires p < 64 && q < 64 && q & 0xF == 0
    ensures Encode([Join0(p, q)]) == [Letter(p), Letter(q), '=', '=']
  {
    hide First, Second, Letter;
    Octets(p, q, 0, 0);
  }

  lemma EncodeTwo(p: Byte, q: Byte, r: Byte)
    requires p < 64 && q < 64 && r < 64 && r & 0x3 == 0
    ensures Encode([Join0(p, q), Join1(q, r)]) == [Letter(p), Letter(q), Letter(r), '=']
  {
    hide First, Second, Third, Letter;
    Octets(p, q, r, 0);
    Sextets(Join0(p, q), Join1(q, r), 0);
  }

  lemma EncodeThree(p: Byte, q: Byte, r: Byte, s: Byte)
    requires p < 64 && q < 64 && r < 64 && s < 64
    ensures Encode([Join0(p, q), Join1(q, r), Join2(r, s)])
         == [Letter(p), Letter(q), Letter(r), Letter(s)]
  {
    hide First, Second, Third, Fourth, Letter, Join0, Join1, Join2;
    Octets(p, q, r, s);
    var group := [Join0(p, q), Join1(q, r), Join2(r, s)];
    assert Encode(group[3..]) == "";
  }

  /** One group decoded and encoded again. */
  lemma EncodeGroup(t: string)
    requires |t| == 4 && Decode(t).Some?
    ensures Encode(Decode(t).value) == t
  {
    hide Value, Letter, Encode, Join0, Join1, Join2;
    assert t[4..] == "" && Decode("") == Some([]);
    LetterOfValue(t[0]);
    LetterOfValue(t[1]);
    if Value(t[2]).None? {
      EncodeOne(Value(t[0]).value, Value(t[1]).value);
    } else if Value(t[3]).None? {
      LetterOfValue(t[2]);
      EncodeTwo(Value(t[0]).value, Value(t[1]).value, Value(t[2]).value);
    } else {
      LetterOfValue(t[2]);
      LetterOfValue(t[3]);
      EncodeThree(Value(t[0]).value, Value(t[1]).value, Value(t[2]).value, Value(t[3]).value);
      assert Decode(t).value[..3] == Decode(t).value;
    }
  }

  lemma DecodeSplit(t: string)
    requires |t| > 4 && Decode(t).Some?
    ensures Decode(t[..4]).Some? && |Decode(t[..4]).value| == 3
    ensures Decode(t[4..]).Some? && Decode(t).value == Decode(t[..4]).value + Decode(t[4..]).value
  {
    hide Value, Join0, Join1, Join2;
    var u := t[..4];
    assert u[0] == t[0] && u[1] == t[1] && u[2] == t[2] && u[3] == t[3];
    assert u[4..] == "" && Decode("") == Some([]);
    var p, q, r, s := Value(t[0]).value, Value(t[1]).value, Value(t[2]).value, Value(t[3]).value;
    var group := [Join0(p, q), Join1(q, r), Join2(r, s)];
    assert Decode(t).value == group + Decode(t[4..]).value;
    assert Decode(u).value == group + [] == group;
  }

  /** The decoder accepts nothing but what the encoder writes. */
  lemma {:induction false} EncodeDecode(t: string)
    requires Decode(t).Some?
    ensures Encode(Decode(t).value) == t
  {
    if t == "" {
    } else if |t| == 4 {
      EncodeGroup(t);
    } else {
      EncodeJoined(t);
      EncodeDecode(t[4..]);
    }
  }

  lemma EncodeJoined(t: string)
    requires |t| > 4 && Decode(t).Some?
    ensures Decode(t[4..]).Some?
    ensures Encode(Decode(t).value) == t[..4] + Encode(Decode(t[4..]).value)
  {
    hide Decode, First, Second, Third, Fourth, Letter;
    DecodeSplit(t);
    EncodeGroup(t[..4]);
    var a, rest := Decode(t[..4]).value, Decode(t[4..]).value;
    assert (a + rest)[3..] == rest && a[3..] == [];
  }

  /** The encoding of what is left from index i, by how much is left. */
  lemma EncodeFrom(s: seq<Byte>, i: nat)
    requires i <= |s|
    ensures |s| - i >= 3 ==>
              && First(s[i]) < 64 && Second(s[i], s[i + 1]) < 64
              && Third(s[i + 1], s[i + 2]) < 64 && Fourth(s[i + 2]) < 64
              && Encode(s[i..]) == [Letter(First(s[i])), Letter(Second(s[i], s[i + 1])),
                                    Letter(Third(s[i + 1], s[i + 2])), Letter(Fourth(s[i + 2]))] + Encode(s[i + 3..])
    ensures |s| - i == 2 ==>
              && First(s[i]) < 64 && Second(s[i], s[i + 1]) < 64 && (s[i + 1] & 0xF) << 2 < 64
              && Encode(s[i..]) == [Letter(First(s[i])), Letter(Second(s[i], s[i + 1])),
                                    Letter((s[i + 1] & 0xF) << 2), '=']
    ensures |s| - i == 1 ==>
              && First(s[i]) < 64 && (s[i] & 0x3) << 4 < 64
              && Encode(s[i..]) == [Letter(First(s[i])), Letter((s[i] & 0x3) << 4), '=', '=']
    ensures |s| == i ==> Encode(s[i..]) == ""
  {
    hide First, Second, Third, Fourth, Letter;
    if i < |s| {
      Sextets(s[i], if i + 1 < |s| then s[i + 1] else 0, if i + 2 < |s| then s[i + 2] else 0);
    }
    if i + 3 <= |s| {
      assert s[i..][3..] == s[i + 3..];
    }
  }

  method Put4(output: array<char>, j: nat, a: char, b: char, c: char, d: char)
    requires j + 4 <= output.Length
    modifies output
    ensures output[..j + 4] == old(output[..j]) + [a, b, c, d]
    ensures forall k :: j + 4 <= k < output.Length ==> output[k] == old(output[k])
  {
    output[j], output[j + 1], output[j + 2], output[j + 3] := a, b, c, d;
  }

  /** base64_encode: fills `output` in place and terminates it, or refuses a
      buffer that is too small. */
  method EncodeInto(input: seq<Byte>, output: array<char>) returns (r: int)
    modifies output
    ensures r == -1 <==> output.Length < |Encode(input)| + 1
    ensures r == -1 ==> output[..] == old(output[..])
    ensures r != -1 ==> r == |Encode(input)| && output[..r] == Encode(input) && output[r] == '\0'
    ensures r != -1 ==> forall k :: r < k < output.Length ==> output[k] == old(output[k])
  {
    hide First, Second, Third, Fourth, Letter, Encode;
    EncodedLength(input);
    var len := |input|;
    if output.Length < (len + 2) / 3 * 4 + 1 {
      return -1;
    }
    var i, j := 0, 0;
    assert input[0..] == input;
    while i < len - 2
      invariant 0 <= i <= len && 0 <= j
      invariant j + |Encode(input[i..])| == |Encode(input)|
      invariant output[..j] + Encode(input[i..]) == Encode(input)
      invariant forall k :: |Encode(input)| < k < output.Length ==> output[k] == old(output[k])
    {
      EncodeFrom(input, i);
      Put4(output, j, Letter(First(input[i])), Letter(Second(input[i], input[i + 1])),
           Letter(Third(input[i + 1], input[i + 2])), Letter(Fourth(input[i + 2])));
      i, j := i + 3, j + 4;
    }
    EncodeFrom(input, i);
    var pad := len - i;
    if pad == 1 {
      Put4(output, j, Letter(First(input[i])), Letter((input[i] & 0x3) << 4), '=', '=');
      j := j + 4;
    } else if pad == 2 {
      Put4(output, j, Letter(First(input[i])), Letter(Second(input[i], input[i + 1])),
           Letter((input[i + 1] & 0xF) << 2), '=');
      j := j + 4;
    }
    output[j] := '\0';
    r := j;
  }
}
