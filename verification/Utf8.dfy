/**
 Text in UTF-8 as `Buffer.toString("utf8")` reads it: every maximal ill-formed part of the bytes becomes one replacement
 character.
 */
module Utf8 {
  type byte = x: int | 0 <= x < 256

  /** A character of Unicode; surrogates are not characters. */
  type CodePoint = n: int | 0 <= n < 0x110000 && !(0xD800 <= n < 0xE000)

  const REPLACEMENT: CodePoint := 0xFFFD

  // ----- decoding

  /** How many bytes a leading byte announces; none for a byte that cannot lead. */
  function Announced(b: byte): nat {
    if b < 0x80 then 1
    else if 0xC2 <= b <= 0xDF then 2
    else if 0xE0 <= b <= 0xEF then 3
    else if 0xF0 <= b <= 0xF4 then 4
    else 0
  }

  predicate Continues(b: byte) {
    0x80 <= b <= 0xBF
  }

  /**
   The second byte is narrower after four of the leads: no overlong forms, no surrogates, nothing past the last plane.
   */
  predicate ContinuesLead(lead: byte, b: byte) {
    && Continues(b)
    && (lead == 0xE0 ==> 0xA0 <= b) && (lead == 0xED ==> b <= 0x9F)
    && (lead == 0xF0 ==> 0x90 <= b) && (lead == 0xF4 ==> b <= 0x8F)
  }

  /** How many bytes the first character, or the first ill-formed part, takes. */
  function Taken(s: seq<byte>): (n: nat)
    requires s != []
    ensures 1 <= n <= |s|
  {
    var announced := Announced(s[0]);
    if announced <= 1 || |s| < 2 || !ContinuesLead(s[0], s[1]) then 1
    else if announced == 2 || |s| < 3 || !Continues(s[2]) then 2
    else if announced == 3 || |s| < 4 || !Continues(s[3]) then 3
    else 4
  }

  /** The bytes begin with a complete character. */
  predicate Whole(s: seq<byte>)
    requires s != []
  {
    Taken(s) == Announced(s[0])
  }

  function First(s: seq<byte>): CodePoint
    requires s != []
  {
    if !Whole(s) then REPLACEMENT
    else if Taken(s) == 1 then s[0]
    else if Taken(s) == 2 then Joined(s[0] - 0xC0, s[1])
    else if Taken(s) == 3 then Joined(Joined(s[0] - 0xE0, s[1]), s[2])
    else Joined(Joined(Joined(s[0] - 0xF0, s[1]), s[2]), s[3])
  }

  /** Six more bits from a continuation byte. */
  function Joined(high: int, b: int): int {
    high * 0x40 + (b - 0x80)
  }

  function Decode(s: seq<byte>): seq<CodePoint> {
    if s == [] then [] else [First(s)] + Decode(s[Taken(s)..])
  }

  predicate WellFormed(s: seq<byte>) {
    s == [] || (Whole(s) && WellFormed(s[Taken(s)..]))
  }

  /** Every ill-formed part is three bytes long, as long as the replacement character. */
  predicate GapsOfThree(s: seq<byte>) {
    s == [] || ((Whole(s) || Taken(s) == 3) && GapsOfThree(s[Taken(s)..]))
  }

  // ----- encoding

  function EncodeOne(c: CodePoint): seq<byte> {
    if c < 0x80 then [c]
    else if c < 0x800 then [0xC0 + c / 0x40, 0x80 + c % 0x40]
    else if c < 0x10000 then [0xE0 + c / 0x1000, 0x80 + c / 0x40 % 0x40, 0x80 + c % 0x40]
    else [0xF0 + c / 0x40000, 0x80 + c / 0x1000 % 0x40, 0x80 + c / 0x40 % 0x40, 0x80 + c % 0x40]
  }

  function Encode(t: seq<CodePoint>): seq<byte> {
    if t == [] then [] else EncodeOne(t[0]) + Encode(t[1..])
  }

  /** A complete character is encoded as the bytes it was read from. */
  lemma FirstReadsBack(s: seq<byte>)
    requires s != [] && Whole(s)
    ensures EncodeOne(First(s)) == s[..Taken(s)]
  {
    if Taken(s) == 2 {
      JoinedSplits(s[0] - 0xC0, s[1]);
    } else if Taken(s) == 3 {
      var high := Joined(s[0] - 0xE0, s[1]);
      JoinedSplits(s[0] - 0xE0, s[1]);
      JoinedSplits(high, s[2]);
      DivisionInSteps(First(s), 0x40);
    } else if Taken(s) == 4 {
      var high := Joined(s[0] - 0xF0, s[1]);
      JoinedSplits(s[0] - 0xF0, s[1]);
      JoinedSplits(high, s[2]);
      JoinedSplits(Joined(high, s[2]), s[3]);
      DivisionInSteps(First(s), 0x40);
      DivisionInSteps(First(s), 0x1000);
      DivisionInSteps(First(s) / 0x40, 0x40);
    }
  }

  lemma JoinedSplits(high: int, b: byte)
    requires 0 <= high && Continues(b)
    ensures Joined(high, b) / 0x40 == high && 0x80 + Joined(high, b) % 0x40 == b
  {
  }

  lemma DivisionInSteps(n: int, d: int)
    requires 0 <= n && (d == 0x40 || d == 0x1000)
    ensures n / d / 0x40 == n / (d * 0x40)
  {
  }

  /** An ill-formed part takes at most three bytes, and is not the replacement character itself. */
  lemma GapIsNotReplacement(s: seq<byte>)
    requires s != [] && !Whole(s)
    ensures Taken(s) <= 3 && EncodeOne(REPLACEMENT) == [0xEF, 0xBF, 0xBD]
    ensures |s| >= 3 ==> s[..3] != [0xEF, 0xBF, 0xBD]
  {
    assert EncodeOne(REPLACEMENT) == [0xEF, 0xBF, 0xBD];
    assert |s| >= 3 ==> s[..3][0] == s[0] && s[..3][1] == s[1] && s[..3][2] == s[2];
  }

  /** Text read from bytes and written again is those bytes if and only if they were well-formed. */
  lemma {:induction false} ReadsBackIffWellFormed(s: seq<byte>)
    ensures Encode(Decode(s)) == s <==> WellFormed(s)
  {
    if s != [] {
      var rest := s[Taken(s)..];
      ReadsBackIffWellFormed(rest);
      assert Decode(s)[0] == First(s) && Decode(s)[1..] == Decode(rest);
      assert s == s[..Taken(s)] + rest;
      if Whole(s) {
        FirstReadsBack(s);
        var n := Taken(s);
        assert Encode(Decode(s)) == s[..n] + Encode(Decode(rest));
        assert (s[..n] + Encode(Decode(rest)))[n..] == Encode(Decode(rest));
      } else {
        GapIsNotReplacement(s);
        assert Encode(Decode(s))[..3] == [0xEF, 0xBF, 0xBD];
      }
    }
  }

  /** The bytes of one character announce their number and continue as they must. */
  lemma EncodingIsWhole(c: CodePoint)
    ensures var e := EncodeOne(c);
            && Announced(e[0]) == |e|
            && (|e| >= 2 ==> ContinuesLead(e[0], e[1]))
            && (|e| >= 3 ==> Continues(e[2])) && (|e| >= 4 ==> Continues(e[3]))
  {
    DivisionInSteps(c, 0x40);
    DivisionInSteps(c, 0x1000);
  }

  /** ... and hold its bits. */
  lemma EncodingHoldsBits(c: CodePoint)
    ensures var e := EncodeOne(c);
            c == if |e| == 1 then e[0]
                 else if |e| == 2 then Joined(e[0] - 0xC0, e[1])
                 else if |e| == 3 then Joined(Joined(e[0] - 0xE0, e[1]), e[2])
                 else Joined(Joined(Joined(e[0] - 0xF0, e[1]), e[2]), e[3])
  {
    DivisionInSteps(c, 0x40);
    DivisionInSteps(c, 0x1000);
  }

  /** An ill-formed part is as long as it can be: it is one byte or begins a character, and nothing longer does. */
  lemma GapIsMaximal(s: seq<byte>)
    requires s != [] && !Whole(s)
    ensures Taken(s) > 1 ==> exists c: CodePoint :: s[..Taken(s)] < EncodeOne(c)
    ensures forall c: CodePoint, m | Taken(s) < m <= |s| :: !(s[..m] <= EncodeOne(c))
  {
    var n := Taken(s);
    if n > 1 {
      var padded := s[..n] + if Announced(s[0]) - n == 1 then [0x80] else [0x80, 0x80];
      FirstReadsBack(padded);
      assert padded[..Taken(padded)] == padded && s[..n] < padded;
    }
    forall c: CodePoint, m | n < m <= |s|
      ensures !(s[..m] <= EncodeOne(c))
    {
      EncodingIsWhole(c);
    }
  }

  /** Text written and read again is that text, and its bytes are well-formed. */
  lemma {:induction false} WrittenReadsBack(t: seq<CodePoint>)
    ensures WellFormed(Encode(t)) && Decode(Encode(t)) == t
  {
    if t != [] {
      var one, rest := EncodeOne(t[0]), Encode(t[1..]);
      var s := one + rest;
      WrittenReadsBack(t[1..]);
      EncodingIsWhole(t[0]);
      EncodingHoldsBits(t[0]);
      assert forall i | 0 <= i < |one| :: s[i] == one[i];
      assert Taken(s) == |one| && s[|one|..] == rest && First(s) == t[0];
      assert Decode(s) == [t[0]] + Decode(rest);
    }
  }

  /** So the well-formed byte strings are exactly the written texts. */
  lemma WellFormedIffWritten(s: seq<byte>)
    ensures WellFormed(s) <==> exists t :: Encode(t) == s
  {
    if WellFormed(s) {
      ReadsBackIffWellFormed(s);
    }
    if t :| Encode(t) == s {
      WrittenReadsBack(t);
    }
  }

  /** It is never shorter, and as long if and only if every ill-formed part was three bytes long. */
  lemma {:induction false} LengthReadsBackIff(s: seq<byte>)
    ensures |s| <= |Encode(Decode(s))|
    ensures |s| == |Encode(Decode(s))| <==> GapsOfThree(s)
    ensures |Decode(s)| <= |s|
  {
    if s != [] {
      var rest := s[Taken(s)..];
      LengthReadsBackIff(rest);
      assert Decode(s)[0] == First(s) && Decode(s)[1..] == Decode(rest);
      if Whole(s) {
        FirstReadsBack(s);
      } else {
        GapIsNotReplacement(s);
      }
    }
  }

  /** Text without a replacement character was read from well-formed bytes. */
  lemma {:induction false} CleanTextWasWellFormed(s: seq<byte>)
    requires REPLACEMENT !in Decode(s)
    ensures WellFormed(s)
  {
    if s != [] {
      assert Decode(s)[0] == First(s) && Decode(s)[1..] == Decode(s[Taken(s)..]);
      CleanTextWasWellFormed(s[Taken(s)..]);
    }
  }

  // ----- ASCII within other text

  predicate Ascii(s: seq<int>) {
    forall i | 0 <= i < |s| :: 0 <= s[i] < 0x80
  }

  /** An ASCII character is read from its own byte and nothing else. */
  lemma AsciiIsOneByte(s: seq<byte>)
    requires s != []
    ensures s[0] < 0x80 <==> First(s) < 0x80
    ensures s[0] < 0x80 ==> Taken(s) == 1 && First(s) == s[0]
  {
  }

  lemma {:induction false} AsciiBefore(m: seq<byte>, s: seq<byte>)
    requires Ascii(m)
    ensures Decode(m + s) == m + Decode(s)
    decreases |m|
  {
    hide Decode;
    if m == [] {
      assert m + s == s;
      assert m + Decode(s) == Decode(s);
    } else {
      var both, rest := m + s, m[1..];
      assert both[0] == m[0] && both[1..] == rest + s;
      AsciiFirst(both);
      AsciiBefore(rest, s);
      assert m + Decode(s) == [m[0]] + (rest + Decode(s));
    }
  }

  lemma AsciiFirst(s: seq<byte>)
    requires s != [] && s[0] < 0x80
    ensures Decode(s) == [s[0]] + Decode(s[1..])
  {
    AsciiIsOneByte(s);
  }

  lemma TakenBefore(s: seq<byte>, m: seq<byte>)
    requires s != [] && Ascii(m)
    ensures Taken(s + m) == Taken(s) && First(s + m) == First(s)
  {
    var both := s + m;
    assert forall i | 0 <= i < |s| :: both[i] == s[i];
    assert forall i | |s| <= i < |both| :: both[i] < 0x80;
  }

  lemma {:induction false} AsciiAfter(s: seq<byte>, m: seq<byte>)
    requires Ascii(m)
    ensures Decode(s + m) == Decode(s) + m
    decreases |s|
  {
    hide Decode, First, Taken;
    if s == [] {
      AsciiBefore(m, []);
      NothingDecodes();
      assert s + m == m + [] && Decode(s) + m == m + Decode([]);
    } else {
      var both, n := s + m, Taken(s);
      TakenBefore(s, m);
      DecodeStep(s);
      DecodeStep(both);
      assert both[n..] == s[n..] + m;
      AsciiAfter(s[n..], m);
      assert [First(s)] + (Decode(s[n..]) + m) == Decode(s) + m;
    }
  }

  lemma DecodeStep(s: seq<byte>)
    requires s != []
    ensures Decode(s) == [First(s)] + Decode(s[Taken(s)..])
  {
  }

  lemma NothingDecodes()
    ensures Decode([]) == []
  {
  }

  /** Text that is all ASCII was read from exactly those bytes. */
  lemma {:induction false} AsciiText(s: seq<byte>)
    requires Ascii(Decode(s))
    ensures Decode(s) == s
  {
    if s != [] {
      assert Decode(s)[0] == First(s) && Decode(s)[1..] == Decode(s[Taken(s)..]);
      AsciiIsOneByte(s);
      AsciiText(s[1..]);
    }
  }

  predicate Starts(s: seq<int>, m: seq<int>) {
    |m| <= |s| && s[..|m|] == m
  }

  predicate Ends(s: seq<int>, m: seq<int>) {
    |m| <= |s| && s[|s| - |m|..] == m
  }

  /** The text begins with an ASCII marker if and only if the bytes do. */
  lemma {:induction false} StartsAlike(s: seq<byte>, m: seq<byte>)
    requires Ascii(m)
    ensures Starts(Decode(s), m) <==> Starts(s, m)
    decreases |m|
  {
    if m != [] && s != [] {
      AsciiIsOneByte(s);
      var text := Decode(s);
      assert text[0] == First(s) && text[1..] == Decode(s[Taken(s)..]);
      if s[0] == m[0] {
        StartsAlike(s[1..], m[1..]);
        StartsStep(s, m);
        StartsStep(text, m);
      } else {
        StartsStep(s, m);
        StartsStep(text, m);
      }
    }
  }

  lemma StartsStep(s: seq<int>, m: seq<int>)
    requires s != [] && m != []
    ensures Starts(s, m) <==> s[0] == m[0] && Starts(s[1..], m[1..])
  {
    if |m| <= |s| {
      assert s[..|m|] == [s[0]] + s[1..][..|m| - 1];
      assert m == [m[0]] + m[1..];
      assert s[..|m|][0] == s[0] && s[..|m|][1..] == s[1..][..|m| - 1];
    }
  }

  /** ... and ends with one if and only if the bytes do. */
  lemma {:induction false} EndsAlike(s: seq<byte>, m: seq<byte>)
    requires Ascii(m)
    ensures Ends(Decode(s), m) <==> Ends(s, m)
    decreases |s|
  {
    hide First, Taken, Encode;
    LengthReadsBackIff(s);
    if Ends(s, m) {
      var front := s[..|s| - |m|];
      assert s == front + m;
      AsciiAfter(front, m);
    } else if Ends(Decode(s), m) {
      if |Decode(s)| == |m| {
        assert Decode(s)[0..] == Decode(s);
        AsciiText(s);
      } else {
        var rest := s[Taken(s)..];
        assert Decode(s)[1..] == Decode(rest);
        EndsAlike(rest, m);
      }
    }
  }
}
