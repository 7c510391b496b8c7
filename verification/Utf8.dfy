/**
 The two UTF-8 checkers of the native code, against section 4 of RFC 3629: the plan parser's,
 which looks at the range of the lead byte, and the workspace reader's, which decodes.
 */
module Utf8 {
  import opened Bytes

  // ------------------------------------------------------- RFC 3629, sections 3 and 4

  predicate Tail(b: Byte) {
    0x80 <= b <= 0xBF
  }

  /** The rule UTF8-char. */
  predicate Char(c: seq<Byte>) {
    if |c| == 1 then c[0] <= 0x7F
    else if |c| == 2 then 0xC2 <= c[0] <= 0xDF && Tail(c[1])
    else if |c| == 3 then
      || (c[0] == 0xE0 && 0xA0 <= c[1] <= 0xBF && Tail(c[2]))
      || (0xE1 <= c[0] <= 0xEC && Tail(c[1]) && Tail(c[2]))
      || (c[0] == 0xED && 0x80 <= c[1] <= 0x9F && Tail(c[2]))
      || (0xEE <= c[0] <= 0xEF && Tail(c[1]) && Tail(c[2]))
    else if |c| == 4 then
      || (c[0] == 0xF0 && 0x90 <= c[1] <= 0xBF && Tail(c[2]) && Tail(c[3]))
      || (0xF1 <= c[0] <= 0xF3 && Tail(c[1]) && Tail(c[2]) && Tail(c[3]))
      || (c[0] == 0xF4 && 0x80 <= c[1] <= 0x8F && Tail(c[2]) && Tail(c[3]))
    else false
  }

  predicate StartsWithChar(s: seq<Byte>, k: nat) {
    k <= |s| && Char(s[..k])
  }

  /** The rule UTF8-octets: any number of characters. */
  ghost predicate Octets(s: seq<Byte>)
    decreases |s|
  {
    s == [] || exists k: nat :: StartsWithChar(s, k) && k > 0 && Octets(s[k..])
  }

  /** The length of a character is determined by its first byte. */
  function Lead(b: Byte): nat {
    if b < 0x80 then 1 else if b < 0xE0 then 2 else if b < 0xF0 then 3 else 4
  }

  lemma OctetsByLead(s: seq<Byte>)
    requires s != []
    ensures Octets(s) <==> StartsWithChar(s, Lead(s[0])) && Octets(s[Lead(s[0])..])
  {
    forall k: nat | StartsWithChar(s, k)
      ensures k == Lead(s[0])
    {
      assert s[..k][0] == s[0];
    }
  }

  predicate Scalar(cp: nat) {
    cp <= 0x10FFFF && !(0xD800 <= cp <= 0xDFFF)
  }

  /** The encoding table of section 3. */
  function Encode(cp: nat): seq<Byte>
    requires Scalar(cp)
  {
    if cp <= 0x7F then [cp]
    else if cp <= 0x7FF then [0xC0 + cp / 0x40, 0x80 + cp % 0x40]
    else if cp <= 0xFFFF then [0xE0 + cp / 0x1000, 0x80 + cp / 0x40 % 0x40, 0x80 + cp % 0x40]
    else [0xF0 + cp / 0x4_0000, 0x80 + cp / 0x1000 % 0x40, 0x80 + cp / 0x40 % 0x40, 0x80 + cp % 0x40]
  }

  /** The lowest bits of a byte. */
  function Low(b: Byte, limit: nat): (n: nat)
    requires limit > 0
    ensures n < limit
  {
    b % limit
  }

  /** The code point spelled by a lead byte and tails: the shifts and masks of the decoder. */
  function CodePoint(c: seq<Byte>): nat
    requires 1 <= |c| <= 4
  {
    if |c| == 1 then c[0]
    else if |c| == 2 then Low(c[0], 0x20) * 0x40 + Low(c[1], 0x40)
    else if |c| == 3 then Low(c[0], 0x10) * 0x1000 + Low(c[1], 0x40) * 0x40 + Low(c[2], 0x40)
    else Low(c[0], 8) * 0x4_0000 + Low(c[1], 0x40) * 0x1000 + Low(c[2], 0x40) * 0x40 + Low(c[3], 0x40)
  }

  lemma SixBitDigits(high: nat, low: nat)
    requires low < 0x40
    ensures (high * 0x40 + low) / 0x40 == high && (high * 0x40 + low) % 0x40 == low
  {
  }

  lemma SixBitShift(n: nat)
    ensures n / 0x1000 == n / 0x40 / 0x40 && n / 0x4_0000 == n / 0x40 / 0x40 / 0x40
  {
  }

  lemma ThreeDigits(x: nat, y: nat, z: nat)
    requires y < 0x40 && z < 0x40
    ensures var n := x * 0x1000 + y * 0x40 + z;
            n / 0x1000 == x && n / 0x40 % 0x40 == y && n % 0x40 == z
  {
    SixBitDigits(x * 0x40 + y, z);
    SixBitDigits(x, y);
    SixBitShift(x * 0x1000 + y * 0x40 + z);
  }

  lemma FourDigits(w: nat, x: nat, y: nat, z: nat)
    requires x < 0x40 && y < 0x40 && z < 0x40
    ensures var n := w * 0x4_0000 + x * 0x1000 + y * 0x40 + z;
            n / 0x4_0000 == w && n / 0x1000 % 0x40 == x && n / 0x40 % 0x40 == y && n % 0x40 == z
  {
    SixBitDigits(w * 0x1000 + x * 0x40 + y, z);
    ThreeDigits(w, x, y);
    SixBitShift(w * 0x4_0000 + x * 0x1000 + y * 0x40 + z);
  }

  lemma LeadBits(b: Byte)
    ensures 0xC0 <= b <= 0xDF ==> Low(b, 0x20) == b - 0xC0
    ensures 0xE0 <= b <= 0xEF ==> Low(b, 0x10) == b - 0xE0
    ensures 0xF0 <= b <= 0xF7 ==> Low(b, 8) == b - 0xF0
    ensures 0x80 <= b <= 0xBF ==> Low(b, 0x40) == b - 0x80
  {
  }

  lemma TwoBytes(c: seq<Byte>)
    requires Char(c) && |c| == 2
    ensures Scalar(CodePoint(c)) && Encode(CodePoint(c)) == c
  {
    hide Low;
    LeadBits(c[0]);
    LeadBits(c[1]);
    SixBitDigits(c[0] as int - 0xC0, c[1] as int - 0x80);
  }

  lemma ThreeBytes(c: seq<Byte>)
    requires Char(c) && |c| == 3
    ensures Scalar(CodePoint(c)) && Encode(CodePoint(c)) == c
  {
    hide Low;
    LeadBits(c[0]);
    LeadBits(c[1]);
    LeadBits(c[2]);
    var x, y, z := c[0] as int - 0xE0, c[1] as int - 0x80, c[2] as int - 0x80;
    var cp := CodePoint(c);
    assert cp == x * 0x1000 + y * 0x40 + z && 0x800 <= cp <= 0xFFFF;
    ThreeDigits(x, y, z);
  }

  lemma FourBytes(c: seq<Byte>)
    requires Char(c) && |c| == 4
    ensures Scalar(CodePoint(c)) && Encode(CodePoint(c)) == c
  {
    hide Low;
    LeadBits(c[0]);
    LeadBits(c[1]);
    LeadBits(c[2]);
    LeadBits(c[3]);
    var w, x, y, z := c[0] as int - 0xF0, c[1] as int - 0x80, c[2] as int - 0x80, c[3] as int - 0x80;
    var cp := CodePoint(c);
    assert cp == w * 0x4_0000 + x * 0x1000 + y * 0x40 + z && 0x1_0000 <= cp <= 0x10FFFF;
    FourDigits(w, x, y, z);
  }

  /** The rule UTF8-char describes exactly the encodings of the scalar values. */
  lemma CharsAreEncodings(c: seq<Byte>)
    requires Char(c)
    ensures Scalar(CodePoint(c)) && Encode(CodePoint(c)) == c
  {
    if |c| == 2 {
      TwoBytes(c);
    } else if |c| == 3 {
      ThreeBytes(c);
    } else if |c| == 4 {
      FourBytes(c);
    }
  }

  lemma EncodingsAreChars(cp: nat)
    requires Scalar(cp)
    ensures Char(Encode(cp)) && CodePoint(Encode(cp)) == cp
  {
    if cp <= 0x7FF {
      if cp > 0x7F { EncodesTwo(cp); }
    } else if cp <= 0xFFFF {
      EncodesThree(cp);
    } else {
      EncodesFour(cp);
    }
  }

  lemma EncodesTwo(cp: nat)
    requires 0x7F < cp <= 0x7FF
    ensures Char(Encode(cp)) && CodePoint(Encode(cp)) == cp
  {
    hide Low;
    var c := Encode(cp);
    LeadBits(c[0]);
    LeadBits(c[1]);
  }

  lemma EncodesThree(cp: nat)
    requires 0x7FF < cp <= 0xFFFF && Scalar(cp)
    ensures Char(Encode(cp)) && CodePoint(Encode(cp)) == cp
  {
    hide Low;
    var c := Encode(cp);
    LeadBits(c[0]);
    LeadBits(c[1]);
    LeadBits(c[2]);
    SixBitShift(cp);
  }

  lemma EncodesFour(cp: nat)
    requires 0xFFFF < cp && Scalar(cp)
    ensures Char(Encode(cp)) && CodePoint(Encode(cp)) == cp
  {
    hide Low;
    var c := Encode(cp);
    LeadBits(c[0]);
    LeadBits(c[1]);
    LeadBits(c[2]);
    LeadBits(c[3]);
    SixBitShift(cp);
    SixBitShift(cp / 0x40);
  }

  // -------------------------------------------------------- the plan parser's checker

  predicate Continuation(b: Byte) {
    b / 0x40 == 2  // the two highest bits are 10
  }

  lemma AfterOne(s: seq<Byte>)
    requires s != [] && s[0] <= 0x7F
    ensures Octets(s) <==> Octets(s[1..])
  {
    OctetsByLead(s);
    hide Octets;
  }

  lemma AfterTwo(s: seq<Byte>)
    requires s != [] && 0xC2 <= s[0] <= 0xDF
    ensures Octets(s) <==> |s| > 1 && Continuation(s[1]) && Octets(s[2..])
  {
    OctetsByLead(s);
    hide Octets;
  }

  lemma AfterThree(s: seq<Byte>)
    requires s != [] && 0xE0 <= s[0] <= 0xEF
    ensures Octets(s) <==>
              && |s| > 2 && Continuation(s[1]) && Continuation(s[2])
              && !(s[0] == 0xE0 && s[1] < 0xA0) && !(s[0] == 0xED && s[1] >= 0xA0)
              && Octets(s[3..])
  {
    OctetsByLead(s);
    hide Octets;
  }

  lemma AfterFour(s: seq<Byte>)
    requires s != [] && 0xF0 <= s[0] <= 0xF4
    ensures Octets(s) <==>
              && |s| > 3 && Continuation(s[1]) && Continuation(s[2]) && Continuation(s[3])
              && !(s[0] == 0xF0 && s[1] < 0x90) && !(s[0] == 0xF4 && s[1] >= 0x90)
              && Octets(s[4..])
  {
    OctetsByLead(s);
    hide Octets;
  }

  lemma NoOtherLead(s: seq<Byte>)
    requires s != [] && (0x80 <= s[0] < 0xC2 || 0xF4 < s[0])
    ensures !Octets(s)
  {
    OctetsByLead(s);
    hide Octets;
  }

  method IsUtf8(value: seq<Byte>) returns (ok: bool)
    ensures ok <==> Octets(value)
  {
    EmptyIsOctets();
    hide Octets, Continuation;
    assert value[0..] == value;
    var index := 0;
    while index < |value|
      invariant 0 <= index <= |value|
      invariant Octets(value) <==> Octets(value[index..])
    {
      ghost var here := value[index..];
      var first := value[index];
      index := index + 1;
      if first <= 0x7F {
        AfterOne(here);
        assert here[1..] == value[index..];
        continue;
      }
      if 0xC2 <= first <= 0xDF {
        AfterTwo(here);
        if index >= |value| || !Continuation(value[index]) { return false; }
        index := index + 1;
        assert here[2..] == value[index..];
        continue;
      }
      if 0xE0 <= first <= 0xEF {
        AfterThree(here);
        if index + 1 >= |value| { return false; }
        var second, third := value[index], value[index + 1];
        index := index + 2;
        if !Continuation(second) || !Continuation(third)
           || (first == 0xE0 && second < 0xA0) || (first == 0xED && second >= 0xA0) { return false; }
        assert here[3..] == value[index..];
        continue;
      }
      if 0xF0 <= first <= 0xF4 {
        AfterFour(here);
        if index + 2 >= |value| { return false; }
        var second, third, fourth := value[index], value[index + 1], value[index + 2];
        index := index + 3;
        if !Continuation(second) || !Continuation(third) || !Continuation(fourth)
           || (first == 0xF0 && second < 0x90) || (first == 0xF4 && second >= 0x90) { return false; }
        assert here[4..] == value[index..];
        continue;
      }
      NoOtherLead(here);
      return false;
    }
    assert value[index..] == [];
    ok := true;
  }

  lemma EmptyIsOctets()
    ensures Octets([])
  {
  }

  // ----------------------------------------------------- the workspace reader's checker

  /** NUL is never text; the text mode also refuses control characters. */
  predicate Refused(cp: nat, text: bool) {
    || cp == 0
    || (text && (cp == 0x7F || (cp < 0x20 && cp != 9 && cp != 10 && cp != 13) || 0x80 <= cp <= 0x9F))
  }

  /** Characters of which none is refused. */
  ghost predicate Accepted(s: seq<Byte>, text: bool)
    decreases |s|
  {
    s == [] || (exists k: nat :: StartsWithChar(s, k) && k > 0
                                 && !Refused(CodePoint(s[..k]), text) && Accepted(s[k..], text))
  }

  lemma AcceptedByLead(s: seq<Byte>, text: bool)
    requires s != []
    ensures Accepted(s, text) <==>
              var k := Lead(s[0]);
              StartsWithChar(s, k) && !Refused(CodePoint(s[..k]), text) && Accepted(s[k..], text)
  {
    forall k: nat | StartsWithChar(s, k)
      ensures k == Lead(s[0])
    {
      assert s[..k][0] == s[0];
    }
  }

  lemma EmptyIsAccepted(text: bool)
    ensures Accepted([], text)
  {
  }

  lemma DecodesTwo(s: seq<Byte>)
    requires |s| > 1 && 0xC2 <= s[0] <= 0xDF
    ensures StartsWithChar(s, 2) <==> Continuation(s[1])
  {
  }

  lemma DecodesThree(s: seq<Byte>)
    requires |s| > 2 && 0xE0 <= s[0] <= 0xEF && Continuation(s[1]) && Continuation(s[2])
    ensures var cp := CodePoint(s[..3]);
            StartsWithChar(s, 3) <==> cp >= 0x800 && !(0xD800 <= cp <= 0xDFFF)
  {
    hide Low;
    LeadBits(s[0]);
    LeadBits(s[1]);
    LeadBits(s[2]);
  }

  lemma DecodesFour(s: seq<Byte>)
    requires |s| > 3 && 0xF0 <= s[0] <= 0xF4
    requires Continuation(s[1]) && Continuation(s[2]) && Continuation(s[3])
    ensures StartsWithChar(s, 4) <==> 0x1_0000 <= CodePoint(s[..4]) <= 0x10FFFF
  {
    hide Low;
    LeadBits(s[0]);
    LeadBits(s[1]);
    LeadBits(s[2]);
    LeadBits(s[3]);
  }

  /** A character needs its lead byte and as many continuation bytes as that announces. */
  lemma NothingDecodes(s: seq<Byte>)
    requires s != [] && s[0] >= 0x80
    ensures StartsWithChar(s, Lead(s[0])) ==>
              || (0xC2 <= s[0] <= 0xDF && 1 < |s| && Continuation(s[1]))
              || (0xE0 <= s[0] <= 0xEF && 2 < |s| && Continuation(s[1]) && Continuation(s[2]))
              || (0xF0 <= s[0] <= 0xF4 && 3 < |s|
                  && Continuation(s[1]) && Continuation(s[2]) && Continuation(s[3]))
  {
  }

  /** The decoder's next character: its length, or nothing if the bytes do not form one. */
  method Decode(s: seq<Byte>) returns (length: nat, cp: nat)
    requires s != []
    ensures length <= |s|
    ensures length > 0 ==> StartsWithChar(s, length) && length == Lead(s[0]) && cp == CodePoint(s[..length])
    ensures length == 0 ==> !StartsWithChar(s, Lead(s[0]))
  {
    hide Continuation, Low;
    var c := s[0];
    if c < 0x80 { return 1, c; }
    hide StartsWithChar;
    NothingDecodes(s);
    if 0xC2 <= c <= 0xDF && 1 < |s| && Continuation(s[1]) {
      DecodesTwo(s);
      length, cp := 2, Low(c, 0x20) * 0x40 + Low(s[1], 0x40);
    } else if 0xE0 <= c <= 0xEF && 2 < |s| && Continuation(s[1]) && Continuation(s[2]) {
      DecodesThree(s);
      length, cp := 3, Low(c, 0x10) * 0x1000 + Low(s[1], 0x40) * 0x40 + Low(s[2], 0x40);
      if cp < 0x800 || 0xD800 <= cp <= 0xDFFF { length := 0; }
    } else if 0xF0 <= c <= 0xF4 && 3 < |s| && Continuation(s[1]) && Continuation(s[2]) && Continuation(s[3]) {
      DecodesFour(s);
      length := 4;
      cp := Low(c, 8) * 0x4_0000 + Low(s[1], 0x40) * 0x1000 + Low(s[2], 0x40) * 0x40 + Low(s[3], 0x40);
      if cp < 0x1_0000 || cp > 0x10FFFF { length := 0; }
    } else {
      length, cp := 0, 0;
    }
  }

  method ValidUtf8Mode(s: seq<Byte>, text: bool) returns (ok: bool)
    ensures ok <==> Accepted(s, text)
  {
    hide CodePoint, Refused, StartsWithChar, Accepted;
    var i := 0;
    assert s[0..] == s;
    EmptyIsAccepted(text);
    while i < |s|
      invariant 0 <= i <= |s|
      invariant Accepted(s, text) <==> Accepted(s[i..], text)
    {
      ghost var here := s[i..];
      AcceptedByLead(here, text);
      var length, cp := Decode(s[i..]);
      if length == 0 || Refused(cp, text) { return false; }
      assert here[length..] == s[i + length..];
      i := i + length;
    }
    assert s[i..] == [];
    ok := true;
  }

  // ------------------------------------------------------------------- equivalence

  /** Outside text mode the two checkers agree on every string without a NUL byte, and on no other. */
  lemma {:induction false} CheckersAgree(s: seq<Byte>)
    ensures Accepted(s, false) <==> Octets(s) && 0 !in s
    decreases |s|
  {
    if s != [] {
      var k := Lead(s[0]);
      OctetsByLead(s);
      AcceptedByLead(s, false);
      if StartsWithChar(s, k) {
        CheckersAgree(s[k..]);
        CharWithoutNul(s[..k]);
        assert s == s[..k] + s[k..];
      }
    }
  }

  lemma CharWithoutNul(c: seq<Byte>)
    requires Char(c)
    ensures CodePoint(c) == 0 <==> 0 in c
  {
  }

  predicate Scalars(points: seq<nat>) {
    forall i | 0 <= i < |points| :: Scalar(points[i])
  }

  /** What the grammar admits is exactly the encodings of sequences of scalar values. */
  function EncodeAll(points: seq<nat>): seq<Byte>
    requires Scalars(points)
  {
    if points == [] then [] else Encode(points[0]) + EncodeAll(points[1..])
  }

  lemma OneMore(point: nat, rest: seq<nat>)
    requires Scalar(point) && Scalars(rest)
    ensures Scalars([point] + rest) && EncodeAll([point] + rest) == Encode(point) + EncodeAll(rest)
  {
    hide Scalar, Encode;
    assert ([point] + rest)[1..] == rest;
  }

  lemma {:induction false} OctetsAreEncodings(s: seq<Byte>)
    requires Octets(s)
    ensures exists points: seq<nat> :: Scalars(points) && EncodeAll(points) == s
    decreases |s|
  {
    hide Char, Encode, CodePoint, Scalar;
    if s == [] {
      assert Scalars([]) && EncodeAll([]) == s;
    } else {
      var k := Lead(s[0]);
      OctetsByLead(s);
      OctetsAreEncodings(s[k..]);
      hide Octets, Scalars;
      var rest: seq<nat> :| Scalars(rest) && EncodeAll(rest) == s[k..];
      CharsAreEncodings(s[..k]);
      OneMore(CodePoint(s[..k]), rest);
      assert s[..k] + s[k..] == s;
    }
  }

  lemma {:induction false} EncodingsAreOctets(points: seq<nat>)
    requires Scalars(points)
    ensures Octets(EncodeAll(points))
  {
    hide Char, Encode, CodePoint, Scalar;
    if points != [] {
      EncodingsAreOctets(points[1..]);
      EncodingsAreChars(points[0]);
      var s, k := EncodeAll(points), |Encode(points[0])|;
      assert s[..k] == Encode(points[0]) && s[k..] == EncodeAll(points[1..]);
      assert StartsWithChar(s, k);
    }
  }

  // -------------------------------------------------------------- text, byte by byte

  /** Of the bytes below 0x80, text mode takes tab, line feed, carriage return and what can be printed. */
  lemma AsciiText(b: Byte)
    requires b < 0x80
    ensures Accepted([b], false) <==> b != 0
    ensures Accepted([b], true) <==> b == 9 || b == 10 || b == 13 || 0x20 <= b <= 0x7E
  {
    assert [b][..1] == [b] && [b][1..] == [];
    AcceptedByLead([b], false);
    AcceptedByLead([b], true);
    EmptyIsAccepted(false);
    EmptyIsAccepted(true);
  }

  /** Of the characters of two bytes, text mode refuses U+0080 to U+009F only. */
  lemma TwoByteText(lead: Byte, tail: Byte)
    requires 0xC2 <= lead <= 0xDF && 0x80 <= tail <= 0xBF
    ensures Accepted([lead, tail], false)
    ensures Accepted([lead, tail], true) <==> !(lead == 0xC2 && tail <= 0x9F)
  {
    var s := [lead, tail];
    assert s[..2] == s && s[2..] == [];
    LeadBits(lead);
    LeadBits(tail);
    hide Low;
    AcceptedByLead(s, false);
    AcceptedByLead(s, true);
    EmptyIsAccepted(false);
    EmptyIsAccepted(true);
  }

  /** Longer characters are never control characters. */
  lemma LongerText(c: seq<Byte>)
    requires Char(c) && |c| >= 3
    ensures Accepted(c, false) && Accepted(c, true)
  {
    assert c[..|c|] == c && c[|c|..] == [];
    CharsAreEncodings(c);
    LongEncodingsAreLarge(CodePoint(c));
    AcceptedByLead(c, false);
    AcceptedByLead(c, true);
    EmptyIsAccepted(false);
    EmptyIsAccepted(true);
  }

  lemma LongEncodingsAreLarge(cp: nat)
    requires Scalar(cp) && |Encode(cp)| >= 3
    ensures cp > 0x7FF
  {
  }
}
