/** UTF-8 as src/format/toml.cpp checks and writes it. A char stands for one byte, below 256. */
module Utf8 {

  /** A Unicode scalar value: no surrogate, at most U+10FFFF. */
  predicate IsScalar(c: int) {
    0 <= c < 0xD800 || 0xE000 <= c <= 0x10FFFF
  }

  function Byte(b: int): (c: char)
    requires 0 <= b < 0x100
    ensures c as int == b
  {
    b as char
  }

  /** append_utf8(): the one to four bytes of a scalar value. The high bits of each byte and the bits of
      the value do not overlap, so they are added here. */
  function Encode(c: int): (s: string)
    requires IsScalar(c)
    ensures 1 <= |s| <= 4
  {
    if c <= 0x7F then [Byte(c)]
    else if c <= 0x7FF then [Byte(0xC0 + c / 0x40), Byte(0x80 + c % 0x40)]
    else if c <= 0xFFFF then [Byte(0xE0 + c / 0x1000), Byte(0x80 + c / 0x40 % 0x40), Byte(0x80 + c % 0x40)]
    else [Byte(0xF0 + c / 0x40000), Byte(0x80 + c / 0x1000 % 0x40), Byte(0x80 + c / 0x40 % 0x40), Byte(0x80 + c % 0x40)]
  }

  predicate AllScalars(cs: seq<int>) {
    forall i :: 0 <= i < |cs| ==> IsScalar(cs[i])
  }

  function EncodeAll(cs: seq<int>): string
    requires AllScalars(cs)
  {
    if cs == [] then "" else Encode(cs[0]) + EncodeAll(cs[1..])
  }

  // ---- Unicode Table 3-7 ----

  function Length(lead: int): nat {
    if lead <= 0x7F then 1
    else if 0xC2 <= lead <= 0xDF then 2
    else if 0xE0 <= lead <= 0xEF then 3
    else if 0xF0 <= lead <= 0xF4 then 4
    else 0
  }

  /** The second byte of a sequence: some leads allow only part of the range. */
  predicate IsSecond(lead: int, second: int) {
    && (if lead == 0xE0 then 0xA0 else if lead == 0xF0 then 0x90 else 0x80) <= second
    && second <= (if lead == 0xED then 0x9F else if lead == 0xF4 then 0x8F else 0xBF)
  }

  predicate IsTrail(b: int) {
    0x80 <= b <= 0xBF
  }

  /** How long the well-formed sequence is that a text starts with, 0 for none. */
  function Head(t: string): (n: nat)
    ensures n <= |t|
  {
    if t == "" then 0
    else
      var n := Length(t[0] as int);
      if |t| < n then 0
      else if n < 2 then n
      else if !IsSecond(t[0] as int, t[1] as int) then 0
      else if n > 2 && !IsTrail(t[2] as int) then 0
      else if n > 3 && !IsTrail(t[3] as int) then 0
      else n
  }

  predicate IsUtf8(t: string)
    decreases |t|
  {
    t == "" || (Head(t) > 0 && IsUtf8(t[Head(t)..]))
  }

  /** Whether the k-th byte of the sequence that starts at i is one it may have. */
  predicate Fits(text: string, i: nat, k: nat)
    requires k >= 1 && i + k < |text|
  {
    if k == 1 then IsSecond(text[i] as int, text[i + 1] as int) else IsTrail(text[i + k] as int)
  }

  lemma Slice(text: string, i: nat, n: nat)
    requires i + n <= |text|
    ensures text[i..][n..] == text[i + n..] && forall k :: 0 <= k < |text| - i ==> text[i..][k] == text[i + k]
  {
  }

  /** A sequence whose bytes all fit is passed over. */
  lemma WholeSequence(text: string, i: nat, n: nat)
    requires i < |text| && n == Length(text[i] as int) > 0 && i + n <= |text|
    requires forall k :: 1 <= k < n ==> Fits(text, i, k)
    ensures IsUtf8(text[i..]) == IsUtf8(text[i + n..])
  {
    Slice(text, i, n);
    assert n <= 4;
    assert (n > 1 ==> Fits(text, i, 1)) && (n > 2 ==> Fits(text, i, 2)) && (n > 3 ==> Fits(text, i, 3));
    hide Length, IsSecond, IsTrail;
    assert Head(text[i..]) == n;
  }

  /** One that is cut short, or has a byte that does not fit, ends it. */
  lemma BrokenSequence(text: string, i: nat, n: nat, k: nat)
    requires i < |text| && n == Length(text[i] as int)
    requires n == 0 || i + n > |text| || (1 <= k < n && i + n <= |text| && !Fits(text, i, k))
    ensures !IsUtf8(text[i..])
  {
    Slice(text, i, 0);
    assert n <= 4;
    hide Length, IsSecond, IsTrail;
    assert Head(text[i..]) == 0;
  }

  /** is_valid_utf8() */
  method IsValidUtf8(text: string) returns (valid: bool)
    ensures valid == IsUtf8(text)
  {
    hide IsUtf8, Head;
    var i := 0;
    assert text[0..] == text;
    while i < |text|
      invariant i <= |text| && IsUtf8(text) == IsUtf8(text[i..])
    {
      var lead := text[i] as int;
      var length, low, high := 0, 0x80, 0xBF;
      if lead <= 0x7F {
        WholeSequence(text, i, 1);
        i := i + 1;
        continue;
      } else if lead >= 0xC2 && lead <= 0xDF {
        length := 2;
      } else if lead == 0xE0 {
        length, low := 3, 0xA0;
      } else if lead == 0xED {
        length, high := 3, 0x9F;
      } else if lead >= 0xE1 && lead <= 0xEF {
        length := 3;
      } else if lead == 0xF0 {
        length, low := 4, 0x90;
      } else if lead == 0xF4 {
        length, high := 4, 0x8F;
      } else if lead >= 0xF1 && lead <= 0xF3 {
        length := 4;
      } else {
        BrokenSequence(text, i, 0, 0);
        return false;
      }
      assert length == Length(lead) && forall b :: low <= b <= high <==> IsSecond(lead, b);
      if |text| - i < length {
        BrokenSequence(text, i, length, 0);
        return false;
      }
      hide Length, IsSecond;
      for k := 1 to length
        invariant k == 1 ==> forall b :: low <= b <= high <==> IsSecond(lead, b)
        invariant k > 1 ==> low == 0x80 && high == 0xBF
        invariant forall j :: 1 <= j < k ==> Fits(text, i, j)
      {
        var byte := text[i + k] as int;
        if byte < low || byte > high {
          BrokenSequence(text, i, length, k);
          return false;
        }
        low, high := 0x80, 0xBF;
      }
      WholeSequence(text, i, length);
      i := i + length;
    }
    assert text[|text|..] == "" && IsUtf8("") by {
      EmptyIsUtf8();
    }
    valid := true;
  }

  lemma EmptyIsUtf8()
    ensures IsUtf8("")
  {
  }

  // ---- the bytes and the scalar values they stand for ----

  /** The scalar value of the sequence a text starts with. */
  function Decode(t: string): (c: int)
    requires Head(t) > 0
    ensures IsScalar(c)
  {
    var a := t[0] as int;
    if Head(t) == 1 then a
    else if Head(t) == 2 then (a - 0xC0) * 0x40 + (t[1] as int - 0x80)
    else if Head(t) == 3 then (a - 0xE0) * 0x1000 + (t[1] as int - 0x80) * 0x40 + (t[2] as int - 0x80)
    else (a - 0xF0) * 0x40000 + (t[1] as int - 0x80) * 0x1000 + (t[2] as int - 0x80) * 0x40 + (t[3] as int - 0x80)
  }

  lemma Remainders(a: int, b: int, c: int, d: int)
    requires 0 <= b < 0x40 && 0 <= c < 0x40 && 0 <= d < 0x40
    ensures (a * 0x40 + d) / 0x40 == a && (a * 0x40 + d) % 0x40 == d
  {
  }

  lemma DecodeEncodes(t: string)
    requires Head(t) > 0
    ensures Encode(Decode(t)) == t[..Head(t)]
  {
    if Head(t) == 2 {
      Remainders(t[0] as int - 0xC0, 0, 0, t[1] as int - 0x80);
    } else if Head(t) == 3 {
      DecodeEncodes3(t);
    } else if Head(t) == 4 {
      DecodeEncodes4(t);
    }
  }

  lemma DecodeEncodes3(t: string)
    requires Head(t) == 3
    ensures Encode(Decode(t)) == t[..3]
  {
    var a, x, y := t[0] as int - 0xE0, t[1] as int - 0x80, t[2] as int - 0x80;
    Remainders(a * 0x40 + x, 0, 0, y);
    Remainders(a, 0, 0, x);
  }

  lemma DecodeEncodes4(t: string)
    requires Head(t) == 4
    ensures Encode(Decode(t)) == t[..4]
  {
    var a, x, y, z := t[0] as int - 0xF0, t[1] as int - 0x80, t[2] as int - 0x80, t[3] as int - 0x80;
    Remainders((a * 0x40 + x) * 0x40 + y, 0, 0, z);
    Remainders(a * 0x40 + x, 0, 0, y);
    Remainders(a, 0, 0, x);
  }

  lemma EncodeDecodes(c: int, rest: string)
    requires IsScalar(c)
    ensures Head(Encode(c) + rest) == |Encode(c)| && Decode(Encode(c) + rest) == c
  {
    Sixes(c);
    if c <= 0x7F {
    } else if c <= 0x7FF {
      HeadOfTwo(Encode(c) + rest);
    } else if c <= 0xFFFF {
      HeadOfThree(Encode(c) + rest);
    } else {
      HeadOfFour(Encode(c) + rest);
    }
  }

  /** A value by its groups of six bits. */
  lemma Sixes(c: nat)
    ensures c == c / 0x40 * 0x40 + c % 0x40
    ensures c / 0x40 == c / 0x1000 * 0x40 + c / 0x40 % 0x40
    ensures c / 0x1000 == c / 0x40000 * 0x40 + c / 0x1000 % 0x40
  {
  }

  lemma HeadOfTwo(t: string)
    requires |t| >= 2 && 0xC2 <= t[0] as int <= 0xDF && IsTrail(t[1] as int)
    ensures Head(t) == 2
  {
  }

  lemma HeadOfThree(t: string)
    requires |t| >= 3 && 0xE0 <= t[0] as int <= 0xEF && IsSecond(t[0] as int, t[1] as int) && IsTrail(t[2] as int)
    ensures Head(t) == 3
  {
  }

  lemma HeadOfFour(t: string)
    requires |t| >= 4 && 0xF0 <= t[0] as int <= 0xF4 && IsSecond(t[0] as int, t[1] as int)
    requires IsTrail(t[2] as int) && IsTrail(t[3] as int)
    ensures Head(t) == 4
  {
  }

  /** Every text of encoded scalar values is accepted. */
  lemma {:induction false} EncodedIsUtf8(cs: seq<int>)
    requires AllScalars(cs)
    ensures IsUtf8(EncodeAll(cs))
  {
    if cs != [] {
      EncodeDecodes(cs[0], EncodeAll(cs[1..]));
      EncodedIsUtf8(cs[1..]);
      hide Encode, Head;
      assert EncodeAll(cs)[|Encode(cs[0])|..] == EncodeAll(cs[1..]);
    }
  }

  /** And no other text is: an accepted one is encoded scalar values. */
  lemma {:induction false} Utf8IsEncoded(t: string) returns (cs: seq<int>)
    requires IsUtf8(t)
    ensures AllScalars(cs) && EncodeAll(cs) == t
    decreases |t|
  {
    if t == "" {
      cs := [];
    } else {
      var n := Head(t);
      DecodeEncodes(t);
      var rest := Utf8IsEncoded(t[n..]);
      cs := [Decode(t)] + rest;
      assert cs[1..] == rest;
      assert t == t[..n] + t[n..];
    }
  }

  /** The values are determined by the text. */
  lemma {:induction false} EncodingIsUnique(a: seq<int>, b: seq<int>)
    requires AllScalars(a) && AllScalars(b) && EncodeAll(a) == EncodeAll(b)
    ensures a == b
  {
    if a != [] {
      EncodeDecodes(a[0], EncodeAll(a[1..]));
    }
    if b != [] {
      EncodeDecodes(b[0], EncodeAll(b[1..]));
    }
    hide Encode, Head, Decode;
    if a != [] && b != [] {
      assert EncodeAll(a)[|Encode(a[0])|..] == EncodeAll(a[1..]);
      assert EncodeAll(b)[|Encode(b[0])|..] == EncodeAll(b[1..]);
      EncodingIsUnique(a[1..], b[1..]);
    }
  }

  // ---- joining and cutting ----

  predicate IsAscii(c: char) {
    c as int <= 0x7F
  }

  lemma AsciiHead(c: char, b: string)
    requires IsAscii(c)
    ensures Head([c] + b) == 1 && IsUtf8([c] + b) == IsUtf8(b)
  {
    assert ([c] + b)[1..] == b;
  }

  lemma HeadBeforeAscii(a: string, c: char, b: string)
    requires IsAscii(c) && a != ""
    ensures Head(a + [c] + b) == Head(a)
  {
    var t := a + [c] + b;
    assert t[0] == a[0];
    var n := Length(a[0] as int);
    if |a| < n && |t| >= n {
      assert t[|a|] == c;
    }
  }

  /** No sequence goes on over an ASCII character, so what is before it is whole. */
  lemma {:induction false} CutAtAscii(a: string, c: char, b: string)
    requires IsAscii(c)
    ensures IsUtf8(a + [c] + b) <==> IsUtf8(a) && IsUtf8(b)
    decreases |a|
  {
    if a == "" {
      assert a + [c] + b == [c] + b;
      AsciiHead(c, b);
    } else {
      HeadBeforeAscii(a, c, b);
      hide Head;
      if Head(a) > 0 {
        assert (a + [c] + b)[Head(a)..] == a[Head(a)..] + [c] + b;
        CutAtAscii(a[Head(a)..], c, b);
      }
    }
  }
}
