/** Strict UTF-8 (RFC 3629, sections 3 and 4), the codec behind `bytes.decode("utf-8")` and
    `str.encode("utf-8")` in the guard and in the marker writer. */
module Utf8 {
  import opened Text

  predicate IsTail(b: int) {
    0x80 <= b <= 0xBF
  }

  /** The second byte is what excludes overlong forms, surrogates and values above U+10FFFF. */
  predicate SecondByteFits(first: int, second: int) {
    (if first == 0xE0 then 0xA0 else if first == 0xF0 then 0x90 else 0x80)
    <= second <=
    (if first == 0xED then 0x9F else if first == 0xF4 then 0x8F else 0xBF)
  }

  /** How many bytes a character starting with `first` occupies; 0 when none can start so. */
  function Width(first: int): (n: nat)
    ensures n <= 4
  {
    if 0 <= first <= 0x7F then 1
    else if 0xC2 <= first <= 0xDF then 2
    else if 0xE0 <= first <= 0xEF then 3
    else if 0xF0 <= first <= 0xF4 then 4
    else 0
  }

  predicate StartsWithCharacter(b: Bytes) {
    && b != []
    && 0 < Width(b[0]) <= |b|
    && (Width(b[0]) >= 2 ==> SecondByteFits(b[0], b[1]))
    && (Width(b[0]) >= 3 ==> IsTail(b[2]))
    && (Width(b[0]) == 4 ==> IsTail(b[3]))
  }

  /** The bytes of exactly one character. */
  predicate IsCharacter(b: Bytes) {
    StartsWithCharacter(b) && |b| == Width(b[0])
  }

  /** The character at the start of `b`. */
  function FirstCharacter(b: Bytes): (c: int)
    requires StartsWithCharacter(b)
    ensures IsScalar(c)
  {
    var x: int := b[0];
    if Width(x) == 1 then x
    else
      var y: int := b[1] as int - 0x80;
      if Width(x) == 2 then (x - 0xC0) * 64 + y
      else
        var z: int := b[2] as int - 0x80;
        if Width(x) == 3 then (x - 0xE0) * 4096 + y * 64 + z
        else (x - 0xF0) * 262144 + y * 4096 + z * 64 + (b[3] as int - 0x80)
  }

  /** `raw.decode("utf-8")`: None stands for UnicodeDecodeError. */
  function Decode(b: Bytes): (t: Option<Text>)
    ensures t.Some? ==> IsScalarText(t.value)
  {
    if b == [] then Some([])
    else if !StartsWithCharacter(b) then None
    else
      match Decode(b[Width(b[0])..])
      case None => None
      case Some(rest) => Some([FirstCharacter(b)] + rest)
  }

  function EncodeCharacter(c: int): (b: Bytes)
    requires IsScalar(c)
    ensures 1 <= |b| <= 4
    ensures c <= 0x7F ==> b == [c]
  {
    if c <= 0x7F then [c]
    else if c <= 0x7FF then [0xC0 + c / 64, 0x80 + c % 64]
    else
      var high := c / 64;
      if c <= 0xFFFF then [0xE0 + high / 64, 0x80 + high % 64, 0x80 + c % 64]
      else [0xF0 + high / 64 / 64, 0x80 + high / 64 % 64, 0x80 + high % 64, 0x80 + c % 64]
  }

  /** `text.encode("utf-8")`; text with a surrogate makes Python raise. */
  function Encode(t: Text): (b: Bytes)
    requires IsScalarText(t)
  {
    if t == [] then [] else EncodeCharacter(t[0]) + Encode(t[1..])
  }

  lemma EncodedCharacterDecodes(c: int)
    requires IsScalar(c)
    ensures IsCharacter(EncodeCharacter(c))
    ensures FirstCharacter(EncodeCharacter(c)) == c
  {
    var b := EncodeCharacter(c);
    var high := c / 64;
    var top := high / 64;
    assert c == high * 64 + c % 64;
    assert high == top * 64 + high % 64;
    assert top == top / 64 * 64 + top % 64;
    if c <= 0x7F {
    } else if c <= 0x7FF {
      assert b[0] == 0xC0 + high && b[1] == 0x80 + c % 64;
    } else if c <= 0xFFFF {
      assert b[0] == 0xE0 + top && b[1] == 0x80 + high % 64 && b[2] == 0x80 + c % 64;
    } else {
      assert b[0] == 0xF0 + top / 64 && b[1] == 0x80 + top % 64;
      assert b[2] == 0x80 + high % 64 && b[3] == 0x80 + c % 64;
    }
  }

  lemma StartsSame(c: Bytes, more: Bytes)
    requires IsCharacter(c)
    ensures var b := c + more;
      b != [] && StartsWithCharacter(b) && Width(b[0]) == |c| && FirstCharacter(b) == FirstCharacter(c)
  {
    hide IsTail, SecondByteFits;
    var b := c + more;
    assert b[0] == c[0] && (|c| > 1 ==> b[1] == c[1]) && (|c| > 2 ==> b[2] == c[2]) && (|c| > 3 ==> b[3] == c[3]);
  }

  /** Reading the first character never looks past its own width. */
  lemma DecodeCons(c: Bytes, more: Bytes)
    requires IsCharacter(c)
    ensures Decode(c + more) ==
            if Decode(more).None? then None else Some([FirstCharacter(c)] + Decode(more).value)
  {
    hide StartsWithCharacter, FirstCharacter, Width, IsCharacter;
    StartsSame(c, more);
    assert (c + more)[|c|..] == more;
  }

  /** One character off the front, with and without bytes appended behind. */
  lemma DecodeStep(a: Bytes, b: Bytes) returns (w: nat, c: int)
    requires a != [] && Decode(a).Some?
    ensures 0 < w <= |a|
    ensures Decode(a[w..]).Some? && Decode(a).value == [c] + Decode(a[w..]).value
    ensures Decode(a + b) ==
            if Decode(a[w..] + b).None? then None else Some([c] + Decode(a[w..] + b).value)
  {
    w := Width(a[0]);
    c := FirstCharacter(a[..w]);
    assert a[..w] + a[w..] == a;
    assert a[..w] + (a[w..] + b) == a + b;
    DecodeCons(a[..w], a[w..]);
    DecodeCons(a[..w], a[w..] + b);
  }

  /** Decoding distributes over concatenation once the left part is complete. */
  lemma {:induction false} DecodeConcat(a: Bytes, b: Bytes)
    requires Decode(a).Some?
    ensures Decode(a + b) ==
            if Decode(b).None? then None else Some(Decode(a).value + Decode(b).value)
    decreases |a|
  {
    if a == [] {
      assert a + b == b;
      assert Decode(b).Some? ==> [] + Decode(b).value == Decode(b).value;
    } else {
      hide Decode;
      var w, c := DecodeStep(a, b);
      DecodeConcat(a[w..], b);
      if Decode(b).Some? {
        assert [c] + (Decode(a[w..]).value + Decode(b).value) == ([c] + Decode(a[w..]).value) + Decode(b).value;
      }
    }
  }

  /** Decoding undoes encoding. */
  lemma {:induction false} DecodeEncode(t: Text)
    requires IsScalarText(t)
    ensures Decode(Encode(t)) == Some(t)
  {
    if t != [] {
      var c := EncodeCharacter(t[0]);
      EncodedCharacterDecodes(t[0]);
      DecodeEncode(t[1..]);
      DecodeCons(c, Encode(t[1..]));
      assert [t[0]] + t[1..] == t;
    }
  }

  lemma CharacterEncodes(b: Bytes)
    requires StartsWithCharacter(b)
    ensures EncodeCharacter(FirstCharacter(b)) == b[..Width(b[0])]
  {
    var x, c := b[0], FirstCharacter(b);
    var high := c / 64;
    if Width(x) == 2 {
      assert c == (x - 0xC0) * 64 + (b[1] - 0x80);
      assert high == x - 0xC0 && c % 64 == b[1] - 0x80;
    } else if Width(x) == 3 {
      assert c == ((x - 0xE0) * 64 + (b[1] - 0x80)) * 64 + (b[2] - 0x80);
      assert high == (x - 0xE0) * 64 + (b[1] - 0x80) && c % 64 == b[2] - 0x80;
    } else if Width(x) == 4 {
      assert c == (((x - 0xF0) * 64 + (b[1] - 0x80)) * 64 + (b[2] - 0x80)) * 64 + (b[3] - 0x80);
      assert high == ((x - 0xF0) * 64 + (b[1] - 0x80)) * 64 + (b[2] - 0x80) && c % 64 == b[3] - 0x80;
      assert high / 64 == (x - 0xF0) * 64 + (b[1] - 0x80);
    }
  }

  /** And encoding undoes decoding: each text has one form, and only that form is accepted. */
  lemma {:induction false} EncodeDecode(b: Bytes)
    requires Decode(b).Some?
    ensures Encode(Decode(b).value) == b
  {
    hide StartsWithCharacter, FirstCharacter, EncodeCharacter;
    if b != [] {
      StepDecodes(b);
      var rest := b[Width(b[0])..];
      CharacterEncodes(b);
      EncodeDecode(rest);
      assert b == b[..Width(b[0])] + rest;
    }
  }

  lemma StepDecodes(b: Bytes)
    requires b != [] && Decode(b).Some?
    ensures StartsWithCharacter(b) && Decode(b[Width(b[0])..]).Some?
    ensures Decode(b).value == [FirstCharacter(b)] + Decode(b[Width(b[0])..]).value
  {
  }

  lemma {:induction false} EncodeConcat(a: Text, b: Text)
    requires IsScalarText(a) && IsScalarText(b)
    ensures IsScalarText(a + b)
    ensures Encode(a + b) == Encode(a) + Encode(b)
  {
    assert IsScalarText(a + b);
    if a == [] {
      assert a + b == b;
    } else {
      assert (a + b)[0] == a[0];
      assert (a + b)[1..] == a[1..] + b;
      EncodeConcat(a[1..], b);
      var x, y, z := EncodeCharacter(a[0]), Encode(a[1..]), Encode(b);
      assert x + (y + z) == (x + y) + z;
    }
  }

  /** A cut of encoded text, even inside a character, decodes to nothing or to a strict
      prefix of that text. */
  lemma CutDecodesToStrictPrefix(t: Text, n: nat)
    requires IsScalarText(t) && n < |Encode(t)|
    ensures
      var cut := Decode(Encode(t)[..n]);
      cut.Some? ==> |cut.value| < |t| && t[..|cut.value|] == cut.value
  {
    hide Encode, Decode;
    var b := Encode(t);
    if Decode(b[..n]).Some? {
      DecodeEncode(t);
      assert b[..n] + b[n..] == b;
      DecodeConcat(b[..n], b[n..]);
      var tail := Decode(b[n..]);
      SomethingDecodes(b[n..]);
      assert Decode(b[..n]).value + tail.value == t;
    }
  }

  lemma SomethingDecodes(b: Bytes)
    requires b != [] && Decode(b).Some?
    ensures Decode(b).value != []
  {
  }

  /** The number of bytes text occupies once encoded. */
  function Size(t: Text): (n: nat)
    requires IsScalarText(t)
  {
    |Encode(t)|
  }

  lemma {:induction false} SizeBounds(t: Text)
    requires IsScalarText(t)
    ensures |t| <= Size(t) <= 4 * |t|
  {
    if t != [] {
      SizeBounds(t[1..]);
    }
  }

  lemma {:induction false} AsciiSize(t: Text)
    requires IsScalarText(t) && forall i :: 0 <= i < |t| ==> t[i] <= 0x7F
    ensures Size(t) == |t|
  {
    if t != [] {
      AsciiSize(t[1..]);
    }
  }
}
