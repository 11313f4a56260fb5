/** The stable target handle: packed filesystem identities, their base64 text (section 4 of
    RFC 4648), and the two forms a handle is stored in. */
module TargetHandle {
  import opened Text
  import opened Json

  // ---------------------------------------------------------------- base64

  predicate IsByte(b: int) {
    0 <= b < 256
  }

  predicate AreBytes(b: Bytes) {
    forall i :: 0 <= i < |b| ==> IsByte(b[i])
  }

  const PAD := 0x3D

  /** The letter for a 6-bit value. */
  function Letter(v: int): (c: int)
    requires 0 <= v < 64
  {
    if v < 26 then 0x41 + v
    else if v < 52 then 0x61 + v - 26
    else if v < 62 then 0x30 + v - 52
    else if v == 62 then 0x2B
    else 0x2F
  }

  /** The 6-bit value of a letter, or -1. */
  function Sextet(c: int): (v: int)
    ensures -1 <= v < 64
  {
    if 0x41 <= c <= 0x5A then c - 0x41
    else if 0x61 <= c <= 0x7A then c - 0x61 + 26
    else if 0x30 <= c <= 0x39 then c - 0x30 + 52
    else if c == 0x2B then 62
    else if c == 0x2F then 63
    else -1
  }

  function Encode(b: Bytes): (t: Text)
    requires AreBytes(b)
  {
    if b == [] then []
    else if |b| == 1 then [Letter(b[0] / 4), Letter(b[0] % 4 * 16), PAD, PAD]
    else if |b| == 2 then [Letter(b[0] / 4), Letter(b[0] % 4 * 16 + b[1] / 16), Letter(b[1] % 16 * 4), PAD]
    else
      [Letter(b[0] / 4), Letter(b[0] % 4 * 16 + b[1] / 16), Letter(b[1] % 16 * 4 + b[2] / 64), Letter(b[2] % 64)] +
      Encode(b[3..])
  }

  /** Strict decoding: whole groups of four, padding only at the very end; bits of the last letter
      that no byte takes are not looked at. */
  function Decode(t: Text): (b: Option<Bytes>)
  {
    if t == [] then Some([])
    else if |t| < 4 || Sextet(t[0]) < 0 || Sextet(t[1]) < 0 then None
    else
      var first := Sextet(t[0]) * 4 + Sextet(t[1]) / 16;
      if |t| == 4 && t[2] == PAD && t[3] == PAD then Some([first])
      else if Sextet(t[2]) < 0 then None
      else
        var second := Sextet(t[1]) % 16 * 16 + Sextet(t[2]) / 4;
        if |t| == 4 && t[3] == PAD then Some([first, second])
        else if Sextet(t[3]) < 0 then None
        else
          match Decode(t[4..])
          case None => None
          case Some(more) => Some([first, second, Sextet(t[2]) % 4 * 64 + Sextet(t[3])] + more)
  }

  lemma SextetLetter(v: int)
    requires 0 <= v < 64
    ensures Sextet(Letter(v)) == v && Letter(v) != PAD && Letter(v) != COLON && 0x2B <= Letter(v) <= 0x7A
  {
  }

  lemma {:induction false} DecodeEncode(b: Bytes)
    requires AreBytes(b)
    ensures Decode(Encode(b)) == Some(b)
  {
    hide Letter, Sextet;
    if |b| >= 3 {
      DecodeEncode(b[3..]);
      GroupRoundTrip(b[0], b[1], b[2], Encode(b[3..]), b[3..]);
      assert b == [b[0], b[1], b[2]] + b[3..];
    } else if b != [] {
      LastGroup(b[0], if |b| == 2 then b[1] else 0);
      assert b == if |b| == 2 then [b[0], b[1]] else [b[0]];
    }
  }

  /** Three bytes and the four sextets they make. */
  lemma Regroup(x: int, y: int, z: int)
    requires IsByte(x) && IsByte(y) && IsByte(z)
    ensures var v0, v1, v2, v3 := x / 4, x % 4 * 16 + y / 16, y % 16 * 4 + z / 64, z % 64;
      && 0 <= v0 < 64 && 0 <= v1 < 64 && 0 <= v2 < 64 && 0 <= v3 < 64
      && v0 * 4 + v1 / 16 == x && v1 % 16 * 16 + v2 / 4 == y && v2 % 4 * 64 + v3 == z
  {
  }

  lemma DecodeGroup(t: Text, v0: int, v1: int, v2: int, v3: int, more: Bytes)
    requires |t| >= 4 && Decode(t[4..]) == Some(more)
    requires Sextet(t[0]) == v0 >= 0 && Sextet(t[1]) == v1 >= 0 && Sextet(t[2]) == v2 >= 0 && Sextet(t[3]) == v3 >= 0
    requires t[2] != PAD && t[3] != PAD
    ensures Decode(t) == Some([v0 * 4 + v1 / 16, v1 % 16 * 16 + v2 / 4, v2 % 4 * 64 + v3] + more)
  {
    hide Sextet;
    var x, y, z := v0 * 4 + v1 / 16, v1 % 16 * 16 + v2 / 4, v2 % 4 * 64 + v3;
    assert Decode(t) == Some([x, y, z] + Decode(t[4..]).value);
  }

  lemma GroupRoundTrip(x: int, y: int, z: int, t: Text, more: Bytes)
    requires IsByte(x) && IsByte(y) && IsByte(z) && Decode(t) == Some(more)
    ensures Decode([Letter(x / 4), Letter(x % 4 * 16 + y / 16), Letter(y % 16 * 4 + z / 64), Letter(z % 64)] + t)
         == Some([x, y, z] + more)
  {
    hide Letter, Sextet, Decode;
    var v0, v1, v2, v3 := x / 4, x % 4 * 16 + y / 16, y % 16 * 4 + z / 64, z % 64;
    Regroup(x, y, z);
    SextetLetter(v0);
    SextetLetter(v1);
    SextetLetter(v2);
    SextetLetter(v3);
    var group := [Letter(v0), Letter(v1), Letter(v2), Letter(v3)];
    assert (group + t)[4..] == t;
    DecodeGroup(group + t, v0, v1, v2, v3, more);
  }

  lemma LastGroup(x: int, y: int)
    requires IsByte(x) && IsByte(y)
    ensures Decode([Letter(x / 4), Letter(x % 4 * 16), PAD, PAD]) == Some([x])
    ensures Decode([Letter(x / 4), Letter(x % 4 * 16 + y / 16), Letter(y % 16 * 4), PAD]) == Some([x, y])
  {
    SextetLetter(x / 4);
    SextetLetter(x % 4 * 16);
    SextetLetter(x % 4 * 16 + y / 16);
    SextetLetter(y % 16 * 4);
    assert Sextet(PAD) == -1;
    hide Letter, Sextet;
  }

  /** Encoded text comes in groups of four letters and never holds a colon. */
  lemma {:induction false} EncodeShape(b: Bytes)
    requires AreBytes(b)
    ensures |Encode(b)| % 4 == 0
    ensures forall i :: 0 <= i < |Encode(b)| ==> 0x2B <= Encode(b)[i] <= 0x7A && Encode(b)[i] != COLON
  {
    forall v | 0 <= v < 64 ensures Letter(v) != COLON && 0x2B <= Letter(v) <= 0x7A {
      SextetLetter(v);
    }
    hide Letter;
    if |b| >= 3 {
      EncodeShape(b[3..]);
    }
  }

  // ---------------------------------------------------------------- identities

  /** `struct.pack("<QQ", ...)`: 64 bits, least significant byte first. */
  function PackWord(n: int, width: nat): (b: Bytes)
    ensures |b| == width && AreBytes(b)
    decreases width
  {
    if width == 0 then [] else [n % 256] + PackWord(n / 256, width - 1)
  }

  const WORD := 0x1_0000_0000_0000_0000

  predicate IsWord(n: int) {
    0 <= n < WORD
  }

  datatype StatError = StatFailed | EmptyIdentifiers | DoesNotPack

  datatype Captured = Identity(bytes: Bytes) | Unavailable(error: StatError)

  /** `_capture_identity`, given what `os.stat` filled in. Identifiers that do not fit 64 bits make
      `struct.pack` raise. */
  function CaptureIdentity(stat: Option<(int, int)>): Captured {
    match stat
    case None => Unavailable(StatFailed)
    case Some((dev, ino)) =>
      if dev == 0 && ino == 0 then Unavailable(EmptyIdentifiers)
      else if !IsWord(dev) || !IsWord(ino) then Unavailable(DoesNotPack)
      else Identity(PackWord(dev, 8) + PackWord(ino, 8))
  }

  function Power256(width: nat): (n: nat)
    ensures n >= 1
  {
    if width == 0 then 1 else 256 * Power256(width - 1)
  }

  lemma {:induction false} PackWordInjective(a: int, b: int, width: nat)
    requires 0 <= a < Power256(width) && 0 <= b < Power256(width)
    requires PackWord(a, width) == PackWord(b, width)
    ensures a == b
  {
    if width > 0 {
      assert PackWord(a, width)[0] == PackWord(b, width)[0];
      assert PackWord(a, width)[1..] == PackWord(a / 256, width - 1);
      assert PackWord(b, width)[1..] == PackWord(b / 256, width - 1);
      PackWordInjective(a / 256, b / 256, width - 1);
    }
  }

  /** A captured identity determines the device and the inode. */
  lemma CaptureInjective(a: (int, int), b: (int, int))
    requires CaptureIdentity(Some(a)).Identity? && CaptureIdentity(Some(b)).Identity?
    ensures CaptureIdentity(Some(a)) == CaptureIdentity(Some(b)) <==> a == b
  {
    var x, y := CaptureIdentity(Some(a)).bytes, CaptureIdentity(Some(b)).bytes;
    if x == y {
      assert x[..8] == PackWord(a.0, 8) && x[8..] == PackWord(a.1, 8);
      assert y[..8] == PackWord(b.0, 8) && y[8..] == PackWord(b.1, 8);
      assert Power256(8) == WORD;
      PackWordInjective(a.0, b.0, 8);
      PackWordInjective(a.1, b.1, 8);
    }
  }

  // ---------------------------------------------------------------- handles

  /** `parent` is None when the `.workstream` directory was absent. */
  datatype Handle = Handle(workspace: Bytes, parent: Option<Bytes>)

  predicate IsHandle(h: Handle) {
    AreBytes(h.workspace) && (h.parent.Some? ==> AreBytes(h.parent.value))
  }

  function ParentText(h: Handle): Text
    requires IsHandle(h)
  {
    match h.parent
    case None => Lit("ABSENT")
    case Some(parent) => Encode(parent)
  }

  /** `to_bytes`. */
  function ToBytes(h: Handle): Bytes
    requires IsHandle(h)
  {
    Encode(h.workspace) + [COLON] + ParentText(h)
  }

  /** `to_dict`. */
  function ToDict(h: Handle): Json
    requires IsHandle(h)
  {
    Object([Member(Lit("workspace"), String(Encode(h.workspace))), Member(Lit("parent"), String(ParentText(h)))])
  }

  /** `b64decode` of a dictionary entry; anything but a string is a type error. */
  function DecodeEntry(members: seq<Member>, name: string): Option<Bytes> {
    var i := Position(members, Lit(name));
    if i < |members| && members[i].value.String? then Decode(members[i].value.text) else None
  }

  /** `from_dict`; None stands for its ValueError. */
  function FromDict(v: Json): Option<Handle> {
    if !v.Object? then None
    else
      match DecodeEntry(v.members, "workspace")
      case None => None
      case Some(workspace) =>
        var i := Position(v.members, Lit("parent"));
        if i < |v.members| && v.members[i].value == String(Lit("ABSENT")) then Some(Handle(workspace, None))
        else
          match DecodeEntry(v.members, "parent")
          case None => None
          case Some(parent) => Some(Handle(workspace, Some(parent)))
  }

  lemma ParentTextDecodes(h: Handle)
    requires IsHandle(h)
    ensures ParentText(h) == Lit("ABSENT") <==> h.parent.None?
    ensures h.parent.Some? ==> Decode(ParentText(h)) == Some(h.parent.value)
  {
    if h.parent.Some? {
      EncodeShape(h.parent.value);
      DecodeEncode(h.parent.value);
      assert |Lit("ABSENT")| == 6;
    }
  }

  /** `from_dict` undoes `to_dict`. */
  lemma FromDictToDict(h: Handle)
    requires IsHandle(h)
    ensures FromDict(ToDict(h)) == Some(h)
  {
    hide Encode, Decode;
    DecodeEncode(h.workspace);
    ParentTextDecodes(h);
    var members := ToDict(h).members;
    assert Lit("workspace")[0] != Lit("parent")[0];
    assert Position(members, Lit("workspace")) == 0 && Position(members, Lit("parent")) == 1;
  }

  /** Two handles have the same byte form if and only if they are the same. */
  lemma ToBytesInjective(a: Handle, b: Handle)
    requires IsHandle(a) && IsHandle(b)
    ensures ToBytes(a) == ToBytes(b) <==> a == b
  {
    hide Encode, Decode, ParentText;
    if ToBytes(a) == ToBytes(b) {
      EncodeShape(a.workspace);
      EncodeShape(b.workspace);
      ColonSplits(Encode(a.workspace), ParentText(a), Encode(b.workspace), ParentText(b));
      DecodeEncode(a.workspace);
      DecodeEncode(b.workspace);
      ParentTextDecodes(a);
      ParentTextDecodes(b);
    }
  }

  lemma NotShorter(a: Text, x: Text, b: Text, y: Text)
    requires forall i :: 0 <= i < |b| ==> b[i] != COLON
    requires a + [COLON] + x == b + [COLON] + y
    ensures |b| <= |a|
  {
    var t := a + [COLON] + x;
    assert forall i :: 0 <= i < |b| ==> t[i] != COLON;
    assert t[|a|] == COLON;
  }

  lemma ColonSplits(a: Text, x: Text, b: Text, y: Text)
    requires forall i :: 0 <= i < |a| ==> a[i] != COLON
    requires forall i :: 0 <= i < |b| ==> b[i] != COLON
    requires a + [COLON] + x == b + [COLON] + y
    ensures a == b && x == y
  {
    var t := a + [COLON] + x;
    NotShorter(a, x, b, y);
    NotShorter(b, y, a, x);
    assert t[..|a|] == a && t[|a| + 1..] == x;
    assert t[..|b|] == b && t[|b| + 1..] == y;
  }

  /** What `os.stat` said of a workspace and, if it was there, of its `.workstream` directory. */
  datatype Stats = Stats(workspace: (int, int), parent: Option<(int, int)>)

  predicate Capturable(s: Stats) {
    CaptureIdentity(Some(s.workspace)).Identity? && (s.parent.Some? ==> CaptureIdentity(s.parent).Identity?)
  }

  /** `capture_target_handle`, its path checks passed. */
  function Capture(s: Stats): (h: Handle)
    requires Capturable(s)
    ensures IsHandle(h)
  {
    Handle(CaptureIdentity(Some(s.workspace)).bytes,
           if s.parent.None? then None else Some(CaptureIdentity(s.parent).bytes))
  }

  /** The stored byte form tells two captures apart exactly when a device or an inode differs, or
      the parent is absent in one of them only. */
  lemma CaptureLosesNothing(a: Stats, b: Stats)
    requires Capturable(a) && Capturable(b)
    ensures ToBytes(Capture(a)) == ToBytes(Capture(b)) <==> a == b
  {
    ToBytesInjective(Capture(a), Capture(b));
    CaptureInjective(a.workspace, b.workspace);
    if a.parent.Some? && b.parent.Some? {
      CaptureInjective(a.parent.value, b.parent.value);
    }
  }
}
