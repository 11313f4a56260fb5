/** Text and bytes as the registration package sees them: a decoded Python string is a
    sequence of code points (lone surrogates included), a file is a sequence of bytes. */
module Text {

  /** Code points, 0 to 0x10FFFF. */
  type Text = seq<int>

  /** Byte values, 0 to 255. */
  type Bytes = seq<int>

  datatype Option<+T> = None | Some(value: T)

  /** The code points of an ASCII literal. */
  function Lit(s: string): (t: Text)
    ensures |t| == |s|
    ensures forall i :: 0 <= i < |s| ==> t[i] == s[i] as int
  {
    seq(|s|, i requires 0 <= i < |s| => s[i] as int)
  }

  /** A Unicode scalar value: a code point that is not a surrogate. */
  predicate IsScalar(c: int) {
    0 <= c <= 0xD7FF || 0xE000 <= c <= 0x10FFFF
  }

  /** Text that has a UTF-8 form: scalar values only. */
  predicate IsScalarText(t: Text) {
    forall i :: 0 <= i < |t| ==> IsScalar(t[i])
  }

  predicate StartsWith(whole: seq<int>, prefix: seq<int>) {
    |prefix| <= |whole| && forall i :: 0 <= i < |prefix| ==> whole[i] == prefix[i]
  }

  /** Lexicographic order by code point. */
  predicate TextAtMost(a: Text, b: Text) {
    a == [] || (b != [] && (a[0] < b[0] || (a[0] == b[0] && TextAtMost(a[1..], b[1..]))))
  }

  lemma {:induction false} TextAtMostTotal(a: Text, b: Text)
    ensures TextAtMost(a, b) || TextAtMost(b, a)
  {
    if a != [] && b != [] && a[0] == b[0] {
      TextAtMostTotal(a[1..], b[1..]);
    }
  }

  lemma {:induction false} TextAtMostTrans(a: Text, b: Text, c: Text)
    requires TextAtMost(a, b) && TextAtMost(b, c)
    ensures TextAtMost(a, c)
  {
    if a != [] && a[0] == b[0] == c[0] {
      TextAtMostTrans(a[1..], b[1..], c[1..]);
    }
  }

  /** The same order, by the first difference. */
  lemma {:induction false} TextOrderExact(a: Text, b: Text)
    ensures TextAtMost(a, b) <==>
      a <= b || exists i :: 0 <= i < |a| && i < |b| && a[..i] == b[..i] && a[i] < b[i]
  {
    if a != [] && b != [] && a[0] == b[0] {
      TextOrderExact(a[1..], b[1..]);
      if i :| 0 <= i < |a[1..]| && i < |b[1..]| && a[1..][..i] == b[1..][..i] && a[1..][i] < b[1..][i] {
        assert a[..i + 1] == [a[0]] + a[1..][..i] && b[..i + 1] == [b[0]] + b[1..][..i];
        assert a[i + 1] < b[i + 1];
      }
      if i :| 0 <= i < |a| && i < |b| && a[..i] == b[..i] && a[i] < b[i] {
        assert a[1..][..i - 1] == a[..i][1..] && b[1..][..i - 1] == b[..i][1..];
      }
      assert a[1..] <= b[1..] <==> a <= b;
    }
  }
}
