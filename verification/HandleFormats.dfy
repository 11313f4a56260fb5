/** The formats of a target handle, byte by byte and letter by letter. */
module HandleFormats {
  import opened Text
  import opened TargetHandle

  lemma EncodeThree(b: Bytes, t: Text)
    requires AreBytes(b) && |b| >= 3 && |t| >= 4 && Encode(b[3..]) == t[4..]
    requires t[0] == Letter(b[0] / 4) && t[1] == Letter(b[0] % 4 * 16 + b[1] / 16)
    requires t[2] == Letter(b[1] % 16 * 4 + b[2] / 64) && t[3] == Letter(b[2] % 64)
    ensures Encode(b) == t
  {
    hide Letter;
    assert t == [t[0], t[1], t[2], t[3]] + t[4..];
  }

  predicate Encodes(s: string, t: string) {
    AreBytes(Lit(s)) && Encode(Lit(s)) == Lit(t)
  }

  lemma ShortAnswers()
    ensures Encodes("", "") && Encodes("f", "Zg==") && Encodes("fo", "Zm8=") && Encodes("b", "Yg==") && Encodes("ba", "YmE=")
  {
  }

  lemma Foo(s: string, t: string, more: string, rest: string)
    requires s == "foo" + more && t == "Zm9v" + rest && Encodes(more, rest)
    ensures Encodes(s, t)
  {
    hide Encode;
    assert Lit(s)[3..] == Lit(more) && Lit(t)[4..] == Lit(rest);
    assert Lit(s) == Lit("foo") + Lit(more);
    EncodeThree(Lit(s), Lit(t));
  }

  lemma Bar()
    ensures Encodes("bar", "YmFy")
  {
    hide Encode;
    ShortAnswers();
    assert Lit("bar")[3..] == Lit("") && Lit("YmFy")[4..] == Lit("");
    EncodeThree(Lit("bar"), Lit("YmFy"));
  }

  lemma OtherLetters()
    ensures Encode([0xFB, 0xFF]) == Lit("+/8=")
  {
  }

  /** The test vectors of section 10 of RFC 4648, and the two letters they leave out. */
  lemma KnownAnswers()
    ensures Encodes("", "") && Encodes("f", "Zg==") && Encodes("fo", "Zm8=") && Encodes("foo", "Zm9v")
    ensures Encodes("foob", "Zm9vYg==") && Encodes("fooba", "Zm9vYmE=") && Encodes("foobar", "Zm9vYmFy")
    ensures Encode([0xFB, 0xFF]) == Lit("+/8=")
  {
    hide Encodes, Encode, Lit;
    OtherLetters();
    ShortAnswers();
    Bar();
    assert "foo" == "foo" + "" && "Zm9v" == "Zm9v" + "";
    Foo("foo", "Zm9v", "", "");
    Foo("foob", "Zm9vYg==", "b", "Yg==");
    Foo("fooba", "Zm9vYmE=", "ba", "YmE=");
    Foo("foobar", "Zm9vYmFy", "bar", "YmFy");
  }

  predicate IsLetter(c: int) {
    || 'A' as int <= c <= 'Z' as int || 'a' as int <= c <= 'z' as int || '0' as int <= c <= '9' as int
    || c == '+' as int || c == '/' as int
  }

  /** A letter, or one of at most two equals signs at the end. */
  predicate Stands(t: Text, i: nat)
    requires i < |t|
  {
    IsLetter(t[i]) || (t[i] == '=' as int && (i == |t| - 1 || (i == |t| - 2 && t[i + 1] == '=' as int)))
  }

  /** Whole groups of four letters, of which the last may end in one or two equals signs. */
  predicate IsBase64(t: Text) {
    |t| % 4 == 0 && forall i :: 0 <= i < |t| ==> Stands(t, i)
  }

  lemma LettersExact(c: int)
    ensures IsLetter(c) <==> Sextet(c) >= 0
    ensures c == PAD ==> !IsLetter(c)
  {
  }

  /** Exactly such text decodes. */
  lemma {:induction false} DecodesExact(t: Text)
    ensures Decode(t).Some? <==> IsBase64(t)
  {
    hide Sextet, IsLetter;
    if |t| >= 4 {
      LettersExact(t[0]);
      LettersExact(t[1]);
      LettersExact(t[2]);
      LettersExact(t[3]);
      if |t| == 4 {
        LastFour(t);
      } else {
        DecodesExact(t[4..]);
        MoreFours(t);
      }
    }
  }

  lemma LastFour(t: Text)
    requires |t| == 4
    ensures IsBase64(t) <==>
      && IsLetter(t[0]) && IsLetter(t[1])
      && ((t[2] == PAD && t[3] == PAD) || (IsLetter(t[2]) && (t[3] == PAD || IsLetter(t[3]))))
  {
    hide IsLetter;
    LettersExact(PAD);
    assert IsBase64(t) <==> Stands(t, 0) && Stands(t, 1) && Stands(t, 2) && Stands(t, 3);
  }

  lemma MoreFours(t: Text)
    requires |t| > 4
    ensures IsBase64(t) <==>
      && IsLetter(t[0]) && IsLetter(t[1]) && IsLetter(t[2]) && IsLetter(t[3])
      && IsBase64(t[4..])
  {
    hide IsLetter;
    var rest := t[4..];
    assert |rest| == |t| - 4;
    forall i | 0 <= i < |rest| ensures Stands(rest, i) <==> Stands(t, i + 4) {
      assert rest[i] == t[i + 4] && (i + 1 < |rest| ==> rest[i + 1] == t[i + 5]);
    }
    if IsBase64(t) {
      assert |rest| % 4 == 0;
      assert Stands(t, 0) && Stands(t, 1) && Stands(t, 2) && Stands(t, 3);
      forall i | 0 <= i < |rest| ensures Stands(rest, i) {
        assert Stands(t, i + 4);
      }
    }
    if IsBase64(rest) && IsLetter(t[0]) && IsLetter(t[1]) && IsLetter(t[2]) && IsLetter(t[3]) {
      assert |t| % 4 == 0;
      forall i | 0 <= i < |t| ensures Stands(t, i) {
        if i >= 4 {
          assert Stands(rest, i - 4);
        }
      }
    }
  }

  // ---------------------------------------------------------------- identities

  lemma {:induction false} PackedByte(n: nat, width: nat, i: nat)
    requires i < width
    ensures PackWord(n, width)[i] == n / Power256(i) % 256
  {
    if i > 0 {
      PackedByte(n / 256, width - 1, i - 1);
      DivideTwice(n, Power256(i - 1));
    }
  }

  lemma Quotient(n: nat, d: nat, x: nat, rest: nat)
    requires d > 0 && n == d * x + rest && rest < d
    ensures n / d == x
  {
    var q := n / d;
    if q < x {
      Multiplied(d, q, x);
    } else if q > x {
      Multiplied(d, x, q);
    }
  }

  lemma {:induction false} Multiplied(d: nat, a: nat, b: nat)
    requires a < b
    ensures d * a + d <= d * b
  {
    if a + 1 < b {
      Multiplied(d, a, b - 1);
    }
    assert d * b == d * (b - 1) + d;
  }

  lemma DivideTwice(n: nat, p: nat)
    requires p >= 1
    ensures n / 256 / p == n / (256 * p)
  {
    var q, r := n / 256, n % 256;
    var x, y := q / p, q % p;
    assert q == p * x + y;
    assert n == 256 * q + r;
    assert 256 * (p * x) == (256 * p) * x;
    assert n == (256 * p) * x + (256 * y + r);
    assert 256 * y + r < 256 * p;
    Quotient(n, 256 * p, x, 256 * y + r);
  }

  /** A capture, exactly: no identity without a stat or when device and inode are both zero; no pack
      beyond 64 bits; otherwise the device and the inode, each in eight bytes, the lowest first. */
  lemma CaptureExact(dev: int, ino: int)
    ensures var c := CaptureIdentity(Some((dev, ino)));
      && (c == Unavailable(EmptyIdentifiers) <==> dev == 0 == ino)
      && (c == Unavailable(DoesNotPack) <==>
            dev < 0 || ino < 0 || dev >= 0x1_0000_0000_0000_0000 || ino >= 0x1_0000_0000_0000_0000)
      && (c.Identity? ==> dev >= 0 && ino >= 0 && |c.bytes| == 16 && forall i :: 0 <= i < 8 ==>
            c.bytes[i] == dev / Power256(i) % 256 && c.bytes[8 + i] == ino / Power256(i) % 256)
    ensures CaptureIdentity(None) == Unavailable(StatFailed)
  {
    if CaptureIdentity(Some((dev, ino))).Identity? {
      forall i | 0 <= i < 8
        ensures PackWord(dev, 8)[i] == dev / Power256(i) % 256 && PackWord(ino, 8)[i] == ino / Power256(i) % 256
      {
        PackedByte(dev, 8, i);
        PackedByte(ino, 8, i);
      }
      hide PackWord, Power256;
    }
  }
}
