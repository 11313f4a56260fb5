/** The lexical forms of JSON: numbers, escapes and words as RFC 8259 writes them, and what loading
    makes of repeated names. */
module JsonForms {
  import opened Text
  import opened Json

  // ---------------------------------------------------------------- numbers (section 6)

  predicate AreDigits(t: Text, from: nat, to: nat) {
    from < to <= |t| && forall i :: from <= i < to ==> '0' as int <= t[i] <= '9' as int
  }

  /** An integer without leading zeros. */
  predicate IsInteger(t: Text, from: nat, to: nat) {
    AreDigits(t, from, to) && (t[from] == '0' as int ==> to == from + 1)
  }

  predicate IsFraction(t: Text, from: nat, to: nat) {
    from == to || (from < |t| && t[from] == '.' as int && AreDigits(t, from + 1, to))
  }

  predicate IsExponent(t: Text, from: nat, to: nat) {
    || from == to
    || (from < |t| && (t[from] == 'e' as int || t[from] == 'E' as int)
        && (|| AreDigits(t, from + 1, to)
            || (from + 1 < |t| && (t[from + 1] == '+' as int || t[from + 1] == '-' as int) && AreDigits(t, from + 2, to))))
  }

  /** `[ minus ] int [ frac ] [ exp ]`. */
  predicate IsNumber(t: Text) {
    var sign := if t != [] && t[0] == '-' as int then 1 else 0;
    exists j, k :: 0 <= j <= |t| && 0 <= k <= |t| && IsInteger(t, sign, j) && IsFraction(t, j, k) && IsExponent(t, k, |t|)
  }

  lemma {:induction false} RunIsLongest(t: Text, from: nat)
    requires from <= |t|
    ensures var to := from + DigitRun(t[from..]);
      && (DigitRun(t[from..]) > 0 ==> AreDigits(t, from, to))
      && (to < |t| ==> !IsDigit(t[to]))
    decreases |t| - from
  {
    if from < |t| && IsDigit(t[from]) {
      assert t[from..][1..] == t[from + 1..];
      RunIsLongest(t, from + 1);
    }
  }

  /** A run of digits ends no later than the longest one. */
  lemma RunIsLimit(t: Text, from: nat, to: nat)
    requires AreDigits(t, from, to)
    ensures to <= from + DigitRun(t[from..])
  {
    RunIsLongest(t, from);
    var end := from + DigitRun(t[from..]);
    if end < to {
      assert IsDigit(t[end]);
    }
  }

  lemma IntegerExact(t: Text, from: nat)
    requires from <= |t|
    ensures IntegerEnd(t, from) > from ==> IsInteger(t, from, IntegerEnd(t, from))
    ensures forall to: nat :: IsInteger(t, from, to) ==> from < to <= IntegerEnd(t, from)
  {
    hide DigitRun;
    RunIsLongest(t, from);
    forall to: nat | IsInteger(t, from, to) ensures to <= IntegerEnd(t, from) {
      RunIsLimit(t, from, to);
    }
  }

  lemma FractionExact(t: Text, from: nat)
    requires from <= |t|
    ensures IsFraction(t, from, FractionEnd(t, from))
    ensures forall to: nat :: IsFraction(t, from, to) ==> from <= to <= FractionEnd(t, from)
  {
    hide DigitRun;
    if from < |t| {
      RunIsLongest(t, from + 1);
    }
    forall to: nat | IsFraction(t, from, to) ensures to <= FractionEnd(t, from) {
      if from != to {
        RunIsLimit(t, from + 1, to);
      }
    }
  }

  lemma ExponentExact(t: Text, from: nat)
    requires from <= |t|
    ensures IsExponent(t, from, ExponentEnd(t, from))
    ensures forall to: nat :: IsExponent(t, from, to) ==> from <= to <= ExponentEnd(t, from)
  {
    hide DigitRun;
    if from < |t| {
      RunIsLongest(t, from + 1);
    }
    if from + 1 < |t| {
      RunIsLongest(t, from + 2);
    }
    forall to: nat | IsExponent(t, from, to) ensures to <= ExponentEnd(t, from) {
      if AreDigits(t, from + 1, to) {
        RunIsLimit(t, from + 1, to);
      } else if from != to {
        RunIsLimit(t, from + 2, to);
      }
    }
  }

  /** A number is taken whole: what the parser takes is a number, and no longer prefix is one. */
  lemma NumberExact(t: Text, m: nat)
    requires m <= |t|
    ensures NumberEnd(t) > 0 ==> IsNumber(t[..NumberEnd(t)])
    ensures m > NumberEnd(t) ==> !IsNumber(t[..m])
  {
    hide IntegerEnd, FractionEnd, ExponentEnd, IsInteger, IsFraction, IsExponent;
    var sign := if t != [] && t[0] == MINUS then 1 else 0;
    var integer := IntegerEnd(t, sign);
    IntegerExact(t, sign);
    var fraction := FractionEnd(t, integer);
    FractionExact(t, integer);
    ExponentExact(t, fraction);
    if NumberEnd(t) > 0 {
      var n := NumberEnd(t);
      SameParts(t, n, sign, integer, fraction);
    }
    if m > NumberEnd(t) && IsNumber(t[..m]) {
      NoLongerNumber(t, m);
      assert false;
    }
  }

  lemma SameParts(t: Text, n: nat, sign: nat, j: nat, k: nat)
    requires n <= |t| && sign < j <= k <= n
    ensures IsInteger(t[..n], sign, j) <==> IsInteger(t, sign, j)
    ensures IsFraction(t[..n], j, k) <==> IsFraction(t, j, k)
    ensures IsExponent(t[..n], k, n) <==> IsExponent(t, k, n)
  {
  }

  /** Where a longer number splits, the parser's own parts end no earlier; so it cannot be longer. */
  lemma NoLongerNumber(t: Text, m: nat)
    requires m <= |t| && IsNumber(t[..m])
    ensures m <= NumberEnd(t)
  {
    hide IntegerEnd, FractionEnd, ExponentEnd, IsInteger, IsFraction, IsExponent;
    var sign := if t != [] && t[0] == MINUS then 1 else 0;
    assert m > 0 && t[..m][0] == t[0] by { NumberIsLong(t[..m]); }
    var j, k :| 0 <= j <= m && 0 <= k <= m && IsInteger(t[..m], sign, j) && IsFraction(t[..m], j, k) && IsExponent(t[..m], k, m);
    PartsAreOrdered(t[..m], sign, j, k, m);
    SameParts(t, m, sign, j, k);
    IntegerExact(t, sign);
    PartsEnd(t, j, k, m, sign);
  }

  lemma NumberIsLong(t: Text)
    requires IsNumber(t)
    ensures t != []
  {
  }

  lemma PartsAreOrdered(t: Text, sign: nat, j: nat, k: nat, m: nat)
    requires IsInteger(t, sign, j) && IsFraction(t, j, k) && IsExponent(t, k, m)
    ensures sign < j <= k <= m
  {
  }

  lemma PartsEnd(t: Text, j: nat, k: nat, m: nat, sign: nat)
    requires sign <= |t| && IsInteger(t, sign, j) && IsFraction(t, j, k) && IsExponent(t, k, m) && m <= |t|
    ensures m <= ExponentEnd(t, FractionEnd(t, IntegerEnd(t, sign)))
  {
    IntegerExact(t, sign);
    var integer := IntegerEnd(t, sign);
    FractionExact(t, integer);
    var fraction := FractionEnd(t, integer);
    ExponentExact(t, fraction);
    hide IntegerEnd, FractionEnd, ExponentEnd;
    LaterParts(t, j, k, m, sign, integer, fraction);
  }

  /** An integer that stops early is followed by neither a fraction nor an exponent, and a fraction
      that stops early not by an exponent. */
  lemma LaterParts(t: Text, j: nat, k: nat, m: nat, sign: nat, integer: nat, fraction: nat)
    requires sign < j <= integer <= |t| && IsInteger(t, sign, j) && IsInteger(t, sign, integer)
    requires IsFraction(t, j, k) && IsExponent(t, k, m) && IsFraction(t, integer, fraction)
    requires forall to: nat :: IsFraction(t, integer, to) ==> to <= fraction
    ensures m <= fraction || IsExponent(t, fraction, m)
  {
    if j < integer {
      assert '0' as int <= t[j] <= '9' as int;
      assert k == j && m == j;
    } else if k < fraction {
      assert '0' as int <= t[k] <= '9' as int || t[k] == '.' as int;
    }
  }

  // ---------------------------------------------------------------- strings (section 7)

  /** The escapes of one letter, and the characters they stand for. */
  function EscapeLetters(): Text {
    Lit("\"\\/bfnrt")
  }

  function EscapedCharacters(): Text {
    [0x22, 0x5C, 0x2F, 0x08, 0x0C, 0x0A, 0x0D, 0x09]
  }

  lemma LetterEscapes(t: Text, i: nat)
    requires i < 8 && t != [] && t[0] == EscapeLetters()[i]
    ensures Unescape(t) == (EscapedCharacters()[i], 1)
  {
  }

  lemma OtherEscapes(t: Text)
    requires t != [] && t[0] !in EscapeLetters() && t[0] != 'u' as int
    ensures Unescape(t) == (0, 0)
  {
    var e := EscapeLetters();
    assert e[0] == 0x22 && e[1] == 0x5C && e[2] == 0x2F && e[3] == 0x62 && e[4] == 0x66 && e[5] == 0x6E && e[6] == 0x72 && e[7] == 0x74;
  }

  /** Four hexadecimal digits, in either case, and the code unit they write. */
  predicate WritesUnit(t: Text, n: int) {
    && |t| >= 4
    && exists a, b, c, d :: (
         && 0 <= a < 16 && 0 <= b < 16 && 0 <= c < 16 && 0 <= d < 16
         && IsHex(t[0], a) && IsHex(t[1], b) && IsHex(t[2], c) && IsHex(t[3], d)
         && n == ((a * 16 + b) * 16 + c) * 16 + d)
  }

  predicate IsHex(c: int, n: nat)
    requires n < 16
  {
    c == "0123456789abcdef"[n] as int || c == "0123456789ABCDEF"[n] as int
  }

  lemma HexExact(c: int, n: nat)
    requires n < 16
    ensures IsHex(c, n) <==> HexValue(c) == n
  {
  }

  lemma UnitExact(t: Text, n: nat)
    ensures CodeUnit(t) == n <==> WritesUnit(t, n)
  {
    hide IsHex, HexValue;
    if |t| >= 4 {
      forall i, v | 0 <= i < 4 && 0 <= v < 16 ensures IsHex(t[i], v) <==> HexValue(t[i]) == v {
        HexExact(t[i], v);
      }
      if CodeUnit(t) == n {
        var a, b, c, d := HexValue(t[0]), HexValue(t[1]), HexValue(t[2]), HexValue(t[3]);
        assert IsHex(t[0], a) && IsHex(t[1], b) && IsHex(t[2], c) && IsHex(t[3], d);
      }
    }
  }

  /** A hexadecimal escape: two that write a surrogate pair make one character, any other stands for
      itself; a high surrogate must not be followed by a broken escape. */
  lemma UnitEscapes(t: Text, unit: nat)
    requires t != [] && t[0] == 'u' as int && WritesUnit(t[1..], unit)
    ensures var pair := 0xD800 <= unit <= 0xDBFF && |t| > 6 && t[5] == '\\' as int && t[6] == 'u' as int;
      && (!pair ==> Unescape(t) == (unit, 5))
      && (pair ==>
            && (forall low: nat :: WritesUnit(t[7..], low) ==>
                  Unescape(t) == if 0xDC00 <= low <= 0xDFFF then (0x10000 + (unit - 0xD800) * 1024 + (low - 0xDC00), 11) else (unit, 5))
            && ((forall low: nat :: !WritesUnit(t[7..], low)) ==> Unescape(t) == (0, 0)))
  {
    hide WritesUnit, CodeUnit;
    UnitExact(t[1..], unit);
    if |t| > 6 {
      forall low: nat ensures CodeUnit(t[7..]) == low <==> WritesUnit(t[7..], low) {
        UnitExact(t[7..], low);
      }
      if CodeUnit(t[7..]) >= 0 {
        assert WritesUnit(t[7..], CodeUnit(t[7..]));
      }
    }
  }

  // ---------------------------------------------------------------- objects (section 4)

  /** The last member with its name. */
  predicate IsLast(members: seq<Member>, k: nat) {
    k < |members| && forall j :: k < j < |members| ==> members[j].name != members[k].name
  }

  lemma Replaced(before: seq<Member>, i: nat, last: Member)
    requires DistinctNames(before) && i < |before| && before[i].name == last.name
    ensures DistinctNames(before[i := last])
    ensures forall m :: m in before[i := last] <==> m == last || (m in before && m.name != last.name)
  {
    var d := before[i := last];
    forall m ensures m in d <==> m == last || (m in before && m.name != last.name) {
      if m in before && m.name != last.name {
        var j :| 0 <= j < |before| && before[j] == m;
        assert d[j] == m;
      }
      if m in d {
        var j :| 0 <= j < |d| && d[j] == m;
        assert j != i ==> before[j] == m;
      }
      assert d[i] == last;
    }
  }

  lemma Appended(before: seq<Member>, last: Member)
    requires DistinctNames(before) && forall j :: 0 <= j < |before| ==> before[j].name != last.name
    ensures DistinctNames(before + [last])
    ensures forall m :: m in before + [last] <==> m == last || (m in before && m.name != last.name)
  {
  }

  lemma DictStep(members: seq<Member>)
    requires members != [] && DistinctNames(DictOf(members[..|members| - 1]))
    ensures var last := members[|members| - 1];
      && DistinctNames(DictOf(members))
      && (forall m :: m in DictOf(members) <==> m == last || (m in DictOf(members[..|members| - 1]) && m.name != last.name))
  {
    hide DictOf, DistinctNames;
    DictUnfolds(members);
    var before, last := DictOf(members[..|members| - 1]), members[|members| - 1];
    var i := Position(before, last.name);
    if i < |before| {
      Replaced(before, i, last);
    } else {
      Appended(before, last);
    }
  }

  lemma DictUnfolds(members: seq<Member>)
    requires members != []
    ensures var before, last := DictOf(members[..|members| - 1]), members[|members| - 1];
      var i := Position(before, last.name);
      DictOf(members) == if i < |before| then before[i := last] else before + [last]
  {
  }

  /** Loading keeps one member of every name: the last one that has it. */
  lemma {:induction false} DictExact(members: seq<Member>)
    ensures DistinctNames(DictOf(members))
    ensures forall m :: m in DictOf(members) <==> exists k: nat :: IsLast(members, k) && members[k] == m
  {
    hide DictOf, DistinctNames;
    if members == [] {
      NothingInDict();
    } else {
      var n := |members| - 1;
      var before, last := members[..n], members[n];
      DictExact(before);
      DictStep(members);
      forall m ensures m in DictOf(members) <==> exists k: nat :: IsLast(members, k) && members[k] == m {
        LastStep(members, m);
      }
    }
  }

  lemma LastStep(members: seq<Member>, m: Member)
    requires members != []
    ensures var before, last := members[..|members| - 1], members[|members| - 1];
      (exists k: nat :: IsLast(members, k) && members[k] == m) <==>
      m == last || (m.name != last.name && exists k: nat :: IsLast(before, k) && before[k] == m)
  {
    var n := |members| - 1;
    var before, last := members[..n], members[n];
    assert IsLast(members, n);
    if k: nat :| IsLast(before, k) && before[k] == m {
      assert m.name != last.name ==> IsLast(members, k) && members[k] == m;
    }
    if k: nat :| IsLast(members, k) && members[k] == m {
      assert k < n ==> IsLast(before, k) && before[k] == m;
    }
  }

  lemma NothingInDict()
    ensures DictOf([]) == [] && DistinctNames([])
  {
  }
}
