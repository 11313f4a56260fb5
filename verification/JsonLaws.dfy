/** What the printer and the parser promise each other. */
module JsonLaws {
  import opened Text
  import opened Json

  // ------------------------------------------------- reading never looks too far

  /** A character that could make a number longer. */
  predicate Continues(c: int) {
    IsDigit(c) || c == DOT || c == 0x45 || c == 0x65
  }

  lemma Appended(t: Text, n: nat, more: Text)
    requires n <= |t|
    ensures (t + more)[..n] == t[..n]
    ensures (t + more)[n..] == t[n..] + more
  {
  }

  lemma {:induction false} SkipSpaceLocal(t: Text, more: Text)
    requires SkipSpace(t) != []
    ensures SkipSpace(t + more) == SkipSpace(t) + more
    ensures !Continues(SkipSpace(t)[0]) ==> !Continues(t[0])
  {
    if IsSpace(t[0]) {
      assert (t + more)[1..] == t[1..] + more;
      SkipSpaceLocal(t[1..], more);
    }
  }

  lemma {:induction false} DigitRunLocal(t: Text, more: Text)
    requires DigitRun(t) < |t| || more == [] || !IsDigit(more[0])
    ensures DigitRun(t + more) == DigitRun(t)
  {
    if t == [] {
      assert t + more == more;
    } else if IsDigit(t[0]) {
      assert (t + more)[1..] == t[1..] + more;
      DigitRunLocal(t[1..], more);
    }
  }

  lemma {:induction false} DigitRunLocalFrom(t: Text, from: nat, more: Text)
    requires from <= |t|
    requires from + DigitRun(t[from..]) < |t| || more == [] || !IsDigit(more[0])
    ensures DigitRun((t + more)[from..]) == DigitRun(t[from..])
  {
    assert (t + more)[from..] == t[from..] + more;
    DigitRunLocal(t[from..], more);
  }

  /** A number followed by something that cannot continue it is read the same whatever
      comes after. */
  lemma {:induction false} NumberLocal(t: Text, more: Text)
    requires NumberEnd(t) > 0
    requires NumberEnd(t) < |t| ==> !Continues(t[NumberEnd(t)])
    requires NumberEnd(t) == |t| && more != [] ==> !Continues(more[0])
    ensures NumberEnd(t + more) == NumberEnd(t)
  {
    var q := t + more;
    var sign := if t[0] == MINUS then 1 else 0;
    var integer := IntegerEnd(t, sign);
    var fraction := FractionEnd(t, integer);
    IntegerLocal(t, sign, more);
    assert IntegerEnd(q, sign) == integer;
    FractionLocal(t, integer, more);
    assert FractionEnd(q, integer) == fraction;
    ExponentLocal(t, fraction, more);
  }

  /** A number starts with a digit, or with a minus sign and a digit. */
  lemma {:induction false} NumberHead(t: Text)
    requires NumberEnd(t) > 0
    ensures t != [] && (IsDigit(t[0]) || (t[0] == MINUS && |t| > 1 && IsDigit(t[1])))
  {
    var sign := if t[0] == MINUS then 1 else 0;
    if t[sign] != 0x30 {
      assert DigitRun(t[sign..]) > 0;
      assert t[sign..][0] == t[sign];
    }
  }

  lemma {:induction false} IntegerLocal(t: Text, from: nat, more: Text)
    requires from < |t|
    requires IntegerEnd(t, from) == |t| && more != [] ==> !Continues(more[0])
    ensures IntegerEnd(t + more, from) == IntegerEnd(t, from)
  {
    if t[from] != 0x30 {
      DigitRunLocalFrom(t, from, more);
    }
  }

  lemma {:induction false} FractionLocal(t: Text, from: nat, more: Text)
    requires from <= |t|
    requires ExponentEnd(t, FractionEnd(t, from)) < |t| ==> !Continues(t[ExponentEnd(t, FractionEnd(t, from))])
    requires ExponentEnd(t, FractionEnd(t, from)) == |t| && more != [] ==> !Continues(more[0])
    ensures FractionEnd(t + more, from) == FractionEnd(t, from)
  {
    if from < |t| && t[from] == DOT {
      DigitRunLocalFrom(t, from + 1, more);
    }
  }

  lemma {:induction false} ExponentLocal(t: Text, from: nat, more: Text)
    requires from <= |t|
    requires ExponentEnd(t, from) < |t| ==> !Continues(t[ExponentEnd(t, from)])
    requires ExponentEnd(t, from) == |t| && more != [] ==> !Continues(more[0])
    ensures ExponentEnd(t + more, from) == ExponentEnd(t, from)
  {
    if from < |t| && (t[from] == 0x45 || t[from] == 0x65) {
      var signed := from + 1 < |t| && (t[from + 1] == 0x2B || t[from + 1] == MINUS);
      var digits := if signed then from + 2 else from + 1;
      assert DigitRun(t[digits..]) > 0;
      DigitRunLocalFrom(t, digits, more);
    }
  }

  lemma {:induction false} CodeUnitLocal(t: Text, from: nat, more: Text)
    requires from <= |t| && CodeUnit(t[from..]) >= 0
    ensures CodeUnit((t + more)[from..]) == CodeUnit(t[from..])
  {
    var a, b := t[from..], (t + more)[from..];
    assert a[0] == b[0] && a[1] == b[1] && a[2] == b[2] && a[3] == b[3];
  }

  lemma {:induction false} UnescapeLocal(t: Text, more: Text)
    requires Unescape(t).1 > 0
    requires ParseString(t[Unescape(t).1..]).Ok?
    ensures Unescape(t + more) == Unescape(t)
  {
    if t[0] == 0x75 {
      hide CodeUnit, ParseString;
      CodeUnitLocal(t, 1, more);
      if |t| > 6 {
        assert (t + more)[5] == t[5] && (t + more)[6] == t[6];
        if CodeUnit(t[7..]) >= 0 {
          CodeUnitLocal(t, 7, more);
        }
      } else {
        NoLoneBackslash(t, Unescape(t).1);
      }
    }
  }

  lemma {:induction false} NoLoneBackslash(t: Text, n: nat)
    requires n <= |t| && ParseString(t[n..]).Ok?
    ensures n < |t| && (t[n] == BACKSLASH ==> n + 1 < |t|)
  {
    assert t[n..] != [];
    assert |t| == n + 1 ==> t[n..][1..] == [];
  }

  lemma {:induction false} StringLocal(t: Text, more: Text)
    requires ParseString(t).Ok?
    ensures ParseString(t + more) == Ok(ParseString(t).value, ParseString(t).rest + more)
    decreases |t|
  {
    var q := t + more;
    assert q[0] == t[0];
    if t[0] == QUOTE {
      assert q[1..] == t[1..] + more;
    } else if t[0] == BACKSLASH {
      var n := Unescape(t[1..]).1;
      assert t[1..][n..] == t[1 + n..];
      UnescapeLocal(t[1..], more);
      assert q[1..] == t[1..] + more;
      assert q[1 + n..] == t[1 + n..] + more;
      StringLocal(t[1 + n..], more);
    } else {
      assert q[1..] == t[1..] + more;
      StringLocal(t[1..], more);
    }
  }

  /** A value whose text cannot be made longer: it is quoted or bracketed, or what follows
      it cannot continue a number. */
  predicate Closed(t: Text, rest: Text) {
    || (t != [] && (t[0] == QUOTE || t[0] == LBRACKET || t[0] == LBRACE))
    || (rest != [] && !Continues(rest[0]))
  }

  /** Appending text does not turn a scalar into a fixed word. */
  lemma {:induction false} WordLocal(t: Text, more: Text)
    requires WordEnd(t) > 0 || NumberEnd(t) > 0
    ensures WordEnd(t + more) == WordEnd(t)
  {
    WordBegins(t, more, "null");
    WordBegins(t, more, "true");
    WordBegins(t, more, "false");
    WordBegins(t, more, "NaN");
    WordBegins(t, more, "Infinity");
    WordBegins(t, more, "-Infinity");
  }

  lemma {:induction false} WordBegins(t: Text, more: Text, word: string)
    requires word in ["null", "true", "false", "NaN", "Infinity", "-Infinity"]
    requires WordEnd(t) > 0 || NumberEnd(t) > 0
    ensures StartsWith(t + more, Lit(word)) == StartsWith(t, Lit(word))
  {
    var q := t + more;
    if NumberEnd(t) > 0 {
      NumberHead(t);
    }
    assert t[0] == q[0] && (|t| > 1 ==> t[1] == q[1]);
    assert Lit(word)[0] == word[0] as int && Lit(word)[1] == word[1] as int;
  }

  lemma {:induction false} ScalarLocal(mode: Mode, t: Text, more: Text)
    requires ParseScalar(mode, t).Ok?
    requires ParseScalar(mode, t).rest != [] ==> !Continues(ParseScalar(mode, t).rest[0])
    requires ParseScalar(mode, t).rest == [] && more != [] ==> !Continues(more[0])
    ensures ParseScalar(mode, t + more) == Ok(ParseScalar(mode, t).value, ParseScalar(mode, t).rest + more)
  {
    hide WordEnd, NumberEnd, Continues;
    WordLocal(t, more);
    if WordEnd(t) > 0 {
      Appended(t, WordEnd(t), more);
    } else {
      NumberLocal(t, more);
      Appended(t, NumberEnd(t), more);
    }
  }

  /** A parsed value is read the same whatever is appended, when its text cannot be made
      longer: it is quoted or bracketed, or what follows it cannot continue a number. */
  lemma {:induction false} ValueLocal(mode: Mode, t: Text, more: Text)
    requires ParseValue(mode, t).Ok?
    requires Closed(t, ParseValue(mode, t).rest)
    ensures ParseValue(mode, t + more) == Ok(ParseValue(mode, t).value, ParseValue(mode, t).rest + more)
    decreases |t|, 0
  {
    hide ParseScalar, DistinctNames;
    var q := t + more;
    assert q[0] == t[0] && q[1..] == t[1..] + more;
    if t[0] == QUOTE {
      StringLocal(t[1..], more);
    } else if t[0] == LBRACKET {
      BracketLocal(t[1..], more);
      if SkipSpace(t[1..])[0] != RBRACKET {
        ItemsLocal(mode, SkipSpace(t[1..]), more);
      }
    } else if t[0] == LBRACE {
      BracketLocal(t[1..], more);
      if SkipSpace(t[1..])[0] != RBRACE {
        MembersLocal(mode, SkipSpace(t[1..]), more);
      }
    } else {
      ScalarLocal(mode, t, more);
    }
  }

  /** Looking for a bracket after white space. */
  lemma {:induction false} BracketLocal(t: Text, more: Text)
    requires SkipSpace(t) != []
    ensures SkipSpace(t + more) == SkipSpace(t) + more
    ensures SkipSpace(t + more)[0] == SkipSpace(t)[0]
    ensures SkipSpace(t + more)[1..] == SkipSpace(t)[1..] + more
    ensures Continues(SkipSpace(t)[0]) || !Continues(t[0])
  {
    SkipSpaceLocal(t, more);
  }

  lemma {:induction false} ItemsLocal(mode: Mode, t: Text, more: Text)
    requires ParseItems(mode, t).Ok?
    ensures ParseItems(mode, t + more) == Ok(ParseItems(mode, t).value, ParseItems(mode, t).rest + more)
    decreases |t|, 1
  {
    hide ParseValue;
    var after := ParseValue(mode, t).rest;
    var next := SkipSpace(after);
    BracketLocal(after, more);
    ValueLocal(mode, t, more);
    if next[0] == COMMA {
      assert SkipSpace(next[1..]) != [];
      SkipSpaceLocal(next[1..], more);
      ItemsLocal(mode, SkipSpace(next[1..]), more);
    }
  }

  lemma {:induction false} MemberLocal(mode: Mode, t: Text, more: Text)
    requires ParseMember(mode, t).Ok?
    requires ParseMember(mode, t).rest != [] && !Continues(ParseMember(mode, t).rest[0])
    ensures ParseMember(mode, t + more) == Ok(ParseMember(mode, t).value, ParseMember(mode, t).rest + more)
    decreases |t|, 1
  {
    hide ParseValue;
    assert (t + more)[0] == t[0] && (t + more)[1..] == t[1..] + more;
    StringLocal(t[1..], more);
    var after := ParseString(t[1..]).rest;
    BracketLocal(after, more);
    var colon := SkipSpace(after);
    assert SkipSpace(colon[1..]) != [];
    SkipSpaceLocal(colon[1..], more);
    ValueLocal(mode, SkipSpace(colon[1..]), more);
  }

  lemma {:induction false} MembersLocal(mode: Mode, t: Text, more: Text)
    requires ParseMembers(mode, t).Ok?
    ensures ParseMembers(mode, t + more) == Ok(ParseMembers(mode, t).value, ParseMembers(mode, t).rest + more)
    decreases |t|, 2
  {
    hide ParseMember;
    var after := ParseMember(mode, t).rest;
    var next := SkipSpace(after);
    BracketLocal(after, more);
    MemberLocal(mode, t, more);
    if next[0] == COMMA {
      assert SkipSpace(next[1..]) != [];
      SkipSpaceLocal(next[1..], more);
      MembersLocal(mode, SkipSpace(next[1..]), more);
    }
  }

  // ------------------------------------------------- one grammar, three readers

  /** No repeated name in any object and no non-finite constant, at any depth. */
  predicate Strict(v: Json) {
    match v
    case NonFinite(_) => false
    case Array(items) => StrictItems(items)
    case Object(members) => DistinctNames(members) && StrictMembers(members)
    case _ => true
  }

  predicate StrictItems(items: seq<Json>) {
    forall i :: 0 <= i < |items| ==> Strict(items[i])
  }

  predicate StrictMembers(members: seq<Member>) {
    forall i :: 0 <= i < |members| ==> Strict(members[i].value)
  }

  /** How `json.loads` (`plain`) and the guard's call (`hooked`) relate to the grammar: they
      accept no other text, and they see the grammar's document exactly when it is strict. */
  predicate Agree<T(==)>(grammar: Parsed<T>, plain: Parsed<T>, hooked: Parsed<T>, strict: bool) {
    if grammar.Err? then
      grammar.failure == Malformed && plain == grammar && hooked.Err?
    else
      && plain.Ok? && plain.rest == grammar.rest
      && (if strict then plain == grammar && hooked == grammar
          else hooked.Err? && hooked.failure != Malformed)
  }

  /** The three ways to read the value at the start of `t` agree. */
  predicate ModesAgree(t: Text) {
    var g := ParseValue(Grammar, t);
    Agree(g, ParseValue(Plain, t), ParseValue(Hooked, t), g.Ok? && Strict(g.value))
  }

  lemma {:induction false} ValueModes(t: Text)
    ensures ModesAgree(t)
    decreases |t|, 1
  {
    hide ModesAgree;
    if t != [] && t[0] == LBRACKET {
      ArrayModes(t);
    } else if t != [] && t[0] == LBRACE {
      ObjectModes(t);
    } else {
      OtherModes(t);
    }
  }

  lemma {:induction false} OtherModes(t: Text)
    requires t == [] || (t[0] != LBRACKET && t[0] != LBRACE)
    ensures ModesAgree(t)
  {
    hide WordEnd, NumberEnd, ParseString;
  }

  lemma {:induction false} ArrayModes(t: Text)
    requires t != [] && t[0] == LBRACKET
    ensures ModesAgree(t)
    decreases |t|, 0
  {
    hide ParseItems, ParseMembers;
    ItemsModes(SkipSpace(t[1..]));
  }

  lemma {:induction false} ObjectModes(t: Text)
    requires t != [] && t[0] == LBRACE
    ensures ModesAgree(t)
    decreases |t|, 0
  {
    hide ParseItems, ParseMembers, DistinctNames;
    DistinctEmpty();
    MembersModes(SkipSpace(t[1..]));
  }

  lemma DistinctEmpty()
    ensures DistinctNames([])
  {
  }

  lemma {:induction false} ItemsModes(t: Text)
    ensures
      var g := ParseItems(Grammar, t);
      Agree(g, ParseItems(Plain, t), ParseItems(Hooked, t), g.Ok? && StrictItems(g.value))
    decreases |t|, 2
  {
    hide ParseValue, Strict;
    ValueModes(t);
    var v := ParseValue(Grammar, t);
    if v.Ok? {
      StrictCons(v.value, []);
      assert [v.value] + [] == [v.value];
      var next := SkipSpace(v.rest);
      if next != [] && next[0] == COMMA {
        ItemsModes(SkipSpace(next[1..]));
        var more := ParseItems(Grammar, SkipSpace(next[1..]));
        if more.Ok? {
          StrictCons(v.value, more.value);
        }
      }
    }
  }

  lemma StrictCons(v: Json, more: seq<Json>)
    ensures StrictItems([v] + more) == (Strict(v) && StrictItems(more))
  {
    var all := [v] + more;
    assert all[0] == v;
    assert forall i :: 0 <= i < |more| ==> more[i] == all[i + 1];
  }

  lemma {:induction false} MemberModes(t: Text)
    ensures
      var g := ParseMember(Grammar, t);
      Agree(g, ParseMember(Plain, t), ParseMember(Hooked, t), g.Ok? && Strict(g.value.value))
    decreases |t|, 2
  {
    hide ParseValue, Strict;
    if t != [] && t[0] == QUOTE && ParseString(t[1..]).Ok? {
      var colon := SkipSpace(ParseString(t[1..]).rest);
      if colon != [] && colon[0] == COLON {
        ValueModes(SkipSpace(colon[1..]));
      }
    }
  }

  lemma {:induction false} MembersModes(t: Text)
    ensures
      var g := ParseMembers(Grammar, t);
      Agree(g, ParseMembers(Plain, t), ParseMembers(Hooked, t), g.Ok? && StrictMembers(g.value))
    decreases |t|, 3
  {
    hide ParseMember, Strict;
    MemberModes(t);
    var m := ParseMember(Grammar, t);
    if m.Ok? {
      StrictMembersCons(m.value, []);
      assert [m.value] + [] == [m.value];
      var next := SkipSpace(m.rest);
      if next != [] && next[0] == COMMA {
        MembersModes(SkipSpace(next[1..]));
        var more := ParseMembers(Grammar, SkipSpace(next[1..]));
        if more.Ok? {
          StrictMembersCons(m.value, more.value);
        }
      }
    }
  }

  lemma StrictMembersCons(m: Member, more: seq<Member>)
    ensures StrictMembers([m] + more) == (Strict(m.value) && StrictMembers(more))
  {
    var all := [m] + more;
    assert all[0] == m;
    assert forall i :: 0 <= i < |more| ==> more[i] == all[i + 1];
  }

  /** `json.loads` with the guard's hooks accepts exactly the strict documents of the grammar,
      and `json.loads` without hooks reads those the same. */
  lemma DocumentModes(t: Text)
    ensures
      var g := ParseDocument(Grammar, t);
      Agree(g, ParseDocument(Plain, t), ParseDocument(Hooked, t), g.Ok? && Strict(g.value))
  {
    hide ParseValue, Strict;
    ValueModes(SkipSpace(t));
  }

  // ------------------------------------------------- parsing undoes printing

  /** Values the compact printer writes as RFC 8259 JSON: every number is a number. */
  predicate Writable(v: Json) {
    match v
    case Number(lexeme) => 0 < NumberEnd(lexeme) == |lexeme|
    case NonFinite(_) => false
    case Array(items) => forall i :: 0 <= i < |items| ==> Writable(items[i])
    case Object(members) => forall i :: 0 <= i < |members| ==> Writable(members[i].value)
    case _ => true
  }

  lemma {:induction false} HexRoundTrip(n: int)
    requires 0 <= n < 16
    ensures HexValue(HexDigit(n)) == n
  {
  }

  lemma {:induction false} UnescapeEscape(c: int, more: Text)
    requires |Escape(c)| > 1
    ensures Unescape(Escape(c)[1..] + more) == (c, |Escape(c)| - 1)
  {
    var t := Escape(c)[1..] + more;
    assert forall i :: 1 <= i < |Escape(c)| ==> t[i - 1] == Escape(c)[i];
    if |Escape(c)| == 6 {
      HexRoundTrip(c / 16);
      HexRoundTrip(c % 16);
      var digits := t[1..];
      assert digits[0] == t[1] && digits[1] == t[2] && digits[2] == t[3] && digits[3] == t[4];
      assert CodeUnit(digits) == c;
    }
  }

  /** An escaped character is read back as that character. */
  lemma {:induction false} EscapeParses(c: int, more: Text)
    requires ParseString(more).Ok?
    ensures ParseString(Escape(c) + more) == Ok([c] + ParseString(more).value, ParseString(more).rest)
  {
    var e := Escape(c);
    var t := e + more;
    assert t[0] == e[0];
    assert t[|e|..] == more;
    if |e| > 1 {
      UnescapeEscape(c, more);
      hide Unescape, Escape;
      assert t[1..] == e[1..] + more;
    }
  }

  lemma {:induction false} ClosingQuote(rest: Text)
    ensures ParseString([QUOTE] + rest) == Ok([], rest)
  {
    assert ([QUOTE] + rest)[1..] == rest;
  }

  lemma {:induction false} StringRoundTrip(s: Text, rest: Text)
    ensures ParseString(PrintBody(s) + rest) == Ok(s, rest)
  {
    hide ParseString, Escape;
    if s == [] {
      ClosingQuote(rest);
    } else {
      StringRoundTrip(s[1..], rest);
      EscapeParses(s[0], PrintBody(s[1..]) + rest);
      assert PrintBody(s) + rest == Escape(s[0]) + (PrintBody(s[1..]) + rest);
      assert [s[0]] + s[1..] == s;
    }
  }

  /** A printed value starts with a character of its own: never white space, a comma, a colon
      or a closing bracket. */
  lemma {:induction false} PrintHead(v: Json)
    requires Writable(v)
    ensures Print(v) != []
    ensures !IsSpace(Print(v)[0]) && Print(v)[0] != RBRACKET && Print(v)[0] != RBRACE
  {
    if v.Number? {
      NumberHead(v.lexeme);
    }
  }

  /** Whether what follows a value leaves it alone. */
  predicate Separated(v: Json, rest: Text) {
    v.Number? && rest != [] ==> !Continues(rest[0])
  }

  lemma {:induction false} WordRoundTrip(v: Json, rest: Text)
    requires v.Null? || v.Bool?
    ensures ParseScalar(Grammar, Print(v) + rest) == Ok(v, rest)
  {
    var word := Print(v);
    assert WordEnd(word) == |word|;
    WordLocal(word, rest);
    hide WordEnd;
    Appended(word, |word|, rest);
    assert word[|word|..] + rest == rest;
  }

  lemma NoWord(lexeme: Text)
    requires NumberEnd(lexeme) > 0
    ensures lexeme != [] && WordEnd(lexeme) == 0
  {
    NumberHead(lexeme);
  }

  lemma {:induction false} NumberRoundTrip(v: Json, rest: Text)
    requires Writable(v) && v.Number? && Separated(v, rest)
    ensures ParseScalar(Grammar, Print(v) + rest) == Ok(v, rest)
  {
    var lexeme := v.lexeme;
    NoWord(lexeme);
    hide WordEnd, NumberEnd, Continues;
    WordLocal(lexeme, rest);
    NumberLocal(lexeme, rest);
    Appended(lexeme, |lexeme|, rest);
    assert lexeme[|lexeme|..] + rest == rest;
  }

  lemma {:induction false} ScalarRoundTrip(v: Json, rest: Text)
    requires Writable(v) && Separated(v, rest)
    requires v.Null? || v.Bool? || v.Number?
    ensures ParseValue(Grammar, Print(v) + rest) == Ok(v, rest)
  {
    PrintHead(v);
    assert (Print(v) + rest)[0] == Print(v)[0];
    if v.Number? {
      NumberRoundTrip(v, rest);
      NumberHead(v.lexeme);
    } else {
      WordRoundTrip(v, rest);
    }
    hide ParseScalar;
  }

  lemma {:induction false} ValueRoundTrip(v: Json, rest: Text)
    requires Writable(v) && Separated(v, rest)
    ensures ParseValue(Grammar, Print(v) + rest) == Ok(v, rest)
    decreases v, 2
  {
    if v.String? {
      TextRoundTrip(v, rest);
    } else if v.Array? {
      hide ParseValue, Print, Writable, Separated;
      ArrayRoundTrip(v, rest);
    } else if v.Object? {
      hide ParseValue, Print, Writable, Separated;
      ObjectRoundTrip(v, rest);
    } else {
      assert !v.NonFinite?;
      hide ParseValue, Print, Writable, Separated;
      ScalarRoundTrip(v, rest);
    }
  }

  lemma TextRoundTrip(v: Json, rest: Text)
    requires v.String?
    ensures ParseValue(Grammar, Print(v) + rest) == Ok(v, rest)
  {
    hide ParseValue, ParseString;
    StringRoundTrip(v.text, rest);
    QuotedValue(PrintBody(v.text) + rest, v.text, rest);
    assert Print(v) + rest == [QUOTE] + (PrintBody(v.text) + rest);
  }

  lemma {:induction false} ArrayRoundTrip(v: Json, rest: Text)
    requires v.Array? && Writable(v)
    ensures ParseValue(Grammar, Print(v) + rest) == Ok(v, rest)
    decreases v, 1
  {
    hide ParseValue, ParseItems, PrintItems;
    var items := v.items;
    if items == [] {
      EmptyBrackets(rest);
      assert Print(v) + rest == [LBRACKET] + ([RBRACKET] + rest);
    } else {
      ItemsRoundTrip(items, rest);
      ItemsHead(items);
      assert (PrintItems(items) + rest)[0] == PrintItems(items)[0];
      BracketedItems(PrintItems(items) + rest, items, rest);
      assert Print(v) + rest == [LBRACKET] + (PrintItems(items) + rest);
    }
  }

  lemma {:induction false} ObjectRoundTrip(v: Json, rest: Text)
    requires v.Object? && Writable(v)
    ensures ParseValue(Grammar, Print(v) + rest) == Ok(v, rest)
    decreases v, 1
  {
    hide ParseValue, ParseMembers, PrintMembers;
    var members := v.members;
    if members == [] {
      EmptyBrackets(rest);
      assert Print(v) + rest == [LBRACE] + ([RBRACE] + rest);
    } else {
      MembersRoundTrip(members, rest);
      MembersHead(members);
      assert (PrintMembers(members) + rest)[0] == QUOTE;
      BracedMembers(PrintMembers(members) + rest, members, rest);
      assert Print(v) + rest == [LBRACE] + (PrintMembers(members) + rest);
    }
  }

  lemma {:induction false} ItemsHead(items: seq<Json>)
    requires items != [] && Writable(items[0])
    ensures PrintItems(items) != []
    ensures !IsSpace(PrintItems(items)[0]) && PrintItems(items)[0] != RBRACKET
  {
    PrintHead(items[0]);
  }

  lemma {:induction false} QuotedValue(t: Text, s: Text, rest: Text)
    requires ParseString(t) == Ok(s, rest)
    ensures ParseValue(Grammar, [QUOTE] + t) == Ok(String(s), rest)
  {
    assert ([QUOTE] + t)[1..] == t;
  }

  lemma {:induction false} EmptyBrackets(rest: Text)
    ensures ParseValue(Grammar, [LBRACKET] + ([RBRACKET] + rest)) == Ok(Array([]), rest)
    ensures ParseValue(Grammar, [LBRACE] + ([RBRACE] + rest)) == Ok(Object([]), rest)
  {
    assert ([LBRACKET] + ([RBRACKET] + rest))[1..] == [RBRACKET] + rest;
    assert ([LBRACE] + ([RBRACE] + rest))[1..] == [RBRACE] + rest;
    assert ([RBRACKET] + rest)[1..] == rest == ([RBRACE] + rest)[1..];
  }

  lemma {:induction false} BracketedItems(t: Text, items: seq<Json>, rest: Text)
    requires t != [] && !IsSpace(t[0]) && t[0] != RBRACKET
    requires ParseItems(Grammar, t) == Ok(items, rest)
    ensures ParseValue(Grammar, [LBRACKET] + t) == Ok(Array(items), rest)
  {
    hide ParseItems;
    assert ([LBRACKET] + t)[1..] == t;
    assert SkipSpace(t) == t;
  }

  lemma {:induction false} BracedMembers(t: Text, members: seq<Member>, rest: Text)
    requires t != [] && t[0] == QUOTE
    requires ParseMembers(Grammar, t) == Ok(members, rest)
    ensures ParseValue(Grammar, [LBRACE] + t) == Ok(Object(members), rest)
  {
    hide ParseMembers;
    assert ([LBRACE] + t)[1..] == t;
    assert SkipSpace(t) == t;
  }

  lemma {:induction false} ItemsRoundTrip(items: seq<Json>, rest: Text)
    requires items != [] && forall i :: 0 <= i < |items| ==> Writable(items[i])
    ensures ParseItems(Grammar, PrintItems(items) + rest) == Ok(items, rest)
    decreases items, 0
  {
    hide Writable, ParseItems, ParseValue;
    if |items| == 1 {
      var tail := [RBRACKET] + rest;
      assert PrintItems(items) + rest == Print(items[0]) + tail;
      ValueRoundTrip(items[0], tail);
      LastItem(Print(items[0]) + tail, items[0], rest);
      assert items == [items[0]];
    } else {
      var next := PrintItems(items[1..]) + rest;
      var tail := [COMMA] + next;
      ConcatFour(Print(items[0]), [COMMA], PrintItems(items[1..]), rest);
      ValueRoundTrip(items[0], tail);
      PrintHead(items[1]);
      assert next[0] == Print(items[1])[0];
      ItemsRoundTrip(items[1..], rest);
      OneMoreItem(Print(items[0]) + tail, items[0], next);
      assert items == [items[0]] + items[1..];
    }
  }

  lemma ConcatFour(a: Text, b: Text, c: Text, d: Text)
    ensures (a + (b + c)) + d == a + (b + (c + d))
  {
  }

  lemma {:induction false} LastItem(t: Text, v: Json, rest: Text)
    requires ParseValue(Grammar, t) == Ok(v, [RBRACKET] + rest)
    ensures ParseItems(Grammar, t) == Ok([v], rest)
  {
    hide ParseValue;
    assert ([RBRACKET] + rest)[1..] == rest;
  }

  lemma {:induction false} OneMoreItem(t: Text, v: Json, next: Text)
    requires ParseValue(Grammar, t) == Ok(v, [COMMA] + next)
    requires next != [] && !IsSpace(next[0]) && ParseItems(Grammar, next).Ok?
    ensures ParseItems(Grammar, t) == Ok([v] + ParseItems(Grammar, next).value, ParseItems(Grammar, next).rest)
  {
    hide ParseValue;
    assert ([COMMA] + next)[1..] == next;
    assert SkipSpace(next) == next;
  }

  lemma {:induction false} MemberRoundTrip(m: Member, rest: Text)
    requires Writable(m.value) && Separated(m.value, rest)
    ensures ParseMember(Grammar, PrintString(m.name) + [COLON] + Print(m.value) + rest) == Ok(m, rest)
    decreases m, 1
  {
    hide Writable, ParseValue, ParseString, ParseMember;
    var value := Print(m.value) + rest;
    PrintHead(m.value);
    assert value[0] == Print(m.value)[0];
    ValueRoundTrip(m.value, rest);
    StringRoundTrip(m.name, [COLON] + value);
    NameAndValue(PrintBody(m.name) + ([COLON] + value), m, value, rest);
    assert PrintString(m.name) + [COLON] + Print(m.value) + rest
        == [QUOTE] + (PrintBody(m.name) + ([COLON] + value));
  }

  lemma {:induction false} NameAndValue(t: Text, m: Member, value: Text, rest: Text)
    requires ParseString(t) == Ok(m.name, [COLON] + value)
    requires value != [] && !IsSpace(value[0]) && ParseValue(Grammar, value) == Ok(m.value, rest)
    ensures ParseMember(Grammar, [QUOTE] + t) == Ok(m, rest)
  {
    hide ParseValue, ParseString;
    assert ([QUOTE] + t)[1..] == t;
    assert ([COLON] + value)[1..] == value;
    assert SkipSpace(value) == value;
  }

  lemma {:induction false} MembersRoundTrip(members: seq<Member>, rest: Text)
    requires members != [] && forall i :: 0 <= i < |members| ==> Writable(members[i].value)
    ensures ParseMembers(Grammar, PrintMembers(members) + rest) == Ok(members, rest)
    decreases members, 0
  {
    hide Writable, ParseMember, ParseMembers, PrintString, Print;
    var m := members[0];
    var first := PrintString(m.name) + [COLON] + Print(m.value);
    if |members| == 1 {
      var tail := [RBRACE] + rest;
      assert PrintMembers(members) + rest == first + tail;
      MemberRoundTrip(m, tail);
      LastMember(first + tail, m, rest);
      assert members == [m];
    } else {
      var next := PrintMembers(members[1..]) + rest;
      var tail := [COMMA] + next;
      ConcatFour(first, [COMMA], PrintMembers(members[1..]), rest);
      MemberRoundTrip(m, tail);
      MembersHead(members[1..]);
      assert next[0] == QUOTE;
      MembersRoundTrip(members[1..], rest);
      OneMoreMember(first + tail, m, next);
      assert members == [m] + members[1..];
    }
  }

  lemma {:induction false} MembersHead(members: seq<Member>)
    requires members != []
    ensures PrintMembers(members) != [] && PrintMembers(members)[0] == QUOTE
  {
    assert PrintString(members[0].name)[0] == QUOTE;
  }

  lemma {:induction false} LastMember(t: Text, m: Member, rest: Text)
    requires ParseMember(Grammar, t) == Ok(m, [RBRACE] + rest)
    ensures ParseMembers(Grammar, t) == Ok([m], rest)
  {
    hide ParseMember;
    assert ([RBRACE] + rest)[1..] == rest;
  }

  lemma {:induction false} OneMoreMember(t: Text, m: Member, next: Text)
    requires ParseMember(Grammar, t) == Ok(m, [COMMA] + next)
    requires next != [] && next[0] == QUOTE && ParseMembers(Grammar, next).Ok?
    ensures ParseMembers(Grammar, t)
         == Ok([m] + ParseMembers(Grammar, next).value, ParseMembers(Grammar, next).rest)
  {
    hide ParseMember;
    assert ([COMMA] + next)[1..] == next;
    assert SkipSpace(next) == next;
  }

  /** `json.loads(json.dumps(v)) == v`, with or without the hooks. */
  lemma DocumentRoundTrip(mode: Mode, v: Json)
    requires Writable(v) && Strict(v)
    ensures ParseDocument(mode, Print(v)) == Ok(v, [])
  {
    hide Writable, Strict, ParseValue, Print;
    PrintHead(v);
    assert Print(v) + [] == Print(v);
    ValueRoundTrip(v, []);
    assert SkipSpace(Print(v)) == Print(v);
    DocumentModes(Print(v));
  }

  /** An interrupted document is no document: a strict prefix of a printed object, array or
      string never parses. */
  lemma StrictPrefixMalformed(v: Json, n: nat)
    requires Writable(v) && (v.Object? || v.Array? || v.String?)
    requires n < |Print(v)|
    ensures ParseDocument(Grammar, Print(v)[..n]).Err?
    ensures ParseDocument(Plain, Print(v)[..n]).Err?
    ensures ParseDocument(Hooked, Print(v)[..n]).Err?
  {
    hide Writable, ParseDocument, Print;
    CutIsNoDocument(v, n);
    DocumentModes(Print(v)[..n]);
  }

  lemma CutIsNoDocument(v: Json, n: nat)
    requires Writable(v) && (v.Object? || v.Array? || v.String?)
    requires n < |Print(v)|
    ensures ParseDocument(Grammar, Print(v)[..n]).Err?
  {
    hide Writable, ParseValue, Print;
    var cut := Print(v)[..n];
    PrintHead(v);
    CutIsNoValue(v, n);
    if cut != [] {
      assert cut[0] == Print(v)[0];
    }
    assert SkipSpace(cut) == cut;
  }

  lemma NothingIsNoValue()
    ensures ParseValue(Grammar, []).Err?
  {
  }

  lemma PrintedIsClosed(v: Json)
    requires v.Object? || v.Array? || v.String?
    ensures Print(v) != [] && (Print(v)[0] == QUOTE || Print(v)[0] == LBRACKET || Print(v)[0] == LBRACE)
  {
  }

  lemma CutIsNoValue(v: Json, n: nat)
    requires Writable(v) && (v.Object? || v.Array? || v.String?)
    requires n < |Print(v)|
    ensures ParseValue(Grammar, Print(v)[..n]).Err?
  {
    hide Writable, ParseValue, Print;
    var cut, more := Print(v)[..n], Print(v)[n..];
    NothingIsNoValue();
    PrintedIsClosed(v);
    assert cut != [] ==> cut[0] == Print(v)[0];
    if ParseValue(Grammar, cut).Ok? {
      ValueLocal(Grammar, cut, more);
      assert cut + more == Print(v) == Print(v) + [];
      ValueRoundTrip(v, []);
    }
  }

  // ---------------------------------------------------------------- characters of printed text

  predicate MadeOf(t: Text, ok: int -> bool) {
    forall i :: 0 <= i < |t| ==> ok(t[i])
  }

  /** Every text in the value is made of such characters. */
  predicate ValueMadeOf(v: Json, ok: int -> bool) {
    match v
    case String(s) => MadeOf(s, ok)
    case Number(lexeme) => MadeOf(lexeme, ok)
    case NonFinite(token) => MadeOf(token, ok)
    case Array(items) => forall i :: 0 <= i < |items| ==> ValueMadeOf(items[i], ok)
    case Object(members) =>
      forall i :: 0 <= i < |members| ==> MadeOf(members[i].name, ok) && ValueMadeOf(members[i].value, ok)
    case _ => true
  }

  predicate HasAscii(ok: int -> bool) {
    forall c :: 0x20 <= c <= 0x7E ==> ok(c)
  }

  lemma {:induction false} BodyMadeOf(s: Text, ok: int -> bool)
    requires HasAscii(ok) && MadeOf(s, ok)
    ensures MadeOf(PrintBody(s), ok)
  {
    if s != [] {
      BodyMadeOf(s[1..], ok);
    }
  }

  /** Printing adds nothing but printable ASCII. */
  lemma {:induction false} PrintMadeOf(v: Json, ok: int -> bool)
    requires HasAscii(ok) && ValueMadeOf(v, ok)
    ensures MadeOf(Print(v), ok)
    decreases v, 1
  {
    match v
    case String(s) => BodyMadeOf(s, ok);
    case Array(items) => if items != [] { ItemsMadeOf(items, ok); }
    case Object(members) => if members != [] { MembersMadeOf(members, ok); }
    case _ =>
  }

  lemma {:induction false} ItemsMadeOf(items: seq<Json>, ok: int -> bool)
    requires HasAscii(ok) && items != [] && forall i :: 0 <= i < |items| ==> ValueMadeOf(items[i], ok)
    ensures MadeOf(PrintItems(items), ok)
    decreases items, 0
  {
    PrintMadeOf(items[0], ok);
    if |items| > 1 {
      ItemsMadeOf(items[1..], ok);
    }
  }

  lemma {:induction false} MembersMadeOf(members: seq<Member>, ok: int -> bool)
    requires HasAscii(ok) && members != []
    requires forall i :: 0 <= i < |members| ==> MadeOf(members[i].name, ok) && ValueMadeOf(members[i].value, ok)
    ensures MadeOf(PrintMembers(members), ok)
    decreases members, 0
  {
    BodyMadeOf(members[0].name, ok);
    PrintMadeOf(members[0].value, ok);
    if |members| > 1 {
      MembersMadeOf(members[1..], ok);
    }
  }
}
