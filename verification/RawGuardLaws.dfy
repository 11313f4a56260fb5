/** What the guard's scans mean on the document they scan. */
module RawGuardLaws {
  import opened Text
  import opened Json
  import opened RawGuard
  import JsonLaws
  import Utf8

  // ---------------------------------------------------------------- depth

  function Max(a: nat, b: nat): nat {
    if a < b then b else a
  }

  /** Container nesting of a document. */
  function Depth(v: Json): nat
    decreases v, 1
  {
    match v
    case Array(items) => 1 + DepthOfItems(items)
    case Object(members) => 1 + DepthOfMembers(members)
    case _ => 0
  }

  function DepthOfItems(items: seq<Json>): nat
    decreases items, 0
  {
    if items == [] then 0 else Max(Depth(items[0]), DepthOfItems(items[1..]))
  }

  function DepthOfMembers(members: seq<Member>): nat
    decreases members, 0
  {
    if members == [] then 0 else Max(Depth(members[0].value), DepthOfMembers(members[1..]))
  }

  /** The scan outside strings. */
  predicate Scan(t: Text, depth: nat) {
    DepthRejects(t, depth, false, false)
  }

  predicate IsPlain(c: int) {
    c != QUOTE && c != LBRACKET && c != LBRACE && c != RBRACKET && c != RBRACE
  }

  lemma {:induction false} ScanPlain(t: Text, n: nat, depth: nat)
    requires n <= |t| && forall i :: 0 <= i < n ==> IsPlain(t[i])
    ensures Scan(t, depth) == Scan(t[n..], depth)
    decreases n
  {
    if n == 0 {
      assert t[0..] == t;
    } else {
      ScanPlain(t[1..], n - 1, depth);
      assert t[1..][n - 1..] == t[n..];
    }
  }

  lemma {:induction false} ScanSpace(t: Text, depth: nat)
    ensures Scan(SkipSpace(t), depth) == Scan(t, depth)
    decreases |t|
  {
    if t != [] && IsSpace(t[0]) {
      ScanSpace(t[1..], depth);
    }
  }

  lemma {:induction false} ScanInside(t: Text, n: nat, depth: nat)
    requires n <= |t| && forall i :: 0 <= i < n ==> t[i] != QUOTE && t[i] != BACKSLASH
    ensures DepthRejects(t, depth, true, false) == DepthRejects(t[n..], depth, true, false)
    decreases n
  {
    if n == 0 {
      assert t[0..] == t;
    } else {
      ScanInside(t[1..], n - 1, depth);
      assert t[1..][n - 1..] == t[n..];
    }
  }

  lemma {:induction false} HexIsInside(t: Text)
    requires CodeUnit(t) >= 0
    ensures forall i :: 0 <= i < 4 ==> t[i] != QUOTE && t[i] != BACKSLASH
  {
  }

  /** The scan passes over an escape as the reader does. `t` starts behind the backslash. */
  lemma {:induction false} ScanEscape(t: Text, depth: nat)
    requires Unescape(t).1 > 0
    ensures DepthRejects(t, depth, true, true) == DepthRejects(t[Unescape(t).1..], depth, true, false)
  {
    hide CodeUnit;
    var n := Unescape(t).1;
    assert DepthRejects(t, depth, true, true) == DepthRejects(t[1..], depth, true, false);
    if n == 5 {
      HexIsInside(t[1..]);
      ScanInside(t[1..], 4, depth);
      assert t[1..][4..] == t[5..];
    } else if n == 11 {
      HexIsInside(t[1..]);
      ScanInside(t[1..], 4, depth);
      assert t[1..][4..] == t[5..];
      assert t[5..][1..] == t[6..] && t[6..][1..] == t[7..];
      assert t[5..][0] == BACKSLASH;
      HexIsInside(t[7..]);
      ScanInside(t[7..], 4, depth);
      assert t[7..][4..] == t[11..];
    }
  }

  /** Brackets, quotes and escapes inside names and strings are never counted. */
  lemma {:induction false} ScanString(t: Text, depth: nat)
    requires ParseString(t).Ok?
    ensures DepthRejects(t, depth, true, false) == Scan(ParseString(t).rest, depth)
    decreases |t|
  {
    if t[0] == QUOTE {
    } else if t[0] == BACKSLASH {
      var n := Unescape(t[1..]).1;
      ScanEscape(t[1..], depth);
      assert t[1..][n..] == t[1 + n..];
      ScanString(t[1 + n..], depth);
    } else {
      ScanString(t[1..], depth);
    }
  }

  lemma {:induction false} DigitsArePlain(t: Text, from: nat)
    requires from <= |t|
    ensures forall i :: from <= i < from + DigitRun(t[from..]) ==> IsDigit(t[i])
    decreases |t| - from
  {
    if from < |t| && IsDigit(t[from]) {
      DigitsArePlain(t, from + 1);
      assert t[from..][1..] == t[from + 1..];
    }
  }

  lemma {:induction false} IntegerIsPlain(t: Text, from: nat)
    requires from <= |t|
    ensures forall i :: from <= i < IntegerEnd(t, from) ==> IsPlain(t[i])
  {
    DigitsArePlain(t, from);
  }

  lemma {:induction false} FractionIsPlain(t: Text, from: nat)
    requires from <= |t|
    ensures forall i :: from <= i < FractionEnd(t, from) ==> IsPlain(t[i])
  {
    if from < |t| {
      DigitsArePlain(t, from + 1);
    }
  }

  lemma {:induction false} ExponentIsPlain(t: Text, from: nat)
    requires from <= |t|
    ensures forall i :: from <= i < ExponentEnd(t, from) ==> IsPlain(t[i])
  {
    if from + 1 <= |t| {
      DigitsArePlain(t, from + 1);
    }
    if from + 2 <= |t| {
      DigitsArePlain(t, from + 2);
    }
  }

  lemma {:induction false} NumberIsPlain(t: Text)
    ensures forall i :: 0 <= i < NumberEnd(t) ==> IsPlain(t[i])
  {
    hide IntegerEnd, FractionEnd, ExponentEnd;
    var sign := if t != [] && t[0] == MINUS then 1 else 0;
    var integer := IntegerEnd(t, sign);
    IntegerIsPlain(t, sign);
    FractionIsPlain(t, integer);
    ExponentIsPlain(t, FractionEnd(t, integer));
  }

  lemma {:induction false} WordIsPlain(t: Text)
    ensures forall i :: 0 <= i < WordEnd(t) ==> IsPlain(t[i])
  {
  }

  lemma {:induction false} ScanScalar(t: Text, depth: nat)
    requires ParseScalar(Grammar, t).Ok?
    ensures Scan(ParseScalar(Grammar, t).rest, depth) == Scan(t, depth)
    ensures Depth(ParseScalar(Grammar, t).value) == 0
  {
    hide WordEnd, NumberEnd, IsPlain, Scan;
    WordIsPlain(t);
    NumberIsPlain(t);
    if WordEnd(t) > 0 {
      ScanPlain(t, WordEnd(t), depth);
    } else {
      ScanPlain(t, NumberEnd(t), depth);
    }
  }

  /** The scan over a value: it rejects when the nesting goes too deep, and is back at the
      depth it started from otherwise. */
  lemma {:induction false} ScanValue(t: Text, depth: nat)
    requires ParseValue(Grammar, t).Ok? && depth <= MAX_DEPTH
    ensures Scan(t, depth)
         == (depth + Depth(ParseValue(Grammar, t).value) > MAX_DEPTH || Scan(ParseValue(Grammar, t).rest, depth))
    decreases |t|, 4
  {
    if t[0] == QUOTE {
      ScanString(t[1..], depth);
    } else if t[0] == LBRACKET || t[0] == LBRACE {
      ScanContainer(t, depth);
    } else {
      ScanScalar(t, depth);
    }
  }

  lemma {:induction false} ScanContainer(t: Text, depth: nat)
    requires ParseValue(Grammar, t).Ok? && depth <= MAX_DEPTH
    requires t[0] == LBRACKET || t[0] == LBRACE
    ensures Scan(t, depth)
         == (depth + Depth(ParseValue(Grammar, t).value) > MAX_DEPTH || Scan(ParseValue(Grammar, t).rest, depth))
    decreases |t|, 3
  {
    if depth == MAX_DEPTH {
      hide ParseMembers, ParseItems, DepthOfItems, DepthOfMembers;
    } else if t[0] == LBRACKET {
      ScanArray(t, depth);
    } else {
      ScanObject(t, depth);
    }
  }

  lemma {:induction false} ScanArray(t: Text, depth: nat)
    requires ParseValue(Grammar, t).Ok? && depth < MAX_DEPTH && t[0] == LBRACKET
    ensures Scan(t, depth)
         == (depth + Depth(ParseValue(Grammar, t).value) > MAX_DEPTH || Scan(ParseValue(Grammar, t).rest, depth))
    decreases |t|, 2
  {
    hide ParseMembers, ParseItems;
    var first := SkipSpace(t[1..]);
    ScanSpace(t[1..], depth + 1);
    if first[0] != RBRACKET {
      ScanItems(first, depth + 1);
    }
  }

  lemma {:induction false} ScanObject(t: Text, depth: nat)
    requires ParseValue(Grammar, t).Ok? && depth < MAX_DEPTH && t[0] == LBRACE
    ensures Scan(t, depth)
         == (depth + Depth(ParseValue(Grammar, t).value) > MAX_DEPTH || Scan(ParseValue(Grammar, t).rest, depth))
    decreases |t|, 2
  {
    hide ParseMembers, ParseItems;
    var first := SkipSpace(t[1..]);
    ScanSpace(t[1..], depth + 1);
    if first[0] != RBRACE {
      ScanMembers(first, depth + 1);
    }
  }

  lemma {:induction false} ScanItems(t: Text, depth: nat)
    requires ParseItems(Grammar, t).Ok? && 0 < depth <= MAX_DEPTH
    ensures Scan(t, depth)
         == (depth + DepthOfItems(ParseItems(Grammar, t).value) > MAX_DEPTH
             || Scan(ParseItems(Grammar, t).rest, depth - 1))
    decreases |t|, 5
  {
    hide ParseValue, Depth;
    ScanValue(t, depth);
    var next := SkipSpace(ParseValue(Grammar, t).rest);
    ScanSpace(ParseValue(Grammar, t).rest, depth);
    if next[0] == COMMA {
      ScanSpace(next[1..], depth);
      ScanItems(SkipSpace(next[1..]), depth);
    }
  }

  lemma {:induction false} ScanMember(t: Text, depth: nat)
    requires ParseMember(Grammar, t).Ok? && depth <= MAX_DEPTH
    ensures Scan(t, depth)
         == (depth + Depth(ParseMember(Grammar, t).value.value) > MAX_DEPTH
             || Scan(ParseMember(Grammar, t).rest, depth))
    decreases |t|, 5
  {
    hide ParseValue, Depth, ParseString;
    ScanString(t[1..], depth);
    var colon := SkipSpace(ParseString(t[1..]).rest);
    ScanSpace(ParseString(t[1..]).rest, depth);
    ScanSpace(colon[1..], depth);
    ScanValue(SkipSpace(colon[1..]), depth);
  }

  lemma {:induction false} ScanMembers(t: Text, depth: nat)
    requires ParseMembers(Grammar, t).Ok? && 0 < depth <= MAX_DEPTH
    ensures Scan(t, depth)
         == (depth + DepthOfMembers(ParseMembers(Grammar, t).value) > MAX_DEPTH
             || Scan(ParseMembers(Grammar, t).rest, depth - 1))
    decreases |t|, 6
  {
    hide ParseMember, Depth;
    ScanMember(t, depth);
    var next := SkipSpace(ParseMember(Grammar, t).rest);
    ScanSpace(ParseMember(Grammar, t).rest, depth);
    if next[0] == COMMA {
      ScanSpace(next[1..], depth);
      ScanMembers(SkipSpace(next[1..]), depth);
    }
  }

  /** The one-pass depth scan is exact: on every text of every document, whatever its white
      space and its strings, it rejects exactly when containers nest deeper than eight. */
  lemma DepthScanExact(t: Text)
    requires ParseDocument(Grammar, t).Ok?
    ensures DepthRejects(t, 0, false, false) <==> Depth(ParseDocument(Grammar, t).value) > 8
  {
    hide ParseValue, Depth;
    ScanSpace(t, 0);
    ScanValue(SkipSpace(t), 0);
    var after := ParseValue(Grammar, SkipSpace(t)).rest;
    ScanSpace(after, 0);
    assert !Scan([], 0);
  }

  // ---------------------------------------------------------------- the pipeline

  /** Everything the guard is there to refuse in a document. */
  predicate Clean(v: Json) {
    Depth(v) <= 8 && JsonLaws.Strict(v) && !HasControl(v)
  }

  /** The guard over text, exactly: a document other than `null` passes if and only if it is
      clean; `null` passes if and only if the white space around it is free of controls. */
  lemma GuardTextExact(text: Text)
    requires ParseDocument(Grammar, text).Ok?
    ensures
      var v := ParseDocument(Grammar, text).value;
      GuardText(text) == Passed <==> if v.Null? then !TextHasControl(text) else Clean(v)
    ensures GuardText(text) == Rejected(DepthExceeded) <==> Depth(ParseDocument(Grammar, text).value) > 8
  {
    hide ParseDocument, Depth, HasControl, JsonLaws.Strict;
    JsonLaws.DocumentModes(text);
    DepthScanExact(text);
    DepthOfNull();
  }

  lemma DepthOfNull()
    ensures Depth(Null) == 0 && JsonLaws.Strict(Null)
  {
  }

  /** The `null` quirk: a clean document that the guard refuses for the line break behind it,
      which it accepts behind any other document. */
  lemma NullQuirk()
    ensures Clean(Null) && ParseDocument(Grammar, Lit("null") + [0x0A]) == Ok(Null, [])
    ensures GuardText(Lit("null") + [0x0A]) == Rejected(ControlCharacter)
    ensures GuardText(Lit("true") + [0x0A]) == Passed
  {
    var t, u := Lit("null"), Lit("true");
    JsonLaws.ScalarRoundTrip(Null, [0x0A]);
    JsonLaws.ScalarRoundTrip(Bool(true), [0x0A]);
    assert SkipSpace([0x0A]) == [] by { assert [0x0A][1..] == []; }
    assert SkipSpace(t + [0x0A]) == t + [0x0A] && SkipSpace(u + [0x0A]) == u + [0x0A];
    assert (t + [0x0A])[4] == 0x0A;
    GuardTextExact(t + [0x0A]);
    GuardTextExact(u + [0x0A]);
  }

  lemma {:induction false} DocumentHead(text: Text)
    requires ParseDocument(Grammar, text).Ok?
    ensures text != [] && 0 < text[0] <= 0x7F
  {
    if text != [] && !IsSpace(text[0]) && ParseScalar(Grammar, text).Ok? {
      if NumberEnd(text) > 0 {
        JsonLaws.NumberHead(text);
      }
      hide NumberEnd;
      assert WordEnd(text) > 0 ==> 0 < text[0] <= 0x7F;
    }
  }

  lemma {:induction false} BomDecodes(raw: Bytes)
    requires HasBom(raw)
    ensures
      var t := Utf8.Decode(raw);
      t.None? || (t.value != [] && (t.value[0] == 0 || t.value[0] == 0xFEFF))
  {
  }

  /** A document in UTF-8 never starts with a byte order mark. */
  lemma DocumentHasNoBom(raw: Bytes)
    requires Utf8.Decode(raw).Some? && ParseDocument(Grammar, Utf8.Decode(raw).value).Ok?
    ensures !HasBom(raw)
  {
    hide ParseDocument, Utf8.Decode, HasBom;
    DocumentHead(Utf8.Decode(raw).value);
    if HasBom(raw) {
      BomDecodes(raw);
    }
  }

  /** The guard over bytes, exactly: the encoding of a document other than `null` passes if and
      only if it fits the bound and the document is clean. */
  lemma GuardExact(raw: Bytes)
    requires Utf8.Decode(raw).Some? && ParseDocument(Grammar, Utf8.Decode(raw).value).Ok?
    requires !ParseDocument(Grammar, Utf8.Decode(raw).value).value.Null?
    ensures Guard(raw) == Passed
       <==> |raw| <= 262144 && Clean(ParseDocument(Grammar, Utf8.Decode(raw).value).value)
  {
    hide ParseDocument, GuardText, Clean, HasBom, Utf8.Decode;
    DocumentHasNoBom(raw);
    GuardTextExact(Utf8.Decode(raw).value);
  }
}
