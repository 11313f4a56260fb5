/** Bounded diagnostics and their serialisation within 65,536 bytes. Texts hold scalar values only. */
module Diagnostics {
  import opened Text
  import opened Json
  import opened JsonLaws
  import opened MarkerLaws
  import LockMetadata
  import Utf8

  const MAX_COUNT := 32
  const MAX_SERIALIZED_BYTES := 65536

  datatype Diagnostic = Diagnostic(
    phase: Text, code: Text, safePath: Text, labelText: Option<Text>, localPath: Option<Text>)

  function Truncate(value: Text, limit: nat): (t: Text)
    ensures |t| <= limit && t <= value
    ensures |value| <= limit ==> t == value
  {
    if |value| <= limit then value else value[..limit]
  }

  /** An empty optional text counts as absent. */
  function TruncateOption(value: Option<Text>, limit: nat): Option<Text> {
    if value.None? || value.value == [] then None else Some(Truncate(value.value, limit))
  }

  function BoundedOne(d: Diagnostic): Diagnostic {
    Diagnostic(Truncate(d.phase, 16), Truncate(d.code, 32), Truncate(d.safePath, 256),
               TruncateOption(d.labelText, 256), TruncateOption(d.localPath, 1024))
  }

  /** `bounded`: at most 32 items, every field at its cap. */
  function Bounded(items: seq<Diagnostic>): (b: seq<Diagnostic>)
    ensures |b| == (if |items| <= 32 then |items| else 32)
    ensures forall i :: 0 <= i < |b| ==> b[i] == BoundedOne(items[i])
  {
    var n := if |items| <= MAX_COUNT then |items| else MAX_COUNT;
    seq(n, i requires 0 <= i < n <= |items| => BoundedOne(items[i]))
  }

  function Optional(name: string, value: Option<Text>): seq<Member> {
    if value.None? then [] else [Member(Lit(name), String(value.value))]
  }

  function ToDict(d: Diagnostic): Json {
    Object([Member(Lit("phase"), String(d.phase)), Member(Lit("code"), String(d.code)),
            Member(Lit("safe_path"), String(d.safePath))] +
           Optional("label", d.labelText) + Optional("affected_local_path", d.localPath))
  }

  function ToDicts(items: seq<Diagnostic>): (dicts: seq<Json>)
    ensures |dicts| == |items|
  {
    seq(|items|, i requires 0 <= i < |items| => ToDict(items[i]))
  }

  function Document(items: seq<Diagnostic>): Json {
    Object([Member(Lit("count"), Number(LockMetadata.Decimal(|items|))), Member(Lit("items"), Array(ToDicts(items)))])
  }

  predicate IsScalarDiagnostic(d: Diagnostic) {
    && IsScalarText(d.phase) && IsScalarText(d.code) && IsScalarText(d.safePath)
    && (d.labelText.Some? ==> IsScalarText(d.labelText.value))
    && (d.localPath.Some? ==> IsScalarText(d.localPath.value))
  }

  predicate AreScalar(items: seq<Diagnostic>) {
    forall i :: 0 <= i < |items| ==> IsScalarDiagnostic(items[i])
  }

  lemma BoundedIsScalar(items: seq<Diagnostic>)
    requires AreScalar(items)
    ensures AreScalar(Bounded(items))
  {
  }

  // ---------------------------------------------------------------- scalar text only

  predicate ScalarValue(v: Json) {
    ValueMadeOf(v, IsScalar)
  }

  lemma PrintIsScalar(v: Json)
    requires ScalarValue(v)
    ensures IsScalarText(Print(v))
  {
    PrintMadeOf(v, IsScalar);
  }

  lemma DocumentIsScalar(items: seq<Diagnostic>)
    requires AreScalar(items)
    ensures ScalarValue(Document(items)) && ScalarValue(Array(ToDicts(items)))
  {
    var dicts := ToDicts(items);
    forall i | 0 <= i < |items| ensures ScalarValue(dicts[i]) {
      DictIsScalar(items[i]);
    }
    hide ToDict, ToDicts, AreScalar;
    assert IsScalarText(LockMetadata.Decimal(|items|));
    assert ScalarValue(Array(dicts));
    hide ScalarValue;
    DocumentOfScalar(Number(LockMetadata.Decimal(|items|)), Array(dicts));
  }

  lemma DocumentOfScalar(count: Json, items: Json)
    requires count.Number? && IsScalarText(count.lexeme) && ScalarValue(items)
    ensures ScalarValue(Object([Member(Lit("count"), count), Member(Lit("items"), items)]))
  {
  }

  lemma DictIsScalar(d: Diagnostic)
    requires IsScalarDiagnostic(d)
    ensures ScalarValue(ToDict(d))
  {
    var members := ToDict(d).members;
    forall i | 0 <= i < |members| ensures IsScalarText(members[i].name) && ScalarValue(members[i].value) {
    }
  }

  // ---------------------------------------------------------------- size

  /** The serialised document for a list of items. */
  function TextOf(items: seq<Diagnostic>): (t: Text)
    requires AreScalar(items)
    ensures IsScalarText(t)
  {
    DocumentIsScalar(items);
    PrintIsScalar(Document(items));
    Print(Document(items))
  }

  predicate Fits(items: seq<Diagnostic>)
    requires AreScalar(items)
  {
    Utf8.Size(TextOf(items)) <= MAX_SERIALIZED_BYTES
  }

  function Before(): Text {
    [LBRACE] + PrintString(Lit("count")) + [COLON]
  }

  function Between(): Text {
    [COMMA] + PrintString(Lit("items")) + [COLON]
  }

  lemma TextParts(items: seq<Diagnostic>)
    requires AreScalar(items)
    ensures TextOf(items)
         == Before() + LockMetadata.Decimal(|items|) + (Between() + Print(Array(ToDicts(items))) + [RBRACE])
  {
    hide ToDicts, AreScalar, Lit, PrintString, LockMetadata.Decimal, Print;
    var count, list := Number(LockMetadata.Decimal(|items|)), Array(ToDicts(items));
    PrintTwoMembers(Lit("count"), count, Lit("items"), list);
    PrintNumber(LockMetadata.Decimal(|items|));
  }

  lemma PrintNumber(lexeme: Text)
    ensures Print(Number(lexeme)) == lexeme
  {
  }

  lemma PrintTwoMembers(a: Text, v: Json, b: Text, w: Json)
    ensures Print(Object([Member(a, v), Member(b, w)]))
         == [LBRACE] + PrintString(a) + [COLON] + Print(v) + ([COMMA] + PrintString(b) + [COLON] + Print(w) + [RBRACE])
  {
    var m := [Member(a, v), Member(b, w)];
    PrintLast(Member(b, w));
    PrintFirst(Member(a, v), Member(b, w));
    hide PrintString, Print, PrintMembers;
    Regroup(PrintString(a), Print(v), PrintString(b), Print(w));
    assert Print(Object(m)) == [LBRACE] + PrintMembers(m) by { PrintObject(m); }
  }

  lemma PrintObject(members: seq<Member>)
    requires members != []
    ensures Print(Object(members)) == [LBRACE] + PrintMembers(members)
  {
  }

  lemma PrintLast(m: Member)
    ensures PrintMembers([m]) == PrintString(m.name) + [COLON] + Print(m.value) + [RBRACE]
  {
  }

  lemma PrintFirst(m: Member, n: Member)
    ensures PrintMembers([m, n]) == PrintString(m.name) + [COLON] + Print(m.value) + ([COMMA] + PrintMembers([n]))
  {
    assert [m, n][1..] == [n];
  }

  lemma Regroup(a: Text, v: Text, b: Text, w: Text)
    ensures [LBRACE] + (a + [COLON] + v + ([COMMA] + (b + [COLON] + w + [RBRACE])))
         == [LBRACE] + a + [COLON] + v + ([COMMA] + b + [COLON] + w + [RBRACE])
  {
  }

  lemma {:induction false} DecimalGrows(n: nat)
    ensures |LockMetadata.Decimal(n)| <= |LockMetadata.Decimal(n + 1)|
  {
    if n >= 10 {
      if n % 10 == 9 {
        DecimalGrows(n / 10);
      }
    }
  }

  lemma {:induction false} ItemsGrow(items: seq<Json>, v: Json)
    requires items != [] && IsScalarText(PrintItems(items)) && IsScalarText(PrintItems(items + [v]))
    ensures Utf8.Size(PrintItems(items)) <= Utf8.Size(PrintItems(items + [v]))
    decreases |items|
  {
    var longer := items + [v];
    assert longer[1..] == items[1..] + [v];
    var first := Print(items[0]);
    if |items| == 1 {
      assert PrintItems(longer) == first + ([COMMA] + PrintItems(longer[1..]));
      SizeSplits(first, [RBRACKET]);
      SizeSplits(first, [COMMA] + PrintItems(longer[1..]));
      SizeSplits([COMMA], PrintItems(longer[1..]));
      Utf8.AsciiSize([RBRACKET]);
      Utf8.AsciiSize([COMMA]);
    } else {
      assert PrintItems(items) == first + ([COMMA] + PrintItems(items[1..]));
      assert PrintItems(longer) == first + ([COMMA] + PrintItems(longer[1..]));
      SizeSplits(first, [COMMA] + PrintItems(items[1..]));
      SizeSplits(first, [COMMA] + PrintItems(longer[1..]));
      SizeSplits([COMMA], PrintItems(items[1..]));
      SizeSplits([COMMA], PrintItems(longer[1..]));
      ItemsGrow(items[1..], v);
    }
  }

  lemma ArrayGrows(items: seq<Json>, v: Json)
    requires IsScalarText(Print(Array(items))) && IsScalarText(Print(Array(items + [v])))
    ensures Utf8.Size(Print(Array(items))) <= Utf8.Size(Print(Array(items + [v])))
  {
    var longer := items + [v];
    SizeSplits([LBRACKET], PrintItems(longer));
    Utf8.AsciiSize([LBRACKET]);
    if items == [] {
      Utf8.AsciiSize(Print(Array(items)));
      assert PrintItems(longer) == Print(v) + [RBRACKET];
      SizeSplits(Print(v), [RBRACKET]);
      Utf8.AsciiSize([RBRACKET]);
    } else {
      SizeSplits([LBRACKET], PrintItems(items));
      ItemsGrow(items, v);
    }
  }

  /** One more item never makes the document shorter. */
  lemma TextGrows(items: seq<Diagnostic>, d: Diagnostic)
    requires AreScalar(items) && IsScalarDiagnostic(d)
    ensures AreScalar(items + [d]) && Utf8.Size(TextOf(items)) <= Utf8.Size(TextOf(items + [d]))
  {
    var longer := items + [d];
    assert AreScalar(longer);
    assert ToDicts(longer) == ToDicts(items) + [ToDict(d)];
    TextParts(items);
    TextParts(longer);
    DocumentIsScalar(items);
    DocumentIsScalar(longer);
    hide AreScalar, TextOf, ToDicts, ToDict, IsScalarDiagnostic;
    PrintIsScalar(Array(ToDicts(items)));
    PrintIsScalar(Array(ToDicts(longer)));
    ArrayGrows(ToDicts(items), ToDict(d));
    DecimalGrows(|items|);
    hide ScalarValue, Print;
    PartsSize(Before(), LockMetadata.Decimal(|items|), Between(), Print(Array(ToDicts(items))));
    PartsSize(Before(), LockMetadata.Decimal(|longer|), Between(), Print(Array(ToDicts(longer))));
  }

  lemma PartsSize(before: Text, digits: Text, between: Text, list: Text)
    requires IsScalarText(before + digits + (between + list + [RBRACE])) && forall i :: 0 <= i < |digits| ==> IsDigit(digits[i])
    ensures IsScalarText(before) && IsScalarText(between) && IsScalarText(list)
    ensures Utf8.Size(before + digits + (between + list + [RBRACE]))
         == Utf8.Size(before) + |digits| + Utf8.Size(between) + Utf8.Size(list) + 1
  {
    SizeSplits(before + digits, between + list + [RBRACE]);
    SizeSplits(before, digits);
    SizeSplits(between + list, [RBRACE]);
    SizeSplits(between, list);
    Utf8.AsciiSize(digits);
    Utf8.AsciiSize([RBRACE]);
  }

  /** If a list of items does not fit, no longer one does. */
  lemma {:induction false} LongerDoesNotFit(items: seq<Diagnostic>, m: nat, n: nat)
    requires AreScalar(items) && m <= n <= |items| && !Fits(items[..m])
    ensures !Fits(items[..n])
  {
    if m < n {
      LongerDoesNotFit(items, m, n - 1);
      assert items[..n] == items[..n - 1] + [items[n - 1]];
      TextGrows(items[..n - 1], items[n - 1]);
    }
  }

  /** The empty document fits. */
  lemma EmptyFits()
    ensures Fits([])
  {
    BodyLength(Lit("count"));
    BodyLength(Lit("items"));
    assert |Before()| <= 50 && |Between()| <= 50;
    assert |LockMetadata.Decimal(0)| == 1 && ToDicts([]) == [];
    assert |Print(Array([]))| == 2;
    hide PrintString, Print, Before, Between, LockMetadata.Decimal, ToDicts;
    TextParts([]);
    hide TextOf;
    Utf8.SizeBounds(TextOf([]));
  }

  lemma {:induction false} BodyLength(s: Text)
    ensures |PrintBody(s)| <= 6 * |s| + 1
  {
    if s != [] {
      BodyLength(s[1..]);
    }
  }

  /** Bounding twice is bounding once, so checking the whole list looks at the items the loop
      goes through. */
  lemma BoundedTwice(items: seq<Diagnostic>)
    ensures Bounded(Bounded(items)) == Bounded(items)
  {
    var b := Bounded(items);
    forall i | 0 <= i < |b| ensures BoundedOne(b[i]) == b[i] {
      var d := items[i];
      assert TruncateOption(TruncateOption(d.labelText, 256), 256) == TruncateOption(d.labelText, 256);
      assert TruncateOption(TruncateOption(d.localPath, 1024), 1024) == TruncateOption(d.localPath, 1024);
    }
  }

  /** `serialize`: the result is within the bound, counts its items, and holds the longest prefix of
      the bounded items that fits; no longer prefix would have. */
  method Serialize(items: seq<Diagnostic>) returns (text: Text, kept: nat)
    requires AreScalar(items)
    ensures AreScalar(Bounded(items)) && kept <= |Bounded(items)|
    ensures text == TextOf(Bounded(items)[..kept]) && Utf8.Size(text) <= 65536
    ensures forall n :: kept < n <= |Bounded(items)| ==> !Fits(Bounded(items)[..n])
  {
    hide TextOf, BoundedOne, Bounded, IsScalarDiagnostic;
    BoundedIsScalar(items);
    var bounded := Bounded(items);
    assert bounded[..|bounded|] == bounded;
    BoundedTwice(items);
    text := TextOf(Bounded(bounded));
    if Utf8.Size(text) <= MAX_SERIALIZED_BYTES {
      return text, |bounded|;
    }
    EmptyFits();
    assert bounded[..0] == [];
    kept := 0;
    while kept < |bounded|
      invariant kept <= |bounded| && Fits(bounded[..kept])
    {
      var candidate := bounded[..kept] + [bounded[kept]];
      assert bounded[..kept + 1] == candidate;
      if Utf8.Size(TextOf(candidate)) > MAX_SERIALIZED_BYTES {
        break;
      }
      kept := kept + 1;
    }
    NoneFits(bounded, kept);
    text := TextOf(bounded[..kept]);
  }

  lemma NoneFits(items: seq<Diagnostic>, kept: nat)
    requires AreScalar(items) && kept <= |items| && (kept < |items| ==> !Fits(items[..kept + 1]))
    ensures forall n :: kept < n <= |items| ==> !Fits(items[..n])
  {
    hide Fits;
    forall n | kept < n <= |items| ensures !Fits(items[..n]) {
      LongerDoesNotFit(items, kept + 1, n);
    }
  }
}
