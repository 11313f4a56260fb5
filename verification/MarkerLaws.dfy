/** What the readers may believe about bytes a draft has written, completely or not. */
module MarkerLaws {
  import opened Text
  import opened Json
  import opened RawGuard
  import opened Marker
  import opened JsonLaws
  import opened RawGuardLaws
  import Utf8

  // ---------------------------------------------------------------- shape of a draft

  lemma SourceIsWritable(source: seq<Entry>)
    ensures Writable(SourceDocument(source))
    ensures IsDictionary(source) ==> Strict(SourceDocument(source))
  {
  }

  lemma SourcesAreWritable(sources: seq<seq<Entry>>)
    ensures Writable(Array(SourceDocuments(sources)))
    ensures (forall i :: 0 <= i < |sources| ==> IsDictionary(sources[i])) ==> Strict(Array(SourceDocuments(sources)))
  {
    hide SourceDocument, IsDictionary;
    var items := SourceDocuments(sources);
    forall i | 0 <= i < |sources|
      ensures Writable(items[i]) && (IsDictionary(sources[i]) ==> Strict(items[i]))
    {
      SourceIsWritable(sources[i]);
    }
    assert StrictItems(items) == Strict(Array(items));
  }

  lemma OneIsANumber()
    ensures NumberEnd(Lit("1")) == 1
  {
    assert Lit("1")[1..] == [];
    assert DigitRun(Lit("1")[0..]) == 1 by { assert Lit("1")[0..][1..] == []; }
  }

  lemma DraftIsWritable(d: DraftInput)
    ensures Writable(MarkerDocument(d))
    ensures (forall i :: 0 <= i < |d.sources| ==> IsDictionary(d.sources[i])) ==> Strict(MarkerDocument(d))
  {
    hide SourceDocuments, IsDictionary, DistinctNames;
    var members := DraftMembers(d);
    SourcesAreWritable(d.sources);
    OneIsANumber();
    DraftNamesDistinct(d);
    assert members[0].value == Number(Lit("1")) && members[5].value == Array(SourceDocuments(d.sources));
    assert forall i :: 0 < i < 5 ==> members[i].value.String?;
    assert forall i :: 0 <= i < 6 ==> Writable(members[i].value);
    if forall i :: 0 <= i < |d.sources| ==> IsDictionary(d.sources[i]) {
      assert StrictMembers(members);
    }
  }

  lemma DraftNamesDistinct(d: DraftInput)
    ensures DistinctNames(DraftMembers(d))
  {
    var members := DraftMembers(d);
    assert members[0].name[0] == 0x76;
    assert members[1].name[0] == 0x69;
    assert members[2].name[0] == 0x6C;
    assert members[3].name[0] == 0x6B;
    assert members[4].name[0] == 0x77;
    assert members[5].name[0] == 0x72;
  }

  // ---------------------------------------------------------------- size

  lemma SizeSplits(a: Text, b: Text)
    requires IsScalarText(a + b)
    ensures IsScalarText(a) && IsScalarText(b)
    ensures Utf8.Size(a + b) == Utf8.Size(a) + Utf8.Size(b)
  {
    assert forall i :: 0 <= i < |a| ==> a[i] == (a + b)[i];
    assert forall i :: 0 <= i < |b| ==> b[i] == (a + b)[|a| + i];
    Utf8.EncodeConcat(a, b);
  }

  /** Printable ASCII and line breaks: two bytes each at most once escaped. */
  predicate IsAsciiLine(s: Text) {
    forall i :: 0 <= i < |s| ==> 0x20 <= s[i] <= 0x7E || s[i] == 0x0A
  }

  /** A bound on the bytes of a printed string. */
  function StringWeight(s: Text): nat {
    2 + (if IsAsciiLine(s) then 2 else 6) * |s|
  }

  /** A bound on the bytes of a printed value. */
  function Weight(v: Json): nat
    decreases v, 1
  {
    match v
    case Null => 4
    case Bool(_) => 5
    case Number(lexeme) => 4 * |lexeme|
    case NonFinite(token) => 4 * |token|
    case String(s) => StringWeight(s)
    case Array(items) => 2 + ItemsWeight(items)
    case Object(members) => 2 + MembersWeight(members)
  }

  function ItemsWeight(items: seq<Json>): nat
    decreases items, 0
  {
    if items == [] then 0 else Weight(items[0]) + 1 + ItemsWeight(items[1..])
  }

  function MembersWeight(members: seq<Member>): nat
    decreases members, 0
  {
    if members == [] then 0
    else StringWeight(members[0].name) + Weight(members[0].value) + 2 + MembersWeight(members[1..])
  }

  lemma {:induction false} EscapeSize(c: int)
    requires IsScalarText(Escape(c))
    ensures Utf8.Size(Escape(c)) <= 6
    ensures 0x20 <= c <= 0x7E || c == 0x0A ==> Utf8.Size(Escape(c)) <= 2
  {
    if |Escape(c)| == 1 {
      Utf8.SizeBounds(Escape(c));
    }
    if 0 <= c <= 0x7F {
      Utf8.AsciiSize(Escape(c));
    }
  }

  lemma {:induction false} BodySize(s: Text)
    requires IsScalarText(PrintBody(s))
    ensures Utf8.Size(PrintBody(s)) <= 1 + 6 * |s|
    ensures IsAsciiLine(s) ==> Utf8.Size(PrintBody(s)) <= 1 + 2 * |s|
  {
    if s == [] {
      Utf8.AsciiSize([QUOTE]);
    } else {
      hide Escape, Utf8.Size;
      SizeSplits(Escape(s[0]), PrintBody(s[1..]));
      EscapeSize(s[0]);
      BodySize(s[1..]);
    }
  }

  lemma {:induction false} StringSize(s: Text)
    requires IsScalarText(PrintString(s))
    ensures Utf8.Size(PrintString(s)) <= StringWeight(s)
  {
    SizeSplits([QUOTE], PrintBody(s));
    Utf8.AsciiSize([QUOTE]);
    BodySize(s);
  }

  lemma {:induction false} PrintSize(v: Json)
    requires IsScalarText(Print(v))
    ensures Utf8.Size(Print(v)) <= Weight(v)
    decreases v, 1
  {
    hide Utf8.Size;
    match v
    case Null => Utf8.AsciiSize(Print(v));
    case Bool(_) => Utf8.AsciiSize(Print(v));
    case Number(lexeme) => Utf8.SizeBounds(lexeme);
    case NonFinite(token) => Utf8.SizeBounds(token);
    case String(s) => StringSize(s);
    case Array(items) =>
      Utf8.AsciiSize([LBRACKET]);
      SizeSplits([LBRACKET], Print(v)[1..]);
      assert Print(v) == [LBRACKET] + Print(v)[1..];
      if items == [] {
        Utf8.AsciiSize([RBRACKET]);
      } else {
        ItemsSize(items);
      }
    case Object(members) =>
      Utf8.AsciiSize([LBRACE]);
      SizeSplits([LBRACE], Print(v)[1..]);
      assert Print(v) == [LBRACE] + Print(v)[1..];
      if members == [] {
        Utf8.AsciiSize([RBRACE]);
      } else {
        MembersSize(members);
      }
  }

  lemma {:induction false} ItemsSize(items: seq<Json>)
    requires items != [] && IsScalarText(PrintItems(items))
    ensures Utf8.Size(PrintItems(items)) <= ItemsWeight(items) + 1
    decreases items, 0
  {
    hide Utf8.Size, Print, Weight;
    var tail := if |items| == 1 then [RBRACKET] else [COMMA] + PrintItems(items[1..]);
    SizeSplits(Print(items[0]), tail);
    PrintSize(items[0]);
    Utf8.AsciiSize([RBRACKET]);
    Utf8.AsciiSize([COMMA]);
    if |items| > 1 {
      SizeSplits([COMMA], PrintItems(items[1..]));
      ItemsSize(items[1..]);
    }
  }

  lemma {:induction false} MembersSize(members: seq<Member>)
    requires members != [] && IsScalarText(PrintMembers(members))
    ensures Utf8.Size(PrintMembers(members)) <= MembersWeight(members) + 1
    decreases members, 0
  {
    hide Utf8.Size, Print, PrintString, Weight, StringWeight;
    var name, value := PrintString(members[0].name), Print(members[0].value);
    var tail := if |members| == 1 then [RBRACE] else [COMMA] + PrintMembers(members[1..]);
    SizeSplits(name + [COLON] + value, tail);
    SizeSplits(name + [COLON], value);
    SizeSplits(name, [COLON]);
    StringSize(members[0].name);
    PrintSize(members[0].value);
    Utf8.AsciiSize([RBRACE]);
    Utf8.AsciiSize([COLON]);
    Utf8.AsciiSize([COMMA]);
    if |members| > 1 {
      SizeSplits([COMMA], PrintMembers(members[1..]));
      MembersSize(members[1..]);
    }
  }

  // ---------------------------------------------------------------- the size of a draft

  lemma PositionOf(members: seq<Member>, i: nat)
    requires DistinctNames(members) && i < |members|
    ensures Position(members, members[i].name) == i
  {
  }

  lemma DraftFields(d: DraftInput)
    ensures
      var members := DraftMembers(d);
      && Has(members, "identity") && Get(members, "identity") == String(d.identity)
      && Has(members, "label") && Get(members, "label") == String(d.labelText)
      && Has(members, "kind") && Get(members, "kind") == String(d.kind)
      && Has(members, "record_sources")
      && Get(members, "record_sources") == Array(SourceDocuments(d.sources))
  {
    var members := DraftMembers(d);
    hide DistinctNames, Position, SourceDocuments;
    DraftNamesDistinct(d);
    PositionOf(members, 1);
    PositionOf(members, 2);
    PositionOf(members, 3);
    PositionOf(members, 5);
  }

  lemma TokenWeight(s: Text, limit: nat)
    requires IsToken(s, limit)
    ensures StringWeight(s) <= 2 + 2 * limit
  {
    var line := WithoutFinalBreak(s);
    assert forall i :: 0 <= i < |line| ==> s[i] == line[i];
    assert IsAsciiLine(s);
  }

  function NameAt(members: seq<Member>, i: nat): Text {
    if i < |members| then members[i].name else []
  }

  lemma SourceHasTwoEntries(v: Json)
    requires IsRecordSource(v) && DistinctNames(v.members)
    ensures v.Object? && |v.members| == 2
    ensures
      || (v.members[0].name == Lit("type") && v.members[1].name == Lit("uri"))
      || (v.members[0].name == Lit("uri") && v.members[1].name == Lit("type"))
  {
    hide IsToken, Position;
    var m := v.members;
    assert Lit("type") != Lit("uri");
    var i, j := Position(m, Lit("type")), Position(m, Lit("uri"));
    assert i != j;
    assert forall k :: 0 <= k < |m| ==> m[k].name == Lit("type") || m[k].name == Lit("uri");
    var first, second, third := NameAt(m, 0), NameAt(m, 1), NameAt(m, 2);
    if |m| > 2 {
      assert false;
    }
  }

  lemma GetAt(members: seq<Member>, i: nat, name: string)
    requires DistinctNames(members) && i < |members| && members[i].name == Lit(name)
    ensures Has(members, name) && Get(members, name) == members[i].value
  {
    PositionOf(members, i);
  }

  lemma SourceTexts(v: Json, i: nat)
    requires IsRecordSource(v) && DistinctNames(v.members) && i < 2 == |v.members|
    requires v.members[i].name == Lit("type") && v.members[1 - i].name == Lit("uri")
    ensures v.members[i].value.String? && StringWeight(v.members[i].value.text) <= 130
    ensures v.members[1 - i].value.String? && StringWeight(v.members[1 - i].value.text) <= 4098
  {
    hide IsToken, StringWeight, Position, DistinctNames;
    GetAt(v.members, i, "type");
    GetAt(v.members, 1 - i, "uri");
    TokenWeight(v.members[i].value.text, 64);
    TokenWeight(v.members[1 - i].value.text, 2048);
  }

  lemma SourceWeight(v: Json)
    requires IsRecordSource(v) && DistinctNames(v.members)
    ensures Weight(v) <= 4400
  {
    hide StringWeight, IsRecordSource, DistinctNames;
    SourceHasTwoEntries(v);
    NameWeight();
    SourceTexts(v, if v.members[0].name == Lit("type") then 0 else 1);
    var m := v.members;
    assert m[1..] == [m[1]] && m[1..][1..] == [];
    assert MembersWeight(m[1..]) == StringWeight(m[1].name) + Weight(m[1].value) + 2;
    assert Weight(v) == 2 + StringWeight(m[0].name) + Weight(m[0].value) + 2 + MembersWeight(m[1..]);
  }

  lemma NameWeight()
    ensures StringWeight(Lit("type")) <= 26 && StringWeight(Lit("uri")) <= 20
    ensures StringWeight(Lit("version")) <= 44 && StringWeight(Lit("identity")) <= 50
    ensures StringWeight(Lit("label")) <= 32 && StringWeight(Lit("kind")) <= 26
    ensures StringWeight(Lit("workspace")) <= 56 && StringWeight(Lit("record_sources")) <= 86
    ensures StringWeight(Lit(".")) <= 8
  {
  }

  lemma {:induction false} SourcesWeight(items: seq<Json>)
    requires forall i :: 0 <= i < |items| ==> IsRecordSource(items[i]) && DistinctNames(items[i].members)
    ensures ItemsWeight(items) <= 4401 * |items|
  {
    hide IsRecordSource, DistinctNames, Weight;
    if items != [] {
      SourceWeight(items[0]);
      SourcesWeight(items[1..]);
    }
  }

  lemma DraftSourcesWeight(d: DraftInput)
    requires Accepted(d)
    ensures ItemsWeight(SourceDocuments(d.sources)) <= 140832
  {
    hide Position, GuardText, Print;
    DraftFields(d);
    DraftIsWritable(d);
    var items := SourceDocuments(d.sources);
    assert AreRecordSources(Array(items));
    forall i | 0 <= i < |items| ensures DistinctNames(items[i].members) {
      SourceIsWritable(d.sources[i]);
    }
    hide IsRecordSource, DistinctNames;
    SourcesWeight(items);
  }

  /** An accepted draft fits the raw bound with room to spare. */
  lemma DraftFits(d: DraftInput)
    requires Accepted(d)
    ensures |MarkerBytes(d)| <= 262144
  {
    DraftWeight(d);
    hide Accepted, Weight;
    PrintSize(MarkerDocument(d));
  }

  lemma DraftWeight(d: DraftInput)
    requires Accepted(d)
    ensures Weight(MarkerDocument(d)) <= 144000
  {
    hide Accepted, StringWeight, SourceDocuments;
    var m := DraftMembers(d);
    DraftSourcesWeight(d);
    DraftFieldWeights(d);
    NameWeight();
    MembersWeightOfSix(m);
    assert m[0].value == Number(Lit("1")) && m[4].value == String(Lit("."));
    assert m[5].value == Array(SourceDocuments(d.sources));
    assert Weight(m[5].value) <= 140834 && Weight(m[0].value) == 4;
    assert Weight(MarkerDocument(d)) == 2 + MembersWeight(m);
    assert m[0].name == Lit("version") && m[1].name == Lit("identity") && m[2].name == Lit("label");
    assert m[3].name == Lit("kind") && m[4].name == Lit("workspace") && m[5].name == Lit("record_sources");
    assert m[1].value == String(d.identity) && m[2].value == String(d.labelText) && m[3].value == String(d.kind);
    assert Weight(m[1].value) <= 224 && Weight(m[2].value) <= 1538 && Weight(m[3].value) <= 38 && Weight(m[4].value) <= 8;
  }

  lemma DraftFieldWeights(d: DraftInput)
    requires Accepted(d)
    ensures StringWeight(d.identity) <= 224 && StringWeight(d.labelText) <= 1538 && StringWeight(d.kind) <= 38
  {
    hide GuardText, Print, Position;
    DraftFields(d);
    assert |d.identity| <= 37;
    assert |d.labelText| <= 256;
    assert |d.kind| <= 6;
  }

  lemma MembersWeightOfSix(m: seq<Member>)
    requires |m| == 6
    ensures MembersWeight(m) ==
      StringWeight(m[0].name) + Weight(m[0].value) + StringWeight(m[1].name) + Weight(m[1].value) +
      StringWeight(m[2].name) + Weight(m[2].value) + StringWeight(m[3].name) + Weight(m[3].value) +
      StringWeight(m[4].name) + Weight(m[4].value) + StringWeight(m[5].name) + Weight(m[5].value) + 12
  {
    hide StringWeight, Weight;
    MembersWeightStep(m, 0);
    MembersWeightStep(m, 1);
    MembersWeightStep(m, 2);
    MembersWeightStep(m, 3);
    MembersWeightStep(m, 4);
    MembersWeightStep(m, 5);
    assert m[0..] == m && m[6..] == [];
  }

  lemma MembersWeightStep(m: seq<Member>, i: nat)
    requires i < |m|
    ensures MembersWeight(m[i..])
         == StringWeight(m[i].name) + Weight(m[i].value) + 2 + MembersWeight(m[i + 1..])
  {
    assert m[i..][1..] == m[i + 1..];
  }

  // ---------------------------------------------------------------- write and read back

  /** The bytes of an accepted draft are the UTF-8 form of a clean document. */
  lemma DraftReadsBack(d: DraftInput)
    requires Accepted(d)
    ensures Utf8.Decode(MarkerBytes(d)) == Some(Print(MarkerDocument(d)))
    ensures ParseDocument(Grammar, Print(MarkerDocument(d))) == Ok(MarkerDocument(d), [])
    ensures ParseDocument(Plain, Print(MarkerDocument(d))) == Ok(MarkerDocument(d), [])
    ensures Clean(MarkerDocument(d))
  {
    hide GuardText, Writable, Strict, ParseDocument, Clean, Print, IsDictionary;
    var m := MarkerDocument(d);
    DraftIsWritable(d);
    Utf8.DecodeEncode(Print(m));
    DocumentRoundTrip(Grammar, m);
    DocumentRoundTrip(Plain, m);
    GuardTextExact(Print(m));
  }

  /** Write and read-back are inverse: what an accepted draft writes fits the bound, passes the
      guard, parses back to the same marker and is verified, so with the confirmed target handle
      the read-back goes on to the projection. */
  lemma WriteReadBackInverse(d: DraftInput)
    requires Accepted(d)
    ensures |MarkerBytes(d)| <= 262144
    ensures Guard(MarkerBytes(d)) == Passed
    ensures LoadBytes(MarkerBytes(d)) == Some(MarkerDocument(d))
    ensures Classify(MarkerBytes(d)) == LinkedExisting(d.identity)
    ensures CheckReadBack(d, Some(MarkerBytes(d)), true) == Verified
  {
    DraftFits(d);
    DraftReadsBack(d);
    DraftIdentity(d);
    hide Accepted, Clean, ParseDocument, Guard, Utf8.Decode, Validate;
    GuardExact(MarkerBytes(d));
  }

  lemma DraftIdentity(d: DraftInput)
    requires Accepted(d)
    ensures Validate(MarkerDocument(d)) == Valid && IdentityOf(MarkerDocument(d)) == d.identity
  {
    hide GuardText, Print, Position, MatchesSchema;
    DraftFields(d);
  }

  lemma CutDoesNotDecode(d: DraftInput, n: nat)
    requires Accepted(d) && n < |MarkerBytes(d)|
    ensures LoadBytes(MarkerBytes(d)[..n]) == None
  {
    hide Writable, Print, Utf8.Decode, ParseDocument, Guard, GuardText, Validate, IsDictionary;
    var text := Print(MarkerDocument(d));
    var cut := Utf8.Decode(MarkerBytes(d)[..n]);
    Utf8.CutDecodesToStrictPrefix(text, n);
    DraftIsWritable(d);
    if cut.Some? {
      StrictPrefixMalformed(MarkerDocument(d), |cut.value|);
    }
  }

  /** An interrupted write never looks like a registration: every strict byte prefix of a
      draft's marker, even one cut inside a character, is occupied-invalid to every reader. */
  lemma InterruptedWrite(d: DraftInput, n: nat)
    requires Accepted(d) && n < |MarkerBytes(d)|
    ensures Classify(MarkerBytes(d)[..n]) == OccupiedInvalid(Partial)
    ensures ParseMarker(MarkerBytes(d)[..n]) == None
    ensures forall reader, sameTarget :: CheckReadBack(reader, Some(MarkerBytes(d)[..n]), sameTarget).Unverified?
  {
    hide MarkerBytes, Accepted, Guard, LoadBytes;
    CutDoesNotDecode(d, n);
  }

  /** What a reader may conclude from bytes that some draft is writing or has written: when they
      say linked-existing, the write is complete and the identity is the draft's. */
  lemma BelievedIsComplete(d: DraftInput, content: Bytes)
    requires Accepted(d) && content <= MarkerBytes(d)
    ensures Classify(content) == LinkedExisting(d.identity) <==> content == MarkerBytes(d)
    ensures Classify(content).LinkedExisting? ==> content == MarkerBytes(d)
  {
    hide Accepted, Classify, MarkerBytes;
    if content == MarkerBytes(d) {
      WriteReadBackInverse(d);
    } else {
      assert content == MarkerBytes(d)[..|content|];
      InterruptedWrite(d, |content|);
    }
  }

  // ---------------------------------------------------------------- any bytes

  /** The inspection, the read-back and the projection believe the same bytes. */
  lemma ReadersAgree(d: DraftInput, raw: Bytes)
    ensures Classify(raw).LinkedExisting? <==> ParseMarker(raw).Some?
    ensures Classify(raw).LinkedExisting? ==> Classify(raw).identity == IdentityOf(ParseMarker(raw).value)
    ensures CheckReadBack(d, Some(raw), true) == Verified <==> Classify(raw) == LinkedExisting(d.identity)
  {
    hide Guard, LoadBytes, MatchesSchema;
  }

  /** What passes the guard and loads is a clean document, or the guard saw no document. */
  lemma LoadedIsClean(raw: Bytes)
    requires Guard(raw) == Passed && LoadBytes(raw).Some? && !LoadBytes(raw).value.Null?
    ensures Clean(LoadBytes(raw).value)
  {
    var text := Utf8.Decode(raw).value;
    DocumentModes(text);
    hide ParseDocument, Guard, GuardText, Clean, Strict;
    GuardPassedText(raw);
    GuardTextExact(text);
  }

  lemma GuardPassedText(raw: Bytes)
    requires Guard(raw) == Passed
    ensures Utf8.Decode(raw).Some? && GuardText(Utf8.Decode(raw).value) == Passed
  {
  }

  /** The schema's `$` lets one line break through behind an identity; with the guard in front
      a believed identity is exactly a lower-case version 4 UUID. */
  lemma BelievedIdentity(raw: Bytes)
    requires Classify(raw).LinkedExisting?
    ensures IsUuid(Classify(raw).identity)
  {
    hide Guard, Clean;
    var v := LoadBytes(raw).value;
    LoadedIsClean(raw);
    hide LoadBytes;
    MemberTextClean(v, "identity");
  }

  lemma MemberTextClean(v: Json, name: string)
    requires v.Object? && Clean(v) && Has(v.members, name) && Get(v.members, name).String?
    ensures !TextHasControl(Get(v.members, name).text)
  {
    var i := Position(v.members, Lit(name));
    assert HasControl(v.members[i].value) == TextHasControl(v.members[i].value.text);
  }
}
