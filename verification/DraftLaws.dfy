/** Which drafts `draft` accepts, exactly, and that there are some. */
module DraftLaws {
  import opened Text
  import opened Json
  import opened JsonLaws
  import opened RawGuard
  import opened RawGuardLaws
  import opened GuardCodes
  import opened Marker
  import opened MarkerLaws

  predicate AreDictionaries(sources: seq<seq<Entry>>) {
    forall i :: 0 <= i < |sources| ==> IsDictionary(sources[i])
  }

  lemma {:induction false} FlatMembers(members: seq<Member>)
    requires forall i :: 0 <= i < |members| ==> members[i].value.String?
    ensures DepthOfMembers(members) == 0
  {
    if members != [] {
      FlatMembers(members[1..]);
    }
  }

  lemma {:induction false} ShallowItems(items: seq<Json>)
    requires forall i :: 0 <= i < |items| ==> Depth(items[i]) <= 1
    ensures DepthOfItems(items) <= 1
  {
    if items != [] {
      ShallowItems(items[1..]);
    }
  }

  lemma DepthOfSources(sources: seq<seq<Entry>>)
    ensures Depth(Array(SourceDocuments(sources))) <= 2
  {
    var items := SourceDocuments(sources);
    forall i | 0 <= i < |items| ensures Depth(items[i]) <= 1 {
      FlatMembers(items[i].members);
    }
    hide SourceDocuments, SourceDocument;
    ShallowItems(items);
  }

  lemma LastMember(members: seq<Member>, n: nat)
    requires n < |members| && forall i :: 0 <= i < n ==> members[i].value.String? || members[i].value.Number?
    ensures DepthOfMembers(members) <= Max(DepthOfMembers(members[n..]), 0)
  {
    if n > 0 {
      assert forall i :: 0 <= i < n - 1 ==> members[1..][i] == members[i + 1];
      LastMember(members[1..], n - 1);
      assert members[1..][n - 1..] == members[n..];
    } else {
      assert members[0..] == members;
    }
  }

  /** A draft never comes near the depth limit. */
  lemma DraftDepth(d: DraftInput)
    ensures Depth(MarkerDocument(d)) <= 3
  {
    DepthOfSources(d.sources);
    var members := DraftMembers(d);
    hide SourceDocuments;
    LastMember(members, 5);
    assert members[5..] == [members[5]] && [members[5]][1..] == [];
    assert DepthOfMembers([members[5]]) <= 2;
  }

  /** `draft` accepts exactly the inputs that match the schema, hold no prohibited control character
      and can be encoded. */
  lemma AcceptedExact(d: DraftInput)
    ensures Accepted(d) <==>
      && AreDictionaries(d.sources) && MatchesSchema(DraftMembers(d))
      && !HasControl(MarkerDocument(d)) && IsScalarText(Print(MarkerDocument(d)))
  {
    hide GuardText, Writable, Strict, ParseDocument, Print, IsDictionary, MatchesSchema, HasControl, Depth;
    var m := MarkerDocument(d);
    if AreDictionaries(d.sources) {
      DraftIsWritable(d);
      DocumentRoundTrip(Grammar, m);
      GuardTextExact(Print(m));
      DraftDepth(d);
      ValidIsSchema(d);
    }
  }

  /** Why `draft` refuses: a control is the guard's, whatever else is wrong; then the schema, never for
      the version; then the encoding. */
  lemma RefusedExact(d: DraftInput)
    requires AreDictionaries(d.sources)
    ensures Draft(d) ==
      if HasControl(MarkerDocument(d)) then Refused(GuardRefused(ControlCharacter))
      else if !MatchesSchema(DraftMembers(d)) then Refused(SchemaRefused(SchemaInvalid))
      else if !IsScalarText(Print(MarkerDocument(d))) then Refused(NotEncodable)
      else Drafted(MarkerDocument(d))
  {
    hide GuardText, Writable, Strict, ParseDocument, Print, IsDictionary, MatchesSchema, HasControl, Depth;
    var m := MarkerDocument(d);
    DraftIsWritable(d);
    DocumentRoundTrip(Grammar, m);
    TextCodesExact(Print(m));
    NoFaultExact(m);
    GuardTextExact(Print(m));
    DraftDepth(d);
    ValidIsSchema(d);
    VersionIsOne(d);
  }

  lemma VersionIsOne(d: DraftInput)
    ensures Validate(MarkerDocument(d)) != UnsupportedVersion
  {
    hide MatchesSchema;
    var members := DraftMembers(d);
    assert members[0].name == Lit("version") && Position(members, Lit("version")) == 0;
  }

  lemma ValidIsSchema(d: DraftInput)
    ensures Validate(MarkerDocument(d)) == Valid <==> MatchesSchema(DraftMembers(d))
  {
    hide MatchesSchema;
    var members := DraftMembers(d);
    assert members[0].name == Lit("version") && Position(members, Lit("version")) == 0;
  }

  // ---------------------------------------------------------------- an example

  function ExampleSource(): seq<Entry> {
    [Entry(Lit("type"), Lit("git")), Entry(Lit("uri"), Lit("x"))]
  }

  function Example(): DraftInput {
    DraftInput(Lit("00000000-0000-4000-8000-000000000000"), Lit("A"), Lit("direct"), [ExampleSource()])
  }

  lemma ExampleNames()
    ensures Lit("type") != Lit("uri")
  {
    assert Lit("type")[0] != Lit("uri")[0];
  }

  lemma ExampleSourceFits()
    ensures IsDictionary(ExampleSource()) && IsRecordSource(SourceDocument(ExampleSource()))
  {
    ExampleNames();
    var members := SourceDocument(ExampleSource()).members;
    assert members[0].name == Lit("type") && members[1].name == Lit("uri");
    assert Position(members, Lit("type")) == 0;
    assert Position(members, Lit("uri")) == 1;
    TokenExample("git");
    TokenExample("x");
    forall i | 0 <= i < |members| ensures exists k :: 0 <= k < 2 && members[i].name == Lit(["type", "uri"][k]) {
      assert members[i].name == Lit(["type", "uri"][i]);
    }
  }

  lemma TokenExample(s: string)
    requires s == "git" || s == "x"
    ensures IsToken(Lit(s), 64)
  {
  }

  lemma FieldsOf(d: DraftInput)
    ensures var members := DraftMembers(d);
      && Has(members, "version") && Get(members, "version") == Number(Lit("1"))
      && Has(members, "identity") && Get(members, "identity") == String(d.identity)
      && Has(members, "label") && Get(members, "label") == String(d.labelText)
      && Has(members, "kind") && Get(members, "kind") == String(d.kind)
      && Has(members, "workspace") && Get(members, "workspace") == String(Lit("."))
      && Has(members, "record_sources") && Get(members, "record_sources") == Array(SourceDocuments(d.sources))
  {
    hide SourceDocuments, DistinctNames, Lit, Position;
    var members := DraftMembers(d);
    DraftNamesDistinct(d);
    PositionOf(members, 0);
    PositionOf(members, 1);
    PositionOf(members, 2);
    PositionOf(members, 3);
    PositionOf(members, 4);
    PositionOf(members, 5);
  }

  lemma KnownNames(d: DraftInput)
    ensures OnlyNames(DraftMembers(d), ["version", "identity", "label", "kind", "workspace", "record_sources"])
  {
    hide SourceDocuments;
    var members := DraftMembers(d);
    var names := ["version", "identity", "label", "kind", "workspace", "record_sources"];
    assert names[0] == "version" && names[1] == "identity" && names[2] == "label";
    assert names[3] == "kind" && names[4] == "workspace" && names[5] == "record_sources";
    forall i | 0 <= i < |members| ensures exists k :: 0 <= k < |names| && members[i].name == Lit(names[k]) {
      assert members[i].name == Lit(names[i]);
    }
    assert OnlyNames(members, names);
  }

  lemma ExampleFields()
    ensures IsUuid(WithoutFinalBreak(Example().identity)) && IsLabel(Example().labelText)
    ensures AreRecordSources(Array(SourceDocuments(Example().sources)))
  {
    IdentityFits();
    ExampleSourceFits();
    var identity, labelText := Example().identity, Example().labelText;
    assert WithoutFinalBreak(identity) == identity;
    assert WithoutFinalBreak(labelText) == labelText && !IsWhiteSpace(labelText[0]);
    hide IsRecordSource, IsUuid, SourceDocument, ExampleSource;
  }

  lemma ExampleMatches()
    ensures MatchesSchema(DraftMembers(Example()))
  {
    hide Has, Get, IsUuid, IsLabel, AreRecordSources, SourceDocuments, DraftMembers, Lit, WithoutFinalBreak;
    FieldsOf(Example());
    KnownNames(Example());
    ExampleFields();
  }

  lemma IdentityFits()
    ensures IsUuid(Lit("00000000-0000-4000-8000-000000000000"))
  {
  }

  predicate IsFine(c: int) {
    0x20 <= c <= 0x7E
  }

  lemma {:induction false} FineHasNoControl(v: Json)
    requires ValueMadeOf(v, IsFine)
    ensures !HasControl(v)
  {
    match v
    case Array(items) =>
      forall i | 0 <= i < |items| ensures !HasControl(items[i]) {
        FineHasNoControl(items[i]);
      }
    case Object(members) =>
      forall i | 0 <= i < |members| ensures !HasControl(members[i].value) && !TextHasControl(members[i].name) {
        FineHasNoControl(members[i].value);
      }
    case _ =>
  }

  lemma StringIsFine(s: string)
    requires forall i :: 0 <= i < |s| ==> 0x20 <= s[i] as int <= 0x7E
    ensures MadeOf(Lit(s), IsFine) && ValueMadeOf(String(Lit(s)), IsFine) && ValueMadeOf(Number(Lit(s)), IsFine)
  {
  }

  lemma MembersAreFine(members: seq<Member>)
    requires forall i :: 0 <= i < |members| ==> MadeOf(members[i].name, IsFine) && ValueMadeOf(members[i].value, IsFine)
    ensures ValueMadeOf(Object(members), IsFine)
  {
  }

  lemma ExampleSourceIsFine()
    ensures ValueMadeOf(Array(SourceDocuments([ExampleSource()])), IsFine)
  {
    var source := SourceDocument(ExampleSource());
    StringIsFine("type");
    StringIsFine("git");
    StringIsFine("uri");
    StringIsFine("x");
    hide MadeOf, Lit, ValueMadeOf;
    MembersAreFine(source.members);
    assert SourceDocuments([ExampleSource()]) == [source];
  }

  lemma NamesAreFine(d: DraftInput)
    ensures forall i :: 0 <= i < 6 ==> MadeOf(DraftMembers(d)[i].name, IsFine)
  {
    hide MadeOf, Lit, ValueMadeOf, SourceDocuments;
    StringIsFine("version");
    StringIsFine("identity");
    StringIsFine("label");
    StringIsFine("kind");
    StringIsFine("workspace");
    StringIsFine("record_sources");
  }

  lemma ValuesAreFine()
    ensures forall i :: 0 <= i < 6 ==> ValueMadeOf(DraftMembers(Example())[i].value, IsFine)
  {
    hide MadeOf, Lit, ValueMadeOf, SourceDocuments, ExampleSource;
    StringIsFine("1");
    StringIsFine("00000000-0000-4000-8000-000000000000");
    StringIsFine("A");
    StringIsFine("direct");
    StringIsFine(".");
    ExampleSourceIsFine();
  }

  lemma ExampleIsFine()
    ensures ValueMadeOf(MarkerDocument(Example()), IsFine)
  {
    hide MadeOf, ValueMadeOf, Example, Lit;
    NamesAreFine(Example());
    ValuesAreFine();
    MembersAreFine(DraftMembers(Example()));
  }

  /** So the statements about accepted drafts are about something. */
  lemma ExampleIsAccepted()
    ensures Accepted(Example())
  {
    hide MatchesSchema, MarkerDocument, DraftMembers, IsDictionary, Print, HasControl, ValueMadeOf, IsRecordSource;
    ExampleSourceFits();
    ExampleMatches();
    ExampleIsFine();
    FineHasNoControl(MarkerDocument(Example()));
    PrintMadeOf(MarkerDocument(Example()), IsFine);
    AcceptedExact(Example());
  }
}
