/** What an inspection says about any bytes, and what a read-back finds wrong with them. */
module ClassifyLaws {
  import opened Text
  import opened Json
  import opened JsonLaws
  import opened RawGuard
  import opened RawGuardLaws
  import opened Marker
  import MarkerLaws
  import DraftLaws
  import Utf8

  /** A member `version` that is not the integer 1. */
  predicate HasOtherVersion(members: seq<Member>) {
    exists i :: 0 <= i < |members| && members[i].name == Lit("version") && members[i].value != Number(Lit("1"))
  }

  lemma OtherVersionFound(members: seq<Member>)
    requires DistinctNames(members)
    ensures HasOtherVersion(members) <==> Has(members, "version") && Get(members, "version") != Number(Lit("1"))
  {
    hide Lit;
    var k := Position(members, Lit("version"));
    if HasOtherVersion(members) {
      var i :| 0 <= i < |members| && members[i].name == Lit("version") && members[i].value != Number(Lit("1"));
      assert i == k;
    }
  }

  /** Bytes that fail the guard, or do not load, are a partial marker. */
  lemma UnreadableIsPartial(raw: Bytes)
    ensures Guard(raw) != Passed || LoadBytes(raw) == None ==> Classify(raw) == OccupiedInvalid(Partial)
    ensures Classify(raw) == OccupiedInvalid(Partial) ==> Guard(raw) != Passed || LoadBytes(raw) == None
  {
    hide Guard, LoadBytes, Validate;
  }

  /** A printed document that the guard passes loads as itself. */
  lemma PrintedLoads(v: Json)
    requires Writable(v) && Clean(v) && IsScalarText(Print(v))
    requires |Utf8.Encode(Print(v))| <= 262144
    ensures Guard(Utf8.Encode(Print(v))) == Passed && LoadBytes(Utf8.Encode(Print(v))) == Some(v)
  {
    hide Writable, Print, ParseDocument, Guard;
    Utf8.DecodeEncode(Print(v));
    assert Strict(v);
    hide Clean, Strict, Utf8.Decode;
    DocumentRoundTrip(Grammar, v);
    DocumentRoundTrip(Plain, v);
    if v.Null? {
      NullPasses();
    } else {
      GuardExact(Utf8.Encode(Print(v)));
    }
  }

  lemma NullPasses()
    ensures Guard(Utf8.Encode(Print(Null))) == Passed
  {
    hide Utf8.Decode, ParseDocument, DepthRejects, HasBom;
    var raw := Utf8.Encode(Lit("null"));
    AsciiEncodes(Lit("null"));
    Utf8.DecodeEncode(Lit("null"));
    assert Writable(Null) && Strict(Null);
    DocumentRoundTrip(Grammar, Null);
    assert !TextHasControl(Lit("null"));
    GuardTextExact(Lit("null"));
    DocumentHasNoBom(raw);
  }

  /** What an inspection says about a clean document, exactly: a version other than the integer 1 is
      unsupported whatever else is there; otherwise a valid marker is linked with its identity, and
      anything else, an object or not, is invalid. */
  lemma ClassifyExact(v: Json)
    requires Writable(v) && Clean(v) && IsScalarText(Print(v))
    requires |Utf8.Encode(Print(v))| <= 262144
    ensures var state := Classify(Utf8.Encode(Print(v)));
      if v.Object? then
        && (state == OccupiedInvalid(Unsupported) <==> HasOtherVersion(v.members))
        && (state == OccupiedInvalid(Invalid) <==> !HasOtherVersion(v.members) && !MatchesSchema(v.members))
        && (state.LinkedExisting? <==> MatchesSchema(v.members))
        && (state.LinkedExisting? ==> Member(Lit("identity"), String(state.identity)) in v.members)
      else state == OccupiedInvalid(Invalid)
  {
    PrintedLoads(v);
    hide Writable, Print, Guard, LoadBytes, HasOtherVersion;
    if v.Object? {
      assert DistinctNames(v.members);
      OtherVersionFound(v.members);
      MatchingVersion(v.members);
      hide Clean, Strict, MatchesSchema, DistinctNames;
      if Validate(v) == Valid {
        IdentityIsMember(v);
      }
    }
  }

  lemma MatchingVersion(members: seq<Member>)
    ensures MatchesSchema(members) ==> Has(members, "version") && Get(members, "version") == Number(Lit("1"))
  {
    hide Lit;
  }

  lemma IdentityIsMember(v: Json)
    requires Validate(v) == Valid
    ensures v.Object? && Member(Lit("identity"), String(IdentityOf(v))) in v.members
  {
    hide Lit, IsUuid, IsLabel, AreRecordSources, OnlyNames;
  }

  // ---------------------------------------------------------------- two small documents

  predicate NeedsNoEscape(c: int) {
    0x20 <= c <= 0x7E && c != QUOTE && c != BACKSLASH
  }

  lemma {:induction false} PlainBody(s: Text)
    requires MadeOf(s, NeedsNoEscape)
    ensures PrintBody(s) == s + [QUOTE]
  {
    if s != [] {
      PlainBody(s[1..]);
      assert s == [s[0]] + s[1..];
    }
  }

  lemma {:induction false} AsciiEncodes(t: Text)
    requires MadeOf(t, DraftLaws.IsFine)
    ensures IsScalarText(t) && Utf8.Encode(t) == t
  {
    if t != [] {
      AsciiEncodes(t[1..]);
      assert Utf8.EncodeCharacter(t[0]) == [t[0]];
      assert t == [t[0]] + t[1..];
    }
  }

  /** `{"version":2}`. */
  function VersionTwo(): Json {
    Object([Member(Lit("version"), Number(Lit("2")))])
  }

  lemma VersionTwoText()
    ensures [LBRACE] + ([QUOTE] + (Lit("version") + [QUOTE]) + [COLON] + Lit("2") + [RBRACE]) == Lit("{\"version\":2}")
    ensures MadeOf(Lit("version"), NeedsNoEscape)
  {
  }

  lemma OnePrinted(name: Text, lexeme: Text)
    ensures Print(Object([Member(name, Number(lexeme))])) == [LBRACE] + (PrintString(name) + [COLON] + lexeme + [RBRACE])
  {
    hide PrintString;
    var m := Member(name, Number(lexeme));
    assert Print(m.value) == lexeme;
    assert PrintMembers([m]) == PrintString(name) + [COLON] + lexeme + [RBRACE];
    assert [m] != [];
  }

  lemma VersionTwoPrinted()
    ensures Print(VersionTwo()) == Lit("{\"version\":2}")
  {
    hide Lit, Print, PrintBody, MadeOf, NeedsNoEscape;
    VersionTwoText();
    OnePrinted(Lit("version"), Lit("2"));
    PlainBody(Lit("version"));
  }

  lemma TwoIsANumber()
    ensures NumberEnd(Lit("2")) == 1
  {
    assert Lit("2")[1..] == [];
    assert DigitRun(Lit("2")[0..]) == 1 by { assert Lit("2")[0..][1..] == []; }
  }

  lemma VersionTwoIsClean()
    ensures Writable(VersionTwo()) && Clean(VersionTwo()) && HasOtherVersion(VersionTwo().members)
  {
    TwoIsANumber();
    assert VersionTwo().members[0].value == Number(Lit("2")) && Lit("2")[0] != Lit("1")[0];
    assert VersionTwo().members[1..] == [];
    assert ValueMadeOf(VersionTwo(), DraftLaws.IsFine);
    DraftLaws.FineHasNoControl(VersionTwo());
  }

  lemma EmptyObjectIsClean()
    ensures Writable(Object([])) && Clean(Object([])) && !HasOtherVersion([]) && !MatchesSchema([])
  {
    assert ValueMadeOf(Object([]), DraftLaws.IsFine);
    DraftLaws.FineHasNoControl(Object([]));
  }

  lemma TextsAreAscii()
    ensures IsScalarText(Lit("{\"version\":2}")) && Utf8.Encode(Lit("{\"version\":2}")) == Lit("{\"version\":2}")
    ensures IsScalarText(Lit("{}")) && Utf8.Encode(Lit("{}")) == Lit("{}")
  {
    hide IsScalarText, Utf8.Encode;
    AsciiEncodes(Lit("{\"version\":2}"));
    AsciiEncodes(Lit("{}"));
  }

  lemma VersionTwoIsUnsupported()
    ensures Classify(Lit("{\"version\":2}")) == OccupiedInvalid(Unsupported)
  {
    hide Classify, Clean, Writable, Print, HasOtherVersion, MatchesSchema, Utf8.Encode, IsScalarText, Lit;
    VersionTwoIsClean();
    VersionTwoPrinted();
    TextsAreAscii();
    ClassifyExact(VersionTwo());
  }

  lemma EmptyObjectPrinted()
    ensures Print(Object([])) == Lit("{}")
  {
  }

  lemma EmptyObjectIsInvalid()
    ensures Classify(Lit("{}")) == OccupiedInvalid(Invalid)
  {
    hide Classify, Clean, Writable, Print, HasOtherVersion, MatchesSchema, Utf8.Encode, IsScalarText, Lit;
    EmptyObjectIsClean();
    EmptyObjectPrinted();
    TextsAreAscii();
    ClassifyExact(Object([]));
  }

  /** Two inputs: a foreign version is unsupported, an empty object is invalid. */
  lemma SmallDocuments()
    ensures Classify(Lit("{\"version\":2}")) == OccupiedInvalid(Unsupported)
    ensures Classify(Lit("{}")) == OccupiedInvalid(Invalid)
  {
    hide Classify, Lit;
    VersionTwoIsUnsupported();
    EmptyObjectIsInvalid();
  }

  // ---------------------------------------------------------------- read-back

  /** What the read-back finds, exactly: the first thing wrong, in this order. */
  lemma ReadBackExact(d: DraftInput, raw: Option<Bytes>, sameTarget: bool)
    ensures var found := CheckReadBack(d, raw, sameTarget);
      && (found == Unverified(ReadFailed) <==> raw == None)
      && (raw.Some? ==>
            && (forall code :: found == Unverified(GuardFault(code)) <==> Guard(raw.value) == Rejected(code))
            && (found == Unverified(NotADocument) <==>
                  Guard(raw.value) == Passed && (LoadBytes(raw.value) == None || !LoadBytes(raw.value).value.Object?))
            && (found == Unverified(SchemaFault(UnsupportedVersion)) <==> Classify(raw.value) == OccupiedInvalid(Unsupported))
            && (found == Unverified(SchemaFault(SchemaInvalid)) <==>
                  Classify(raw.value) == OccupiedInvalid(Invalid) && LoadBytes(raw.value).value.Object?)
            && (found == Unverified(IdentityMismatch) <==>
                  Classify(raw.value).LinkedExisting? && Classify(raw.value).identity != d.identity)
            && (found == Unverified(TargetMismatch) <==>
                  Classify(raw.value) == LinkedExisting(d.identity) && !sameTarget)
            && (found == Verified <==> Classify(raw.value) == LinkedExisting(d.identity) && sameTarget))
  {
    hide Guard, LoadBytes, Validate;
  }
}
