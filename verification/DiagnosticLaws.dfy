/** What bounded diagnostics hold, field by field, and that the serialised text reads back. */
module DiagnosticLaws {
  import opened Text
  import opened Json
  import opened JsonLaws
  import opened Diagnostics
  import MarkerLaws
  import LockMetadata
  import Utf8

  /** A text cut to its cap, in characters. */
  predicate IsCut(cut: Text, whole: Text, cap: nat) {
    cut <= whole && |cut| == (if |whole| < cap then |whole| else cap)
  }

  predicate IsOptionCut(cut: Option<Text>, whole: Option<Text>, cap: nat) {
    if whole == None || whole == Some([]) then cut == None
    else cut.Some? && IsCut(cut.value, whole.value, cap)
  }

  /** The first 32 diagnostics are kept, in order, each field cut to its own cap; an empty optional
      field is dropped. */
  lemma BoundedExact(items: seq<Diagnostic>, i: nat)
    requires i < |Bounded(items)|
    ensures |Bounded(items)| == if |items| < 32 then |items| else 32
    ensures var b, d := Bounded(items)[i], items[i];
      && IsCut(b.phase, d.phase, 16) && IsCut(b.code, d.code, 32) && IsCut(b.safePath, d.safePath, 256)
      && IsOptionCut(b.labelText, d.labelText, 256) && IsOptionCut(b.localPath, d.localPath, 1024)
  {
  }

  // ---------------------------------------------------------------- reading back

  /** The members of a diagnostic's dictionary, one by one. */
  predicate ReadsAs(v: Json, d: Diagnostic) {
    && v.Object?
    && LockMetadata.Entry(v.members, "phase") == Some(String(d.phase))
    && LockMetadata.Entry(v.members, "code") == Some(String(d.code))
    && LockMetadata.Entry(v.members, "safe_path") == Some(String(d.safePath))
    && LockMetadata.Entry(v.members, "label") == (if d.labelText.None? then None else Some(String(d.labelText.value)))
    && LockMetadata.Entry(v.members, "affected_local_path") ==
       (if d.localPath.None? then None else Some(String(d.localPath.value)))
  }

  /** The document counts its items and holds them in order. */
  predicate Holds(v: Json, items: seq<Diagnostic>) {
    && v.Object?
    && var count, list := LockMetadata.Entry(v.members, "count"), LockMetadata.Entry(v.members, "items");
    && count.Some? && count.value.Number? && LockMetadata.AreDigits(count.value.lexeme)
    && LockMetadata.DecimalValue(count.value.lexeme) == |items|
    && list.Some? && list.value.Array? && |list.value.items| == |items|
    && forall i :: 0 <= i < |items| ==> ReadsAs(list.value.items[i], items[i])
  }

  lemma NamesDiffer()
    ensures Lit("phase")[0] == 0x70 && Lit("code")[0] == 0x63 && Lit("safe_path")[0] == 0x73
    ensures Lit("label")[0] == 0x6C && Lit("affected_local_path")[0] == 0x61
    ensures Lit("count")[0] == 0x63 && Lit("items")[0] == 0x69
  {
  }

  lemma DictNames(d: Diagnostic)
    ensures DistinctNames(ToDict(d).members)
    ensures forall i :: 0 <= i < |ToDict(d).members| ==> ToDict(d).members[i].value.String?
  {
    hide Lit;
    NamesDiffer();
  }

  lemma DictReads(d: Diagnostic)
    ensures ReadsAs(ToDict(d), d)
  {
    hide Lit, DistinctNames, Position;
    NamesDiffer();
    DictNames(d);
    var members := ToDict(d).members;
    FoundAt(members, 0, "phase");
    FoundAt(members, 1, "code");
    FoundAt(members, 2, "safe_path");
    if d.labelText.Some? {
      FoundAt(members, 3, "label");
    } else {
      NotFound(members, "label");
    }
    if d.localPath.Some? {
      FoundAt(members, |members| - 1, "affected_local_path");
    } else {
      NotFound(members, "affected_local_path");
    }
  }

  lemma FoundAt(members: seq<Member>, i: nat, name: string)
    requires DistinctNames(members) && i < |members| && members[i].name == Lit(name)
    ensures LockMetadata.Entry(members, name) == Some(members[i].value)
  {
    MarkerLaws.PositionOf(members, i);
  }

  lemma NotFound(members: seq<Member>, name: string)
    requires forall i :: 0 <= i < |members| ==> members[i].name != Lit(name)
    ensures LockMetadata.Entry(members, name) == None
  {
  }

  lemma DictIsWritable(d: Diagnostic)
    ensures Writable(ToDict(d)) && Strict(ToDict(d))
  {
    hide Lit, DistinctNames, Writable, Strict;
    DictNames(d);
    StringsAreWritable(ToDict(d).members);
  }

  lemma StringsAreWritable(members: seq<Member>)
    requires DistinctNames(members) && forall i :: 0 <= i < |members| ==> members[i].value.String?
    ensures Writable(Object(members)) && Strict(Object(members))
  {
  }

  lemma DocumentIsWritable(items: seq<Diagnostic>)
    ensures Writable(Document(items)) && Strict(Document(items))
  {
    hide LockMetadata.Decimal, Lit, ToDict, NumberEnd;
    NamesDiffer();
    LockMetadata.DecimalIsNumber(|items|);
    var dicts := ToDicts(items);
    forall i | 0 <= i < |items| ensures Writable(dicts[i]) && Strict(dicts[i]) {
      DictIsWritable(items[i]);
    }
    assert Writable(Array(dicts)) && Strict(Array(dicts));
    hide ToDicts;
    var members := Document(items).members;
    assert members[0].name != members[1].name;
    assert Writable(members[0].value) && Strict(members[0].value);
  }

  lemma DocumentHolds(items: seq<Diagnostic>)
    ensures Holds(Document(items), items)
  {
    hide LockMetadata.Decimal, LockMetadata.DecimalValue, Lit, ToDict, Position, ReadsAs;
    NamesDiffer();
    LockMetadata.DecimalRoundTrip(|items|);
    var members := Document(items).members;
    assert members[0].name[0] != members[1].name[0] by { CountIsNotItems(); }
    FoundAt(members, 0, "count");
    FoundAt(members, 1, "items");
    forall i | 0 <= i < |items| ensures ReadsAs(ToDicts(items)[i], items[i]) {
      DictReads(items[i]);
    }
  }

  lemma CountIsNotItems()
    ensures Lit("count")[0] != Lit("items")[0]
  {
  }

  /** What is serialised reads back: a document that counts the diagnostics and holds them in order,
      every field as it was. */
  lemma SerializedReadsBack(items: seq<Diagnostic>)
    requires AreScalar(items)
    ensures Utf8.Decode(Utf8.Encode(TextOf(items))) == Some(TextOf(items))
    ensures var parsed := ParseDocument(Plain, TextOf(items));
      parsed.Ok? && Holds(parsed.value, items)
  {
    hide Document, Writable, Strict, Print, ParseDocument, Holds;
    DocumentIsWritable(items);
    DocumentHolds(items);
    DocumentRoundTrip(Plain, Document(items));
    Utf8.DecodeEncode(TextOf(items));
  }
}
