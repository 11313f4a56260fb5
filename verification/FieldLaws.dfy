/** Which drafts are accepted, field by field, as the contract of the marker says it. */
module FieldLaws {
  import opened Text
  import opened Json
  import opened JsonLaws
  import opened RawGuard
  import opened Marker
  import opened MarkerLaws
  import opened DraftLaws
  import CommandLine

  // ---------------------------------------------------------------- the fields

  /** `x` stands for a hexadecimal digit in lower case, `y` for one of 8, 9, a, b. */
  predicate FitsPattern(s: Text, pattern: string) {
    && |s| == |pattern|
    && forall i :: 0 <= i < |s| ==>
         if pattern[i] == 'x' then '0' as int <= s[i] <= '9' as int || 'a' as int <= s[i] <= 'f' as int
         else if pattern[i] == 'y' then s[i] in ['8' as int, '9' as int, 'a' as int, 'b' as int]
         else s[i] == pattern[i] as int
  }

  predicate IsIdentity(s: Text) {
    FitsPattern(s, "xxxxxxxx-xxxx-4xxx-yxxx-xxxxxxxxxxxx")
  }

  predicate IsVisibleLine(s: Text) {
    1 <= |s| <= 256 && !TextHasControl(s) && exists i :: 0 <= i < |s| && !IsWhiteSpace(s[i])
  }

  predicate IsPrintable(s: Text, limit: nat) {
    1 <= |s| <= limit && forall i :: 0 <= i < |s| ==> 32 <= s[i] <= 126
  }

  predicate IsTypeAndUri(a: Entry, b: Entry) {
    a.name == Lit("type") && IsPrintable(a.text, 64) && b.name == Lit("uri") && IsPrintable(b.text, 2048)
  }

  /** A type and a URI, in either order. */
  predicate IsSource(source: seq<Entry>) {
    |source| == 2 && (IsTypeAndUri(source[0], source[1]) || IsTypeAndUri(source[1], source[0]))
  }

  predicate AreSources(sources: seq<seq<Entry>>) {
    && 1 <= |sources| <= 32
    && (forall i :: 0 <= i < |sources| ==> IsSource(sources[i]))
    && (forall i, j :: 0 <= i < j < |sources| ==> multiset(sources[i]) != multiset(sources[j]))
  }

  // ---------------------------------------------------------------- texts

  lemma IdentityExact(s: Text)
    ensures IsUuid(WithoutFinalBreak(s)) && !TextHasControl(s) <==> IsIdentity(s)
  {
    var pattern := "xxxxxxxx-xxxx-4xxx-yxxx-xxxxxxxxxxxx";
    if !TextHasControl(s) {
      NoBreak(s);
    }
    if IsIdentity(s) {
      forall i | 0 <= i < |s| ensures s[i] == MINUS || 0x30 <= s[i] <= 0x39 || 0x61 <= s[i] <= 0x66 {
        PatternAt(i);
      }
      assert !TextHasControl(s);
      NoBreak(s);
    }
    if |s| == 36 {
      forall i | 0 <= i < 36
        ensures pattern[i] ==
          if i == 8 || i == 13 || i == 18 || i == 23 then '-' else if i == 14 then '4' else if i == 19 then 'y' else 'x'
      {
        PatternAt(i);
      }
    }
  }

  lemma PatternAt(i: nat)
    requires i < 36
    ensures "xxxxxxxx-xxxx-4xxx-yxxx-xxxxxxxxxxxx"[i] ==
      if i == 8 || i == 13 || i == 18 || i == 23 then '-' else if i == 14 then '4' else if i == 19 then 'y' else 'x'
  {
  }

  lemma NoBreak(s: Text)
    requires !TextHasControl(s)
    ensures WithoutFinalBreak(s) == s && forall i :: 0 <= i < |s| ==> s[i] != 0x0A
  {
    forall i | 0 <= i < |s| ensures s[i] != 0x0A {
      assert !IsProhibitedControl(s[i]);
    }
  }

  /** The white space of the label pattern is that of `strip` on the command line. */
  lemma WhiteSpaceIsBlank(c: char)
    ensures IsWhiteSpace(c as int) <==> CommandLine.IsBlank(c)
  {
  }

  lemma LabelExact(s: Text)
    ensures IsLabel(s) && !TextHasControl(s) <==> IsVisibleLine(s)
  {
    if !TextHasControl(s) {
      NoBreak(s);
    }
  }

  lemma TokenExact(s: Text, limit: nat)
    ensures IsToken(s, limit) && !TextHasControl(s) <==> IsPrintable(s, limit)
  {
    if IsPrintable(s, limit) {
      PrintableHasNoControl(s);
    }
    if !TextHasControl(s) {
      NoBreak(s);
    }
  }

  lemma PrintableHasNoControl(s: Text)
    requires forall i :: 0 <= i < |s| ==> 32 <= s[i] <= 126
    ensures !TextHasControl(s)
  {
  }

  // ---------------------------------------------------------------- sources

  lemma TypeIsNotUri()
    ensures Lit("type") != Lit("uri") && !TextHasControl(Lit("type")) && !TextHasControl(Lit("uri"))
  {
    assert Lit("type")[0] != Lit("uri")[0];
    PrintableHasNoControl(Lit("type"));
    PrintableHasNoControl(Lit("uri"));
  }

  lemma SourceControl(source: seq<Entry>)
    ensures HasControl(SourceDocument(source)) <==>
      exists i :: 0 <= i < |source| && (TextHasControl(source[i].name) || TextHasControl(source[i].text))
  {
    hide TextHasControl;
    var members := SourceDocument(source).members;
    forall i | 0 <= i < |source| ensures HasControl(members[i].value) == TextHasControl(source[i].text) {
    }
  }

  lemma SourceNames(source: seq<Entry>)
    ensures IsDictionary(source) <==> DistinctNames(SourceDocument(source).members)
  {
    var members := SourceDocument(source).members;
    assert |members| == |source| && forall i :: 0 <= i < |source| ==> source[i].name == members[i].name;
  }

  /** A dictionary of two entries, a type and a URI, at these places. */
  lemma SourceAt(source: seq<Entry>, i: nat)
    requires i < 2 == |source| && source[i].name == Lit("type") && source[1 - i].name == Lit("uri")
    ensures IsDictionary(source)
    ensures IsRecordSource(SourceDocument(source)) <==> IsToken(source[i].text, 64) && IsToken(source[1 - i].text, 2048)
  {
    hide Lit, IsToken, Position, DistinctNames;
    TypeIsNotUri();
    SourceNames(source);
    assert source[0].name != source[1].name by {
      if i == 0 {
        assert source[0].name == Lit("type");
      } else {
        assert source[1].name == Lit("type");
      }
    }
    var members := SourceDocument(source).members;
    assert members[i].name == Lit("type") && members[1 - i].name == Lit("uri");
    GetAt(members, i, "type");
    GetAt(members, 1 - i, "uri");
    assert Get(members, "type") == String(source[i].text) && Get(members, "uri") == String(source[1 - i].text);
    assert OnlyNames(members, ["type", "uri"]) by {
      var names := ["type", "uri"];
      assert names[0] == "type" && names[1] == "uri";
      forall k | 0 <= k < 2 ensures exists j :: 0 <= j < 2 && members[k].name == Lit(names[j]) {
        assert members[k].name == Lit(names[if k == i then 0 else 1]);
      }
    }
  }

  lemma SourceExact(source: seq<Entry>)
    ensures IsDictionary(source) && IsRecordSource(SourceDocument(source)) && !HasControl(SourceDocument(source))
       <==> IsSource(source)
  {
    hide Lit, IsToken, IsRecordSource, IsDictionary, DistinctNames, HasControl, IsPrintable, TextHasControl;
    hide SourceDocument;
    TypeIsNotUri();
    SourceControl(source);
    SourceNames(source);
    if IsDictionary(source) && IsRecordSource(SourceDocument(source)) {
      EntriesAt(source);
      var i := if source[0].name == Lit("type") then 0 else 1;
      SourceAt(source, i);
      TokenExact(source[i].text, 64);
      TokenExact(source[1 - i].text, 2048);
    }
    if IsSource(source) {
      var i := if IsTypeAndUri(source[0], source[1]) then 0 else 1;
      SourceAt(source, i);
      TokenExact(source[i].text, 64);
      TokenExact(source[1 - i].text, 2048);
    }
  }

  lemma EntriesAt(source: seq<Entry>)
    requires IsDictionary(source) && IsRecordSource(SourceDocument(source))
    ensures |source| == 2
    ensures exists i :: 0 <= i < 2 && source[i].name == Lit("type") && source[1 - i].name == Lit("uri")
  {
    hide IsRecordSource, DistinctNames, IsDictionary, Lit;
    SourceNames(source);
    SourceHasTwoEntries(SourceDocument(source));
    var members := SourceDocument(source).members;
    assert members[0].name == source[0].name && members[1].name == source[1].name;
  }

  lemma PairBag(a: seq<Entry>, b: seq<Entry>)
    requires |a| == 2 == |b|
    ensures multiset(a) == multiset(b) <==> (a[0] == b[0] && a[1] == b[1]) || (a[0] == b[1] && a[1] == b[0])
  {
    assert a == [a[0], a[1]] && b == [b[0], b[1]];
    var m, n := multiset{a[0], a[1]}, multiset{b[0], b[1]};
    assert multiset(a) == m && multiset(b) == n;
    if m == n {
      assert a[0] in n && a[1] in n;
      if a[0] == a[1] {
        assert n[a[0]] == 2;
      }
    }
  }

  lemma SameExact(a: seq<Entry>, b: seq<Entry>)
    requires IsSource(a) && IsSource(b)
    requires IsRecordSource(SourceDocument(a)) && IsRecordSource(SourceDocument(b))
    ensures SameSource(SourceDocument(a), SourceDocument(b)) <==> multiset(a) == multiset(b)
  {
    hide Lit, IsPrintable, IsRecordSource, SourceDocument;
    TypeIsNotUri();
    SourceGets(a);
    SourceGets(b);
    PairBag(a, b);
  }

  lemma SourceGets(a: seq<Entry>)
    requires IsSource(a)
    ensures var members, i := SourceDocument(a).members, if a[0].name == Lit("type") then 0 else 1;
      && Has(members, "type") && Get(members, "type") == String(a[i].text)
      && Has(members, "uri") && Get(members, "uri") == String(a[1 - i].text)
  {
    hide Lit, IsPrintable, DistinctNames, Position;
    TypeIsNotUri();
    SourceNames(a);
    var members, i := SourceDocument(a).members, if a[0].name == Lit("type") then 0 else 1;
    assert IsDictionary(a);
    GetAt(members, i, "type");
    GetAt(members, 1 - i, "uri");
  }

  lemma SourcesExact(sources: seq<seq<Entry>>)
    ensures
      && AreDictionaries(sources) && AreRecordSources(Array(SourceDocuments(sources)))
      && !HasControl(Array(SourceDocuments(sources)))
      <==> AreSources(sources)
  {
    hide IsRecordSource, SourceDocument, IsDictionary, IsSource, SameSource;
    var items := SourceDocuments(sources);
    forall i | 0 <= i < |sources|
      ensures IsDictionary(sources[i]) && IsRecordSource(items[i]) && !HasControl(items[i]) <==> IsSource(sources[i])
    {
      SourceExact(sources[i]);
    }
    forall i, j | 0 <= i < j < |sources| && IsSource(sources[i]) && IsSource(sources[j])
      ensures SameSource(items[i], items[j]) <==> multiset(sources[i]) == multiset(sources[j])
    {
      SourceExact(sources[i]);
      SourceExact(sources[j]);
      SameExact(sources[i], sources[j]);
    }
  }

  // ---------------------------------------------------------------- the document

  lemma SchemaOfFields(d: DraftInput)
    ensures MatchesSchema(DraftMembers(d)) <==>
      && IsUuid(WithoutFinalBreak(d.identity)) && IsLabel(d.labelText)
      && (d.kind == Lit("direct") || d.kind == Lit("proxy"))
      && AreRecordSources(Array(SourceDocuments(d.sources)))
  {
    hide Has, Get, IsUuid, IsLabel, AreRecordSources, SourceDocuments, DraftMembers, Lit, WithoutFinalBreak, OnlyNames;
    FieldsOf(d);
    KnownNames(d);
  }

  lemma ControlOfFields(d: DraftInput)
    ensures HasControl(MarkerDocument(d)) <==>
      || TextHasControl(d.identity) || TextHasControl(d.labelText) || TextHasControl(d.kind)
      || HasControl(Array(SourceDocuments(d.sources)))
  {
    hide SourceDocuments, TextHasControl, Lit;
    var members := DraftMembers(d);
    forall i | 0 <= i < 6 ensures !TextHasControl(members[i].name) {
      NamesAreFine(d);
      FineText(members[i].name);
    }
    FineText(Lit(".")) by { StringIsFine("."); }
    assert HasControl(members[1].value) == TextHasControl(d.identity);
    assert HasControl(members[2].value) == TextHasControl(d.labelText);
    assert HasControl(members[3].value) == TextHasControl(d.kind);
    assert !HasControl(members[0].value) && !HasControl(members[4].value);
    assert members[5].value == Array(SourceDocuments(d.sources));
    if HasControl(MarkerDocument(d)) {
      var i :| 0 <= i < 6 && (TextHasControl(members[i].name) || HasControl(members[i].value));
      assert i == 1 || i == 2 || i == 3 || i == 5;
    }
  }

  lemma FineText(t: Text)
    requires MadeOf(t, IsFine)
    ensures !TextHasControl(t)
  {
    PrintableHasNoControl(t);
  }

  // ---------------------------------------------------------------- encoding

  lemma {:induction false} BodyIsScalar(s: Text)
    requires IsScalarText(PrintBody(s))
    ensures IsScalarText(s)
  {
    if s != [] {
      var t := PrintBody(s);
      assert t == Escape(s[0]) + PrintBody(s[1..]);
      assert t[|Escape(s[0])|..] == PrintBody(s[1..]);
      BodyIsScalar(s[1..]);
      assert IsScalar(Escape(s[0])[0]) by { assert t[0] == Escape(s[0])[0]; }
    }
  }

  lemma {:induction false} ValueIsScalar(members: seq<Member>, i: nat)
    requires i < |members| && IsScalarText(PrintMembers(members))
    ensures IsScalarText(Print(members[i].value))
  {
    hide PrintString, Print;
    var t, m := PrintMembers(members), members[0];
    var head := PrintString(m.name) + [COLON];
    if i == 0 {
      assert forall k :: 0 <= k < |Print(m.value)| ==> t[|head| + k] == Print(m.value)[k];
    } else {
      var front := head + Print(m.value) + [COMMA];
      assert t == front + PrintMembers(members[1..]);
      assert forall k :: 0 <= k < |PrintMembers(members[1..])| ==> t[|front| + k] == PrintMembers(members[1..])[k];
      ValueIsScalar(members[1..], i - 1);
    }
  }

  lemma LabelEncodes(d: DraftInput)
    requires IsScalarText(Print(MarkerDocument(d)))
    ensures IsScalarText(d.labelText)
  {
    hide PrintMembers, PrintBody, Lit;
    var members := DraftMembers(d);
    var t := Print(MarkerDocument(d));
    assert t == [LBRACE] + PrintMembers(members);
    assert forall k :: 0 <= k < |PrintMembers(members)| ==> t[k + 1] == PrintMembers(members)[k];
    ValueIsScalar(members, 2);
    var body := PrintBody(d.labelText);
    assert Print(members[2].value) == [QUOTE] + body;
    assert forall k :: 0 <= k < |body| ==> ([QUOTE] + body)[k + 1] == body[k];
    BodyIsScalar(d.labelText);
  }

  lemma PrintableIsScalar(t: Text)
    requires forall i :: 0 <= i < |t| ==> 32 <= t[i] <= 126
    ensures MadeOf(t, IsScalar)
  {
  }

  lemma SourcesAreScalar(sources: seq<seq<Entry>>)
    requires AreSources(sources)
    ensures ValueMadeOf(Array(SourceDocuments(sources)), IsScalar)
  {
    forall i | 0 <= i < |sources| ensures ValueMadeOf(SourceDocument(sources[i]), IsScalar) {
      SourceIsScalar(sources[i]);
    }
    hide SourceDocument, IsSource;
  }

  lemma SourceIsScalar(source: seq<Entry>)
    requires IsSource(source)
    ensures ValueMadeOf(SourceDocument(source), IsScalar)
  {
    var members := SourceDocument(source).members;
    forall i | 0 <= i < 2 ensures MadeOf(members[i].name, IsScalar) && ValueMadeOf(members[i].value, IsScalar) {
      PrintableIsScalar(source[i].name);
      PrintableIsScalar(source[i].text);
    }
  }

  lemma FieldsEncode(d: DraftInput)
    requires IsIdentity(d.identity) && AreSources(d.sources) && (d.kind == Lit("direct") || d.kind == Lit("proxy"))
    requires IsScalarText(d.labelText)
    ensures IsScalarText(Print(MarkerDocument(d)))
  {
    var members := DraftMembers(d);
    forall i | 0 <= i < 6 ensures MadeOf(members[i].name, IsScalar) {
      NamesAreFine(d);
      PrintableIsScalar(members[i].name);
    }
    forall i | 0 <= i < 6 ensures ValueMadeOf(members[i].value, IsScalar) {
      ValueEncodes(d, i);
    }
    hide MadeOf, ValueMadeOf, DraftMembers, AreSources, Print;
    ObjectMadeOf(members);
    PrintMadeOf(MarkerDocument(d), IsScalar);
    MadeOfScalar(Print(MarkerDocument(d)));
  }

  lemma MadeOfScalar(t: Text)
    ensures MadeOf(t, IsScalar) <==> IsScalarText(t)
  {
  }

  lemma ObjectMadeOf(members: seq<Member>)
    requires forall i :: 0 <= i < |members| ==> MadeOf(members[i].name, IsScalar) && ValueMadeOf(members[i].value, IsScalar)
    ensures ValueMadeOf(Object(members), IsScalar)
  {
  }

  lemma ValueEncodes(d: DraftInput, i: nat)
    requires IsIdentity(d.identity) && AreSources(d.sources) && (d.kind == Lit("direct") || d.kind == Lit("proxy"))
    requires IsScalarText(d.labelText) && i < 6
    ensures ValueMadeOf(DraftMembers(d)[i].value, IsScalar)
  {
    match i
    case 1 =>
      PrintableIsScalar(d.identity);
    case 3 =>
      PrintableIsScalar(d.kind);
    case 5 =>
      SourcesAreScalar(d.sources);
    case _ =>
  }

  /** `draft` accepts exactly: a lower-case version 4 UUID; a label of one line of 1 to 256 characters
      with something visible and no control on it, that can be encoded; direct or proxy; and 1 to 32
      sources, no two the same, each a type of at most 64 and a URI of at most 2,048 printable ASCII
      characters and nothing else. */
  lemma AcceptedFields(d: DraftInput)
    ensures Accepted(d) <==>
      && FitsPattern(d.identity, "xxxxxxxx-xxxx-4xxx-yxxx-xxxxxxxxxxxx")
      && IsVisibleLine(d.labelText) && IsScalarText(d.labelText)
      && (d.kind == Lit("direct") || d.kind == Lit("proxy"))
      && AreSources(d.sources)
  {
    hide AreDictionaries, MatchesSchema, HasControl, Print, Accepted, AreSources, AreRecordSources, IsUuid, IsLabel;
    hide FitsPattern, TextHasControl, DraftMembers, SourceDocuments, IsVisibleLine, Lit, IsScalar;
    AcceptedExact(d);
    SchemaOfFields(d);
    ControlOfFields(d);
    SourcesExact(d.sources);
    IdentityExact(d.identity);
    LabelExact(d.labelText);
    KindIsFine(d.kind);
    if IsScalarText(Print(MarkerDocument(d))) {
      LabelEncodes(d);
    }
    var isKind := d.kind == Lit("direct") || d.kind == Lit("proxy");
    if IsIdentity(d.identity) && AreSources(d.sources) && isKind && IsScalarText(d.labelText) {
      FieldsEncode(d);
    }
  }

  lemma KindIsFine(kind: Text)
    ensures kind == Lit("direct") || kind == Lit("proxy") ==> !TextHasControl(kind)
  {
  }
}
