/** Why the raw guard refuses: the code it gives, exactly. */
module GuardCodes {
  import opened Text
  import opened Json
  import opened JsonLaws
  import opened RawGuard
  import opened RawGuardLaws
  import Utf8

  // ---------------------------------------------------------------- bytes

  /** The byte order marks of UTF-8, UTF-32 and UTF-16. */
  function Marks(): seq<Bytes> {
    [[0xEF, 0xBB, 0xBF], [0xFF, 0xFE, 0x00, 0x00], [0x00, 0x00, 0xFE, 0xFF], [0xFF, 0xFE], [0xFE, 0xFF]]
  }

  predicate BeginsWithMark(raw: Bytes) {
    exists i :: 0 <= i < |Marks()| && Marks()[i] <= raw
  }

  lemma MarksAreBoms(raw: Bytes)
    ensures BeginsWithMark(raw) <==> HasBom(raw)
  {
    var m := Marks();
    assert forall k :: 0 <= k < |m| ==> (m[k] <= raw <==> StartsWith(raw, m[k]));
    if HasBom(raw) {
      assert m[0] <= raw || m[1] <= raw || m[2] <= raw || m[3] <= raw || m[4] <= raw;
    }
  }

  /** The phases over bytes: too long; then any of the five byte order marks; then not UTF-8. */
  lemma ByteCodesExact(raw: Bytes)
    ensures Guard(raw) == Rejected(ReadOverLimit) <==> |raw| > 262144
    ensures Guard(raw) == Rejected(BomPrefix) <==> |raw| <= 262144 && BeginsWithMark(raw)
    ensures Guard(raw) == Rejected(DecodeError) <==>
      |raw| <= 262144 && !BeginsWithMark(raw) && Utf8.Decode(raw) == None
    ensures |raw| <= 262144 && !BeginsWithMark(raw) && Utf8.Decode(raw).Some? ==>
      Guard(raw) == GuardText(Utf8.Decode(raw).value)
  {
    MarksAreBoms(raw);
    hide HasBom, BeginsWithMark, Utf8.Decode, DepthRejects, ParseDocument, HasControl, TextHasControl;
  }

  // ---------------------------------------------------------------- controls

  /** The C0 controls, DEL and the C1 controls, and the bidirectional controls: the two marks, the
      five embeddings and overrides, the four isolates. */
  lemma ControlsExact(c: int)
    requires c >= 0
    ensures IsProhibitedControl(c) <==>
      || c < 32 || (127 <= c && c < 160)
      || c in {0x200E, 0x200F, 0x202A, 0x202B, 0x202C, 0x202D, 0x202E, 0x2066, 0x2067, 0x2068, 0x2069}
  {
  }

  // ---------------------------------------------------------------- hooks

  /** What the hooks raise first: they see constants as they are read and an object when it ends. */
  function FirstFault(v: Json): Option<Failure>
    decreases v, 1
  {
    match v
    case NonFinite(_) => Some(NonFiniteConstant)
    case Array(items) => FirstOfItems(items)
    case Object(members) =>
      var inside := FirstOfMembers(members);
      if inside.Some? then inside else if DistinctNames(members) then None else Some(DuplicateName)
    case _ => None
  }

  function FirstOfItems(items: seq<Json>): Option<Failure>
    decreases items, 0
  {
    if items == [] then None
    else if FirstFault(items[0]).Some? then FirstFault(items[0])
    else FirstOfItems(items[1..])
  }

  function FirstOfMembers(members: seq<Member>): Option<Failure>
    decreases members, 0
  {
    if members == [] then None
    else if FirstFault(members[0].value).Some? then FirstFault(members[0].value)
    else FirstOfMembers(members[1..])
  }

  lemma {:induction false} NoFaultExact(v: Json)
    ensures FirstFault(v) == None <==> Strict(v)
    decreases v, 1
  {
    match v
    case Array(items) => NoFaultInItems(items);
    case Object(members) => NoFaultInMembers(members);
    case _ =>
  }

  lemma {:induction false} NoFaultInItems(items: seq<Json>)
    ensures FirstOfItems(items) == None <==> StrictItems(items)
    decreases items, 0
  {
    if items != [] {
      NoFaultExact(items[0]);
      NoFaultInItems(items[1..]);
      StrictCons(items[0], items[1..]);
      assert items == [items[0]] + items[1..];
    }
  }

  lemma {:induction false} NoFaultInMembers(members: seq<Member>)
    ensures FirstOfMembers(members) == None <==> StrictMembers(members)
    decreases members, 0
  {
    if members != [] {
      NoFaultExact(members[0].value);
      NoFaultInMembers(members[1..]);
      StrictMembersCons(members[0], members[1..]);
      assert members == [members[0]] + members[1..];
    }
  }

  /** A failing hook raised the first fault of the value. */
  predicate FaultFits(t: Text) {
    var g, h := ParseValue(Grammar, t), ParseValue(Hooked, t);
    g.Ok? && h.Err? ==> FirstFault(g.value) == Some(h.failure)
  }

  lemma {:induction false} ValueFault(t: Text)
    ensures FaultFits(t)
    decreases |t|, 1
  {
    hide FaultFits;
    if t != [] && t[0] == LBRACKET {
      ArrayFault(t);
    } else if t != [] && t[0] == LBRACE {
      ObjectFault(t);
    } else {
      OtherFault(t);
    }
  }

  lemma {:induction false} OtherFault(t: Text)
    requires t == [] || (t[0] != LBRACKET && t[0] != LBRACE)
    ensures FaultFits(t)
  {
    hide WordEnd, NumberEnd, ParseString;
  }

  lemma {:induction false} ArrayFault(t: Text)
    requires t != [] && t[0] == LBRACKET
    ensures FaultFits(t)
    decreases |t|, 0
  {
    hide ParseItems, ParseMembers;
    ItemsFault(SkipSpace(t[1..]));
  }

  lemma {:induction false} ObjectFault(t: Text)
    requires t != [] && t[0] == LBRACE
    ensures FaultFits(t)
    decreases |t|, 0
  {
    hide ParseItems, ParseMembers, DistinctNames, FirstOfMembers, Strict;
    DistinctEmpty();
    var first := SkipSpace(t[1..]);
    MembersModes(first);
    MembersFault(first);
    if ParseMembers(Grammar, first).Ok? {
      NoFaultInMembers(ParseMembers(Grammar, first).value);
    }
  }

  lemma {:induction false} ItemsFault(t: Text)
    ensures var g, h := ParseItems(Grammar, t), ParseItems(Hooked, t);
      g.Ok? && h.Err? ==> FirstOfItems(g.value) == Some(h.failure)
    decreases |t|, 2
  {
    hide ParseValue, FirstFault, Strict, FirstOfItems;
    ValueModes(t);
    ValueFault(t);
    var v := ParseValue(Grammar, t);
    if v.Ok? {
      NoFaultExact(v.value);
      var next := SkipSpace(v.rest);
      if next != [] && next[0] == COMMA {
        ItemsFault(SkipSpace(next[1..]));
        var more := ParseItems(Grammar, SkipSpace(next[1..]));
        if more.Ok? {
          FirstItem(v.value, more.value);
        }
      } else {
        FirstItem(v.value, []);
        assert [v.value] + [] == [v.value];
      }
    }
  }

  lemma FirstItem(v: Json, more: seq<Json>)
    ensures FirstOfItems([v] + more) == if FirstFault(v).Some? then FirstFault(v) else FirstOfItems(more)
  {
    assert ([v] + more)[1..] == more;
  }

  lemma {:induction false} MemberFault(t: Text)
    ensures var g, h := ParseMember(Grammar, t), ParseMember(Hooked, t);
      && (g.Ok? && h.Err? ==> FirstFault(g.value.value) == Some(h.failure))
    decreases |t|, 2
  {
    hide ParseValue, FirstFault;
    if t != [] && t[0] == QUOTE && ParseString(t[1..]).Ok? {
      var colon := SkipSpace(ParseString(t[1..]).rest);
      if colon != [] && colon[0] == COLON {
        ValueFault(SkipSpace(colon[1..]));
      }
    }
  }

  lemma {:induction false} MembersFault(t: Text)
    ensures var g, h := ParseMembers(Grammar, t), ParseMembers(Hooked, t);
      g.Ok? && h.Err? ==> FirstOfMembers(g.value) == Some(h.failure)
    decreases |t|, 3
  {
    hide ParseMember, FirstFault, Strict, FirstOfMembers;
    MemberModes(t);
    MemberFault(t);
    var m := ParseMember(Grammar, t);
    if m.Ok? {
      NoFaultExact(m.value.value);
      var next := SkipSpace(m.rest);
      if next != [] && next[0] == COMMA {
        MembersFault(SkipSpace(next[1..]));
        var more := ParseMembers(Grammar, SkipSpace(next[1..]));
        if more.Ok? {
          FirstMember(m.value, more.value);
        }
      } else {
        FirstMember(m.value, []);
        assert [m.value] + [] == [m.value];
      }
    }
  }

  lemma FirstMember(m: Member, more: seq<Member>)
    ensures FirstOfMembers([m] + more) == if FirstFault(m.value).Some? then FirstFault(m.value) else FirstOfMembers(more)
  {
    assert ([m] + more)[1..] == more;
  }

  lemma DocumentFault(t: Text)
    ensures var g, h := ParseDocument(Grammar, t), ParseDocument(Hooked, t);
      g.Ok? && h.Err? ==> FirstFault(g.value) == Some(h.failure)
  {
    hide ParseValue, FirstFault, Strict;
    ValueModes(SkipSpace(t));
    ValueFault(SkipSpace(t));
  }

  /** The phases over the text of a document: nesting over 8; then the first fault a hook meets; then
      controls, in the document or, for `null`, in the text. */
  lemma TextCodesExact(text: Text)
    requires ParseDocument(Grammar, text).Ok?
    ensures var v, verdict := ParseDocument(Grammar, text).value, GuardText(text);
      && (verdict == Rejected(DepthExceeded) <==> Depth(v) > 8)
      && (verdict == Rejected(DuplicateNames) <==> Depth(v) <= 8 && FirstFault(v) == Some(DuplicateName))
      && (verdict == Rejected(NonFiniteConstants) <==> Depth(v) <= 8 && FirstFault(v) == Some(NonFiniteConstant))
      && (verdict == Rejected(ControlCharacter) <==>
            Depth(v) <= 8 && FirstFault(v) == None && (if v.Null? then TextHasControl(text) else HasControl(v)))
  {
    hide ParseDocument, Depth, HasControl, Strict, FirstFault, DepthRejects;
    DocumentModes(text);
    DocumentFault(text);
    NoFaultExact(ParseDocument(Grammar, text).value);
    DepthScanExact(text);
    GuardTextExact(text);
    DepthOfNull();
  }

  /** The documented order puts duplicate names before non-finite constants. A constant inside an
      object is raised before the names of that object are looked at. */
  lemma ConstantsComeFirst(text: Text)
    requires ParseDocument(Grammar, text).Ok? && ParseDocument(Grammar, text).value.Object?
    requires var members := ParseDocument(Grammar, text).value.members;
      && !DistinctNames(members)
      && (exists i :: 0 <= i < |members| && members[i].value.NonFinite?)
      && (forall i :: 0 <= i < |members| ==> FirstFault(members[i].value) != Some(DuplicateName))
    ensures GuardText(text) == Rejected(DepthExceeded) || GuardText(text) == Rejected(NonFiniteConstants)
  {
    hide ParseDocument, GuardText, Depth, DistinctNames;
    var members := ParseDocument(Grammar, text).value.members;
    TextCodesExact(text);
    var i :| 0 <= i < |members| && members[i].value.NonFinite?;
    ConstantFound(members, i);
  }

  lemma {:induction false} ConstantFound(members: seq<Member>, i: nat)
    requires i < |members| && members[i].value.NonFinite?
    requires forall k :: 0 <= k < |members| ==> FirstFault(members[k].value) != Some(DuplicateName)
    ensures FirstOfMembers(members) == Some(NonFiniteConstant)
  {
    FaultKinds(members[0].value);
    var first := FirstFault(members[0].value);
    assert first.Some? ==> first.value != DuplicateName && first.value != Malformed;
    if i > 0 {
      assert forall k :: 0 <= k < |members| - 1 ==> members[1..][k] == members[k + 1];
      ConstantFound(members[1..], i - 1);
    }
  }

  lemma {:induction false} FaultKinds(v: Json)
    ensures FirstFault(v) != Some(Malformed)
    decreases v, 1
  {
    match v
    case Array(items) => ItemFaultKinds(items);
    case Object(members) => MemberFaultKinds(members);
    case _ =>
  }

  lemma {:induction false} ItemFaultKinds(items: seq<Json>)
    ensures FirstOfItems(items) != Some(Malformed)
    decreases items, 0
  {
    if items != [] {
      FaultKinds(items[0]);
      ItemFaultKinds(items[1..]);
    }
  }

  lemma {:induction false} MemberFaultKinds(members: seq<Member>)
    ensures FirstOfMembers(members) != Some(Malformed)
    decreases members, 0
  {
    if members != [] {
      FaultKinds(members[0].value);
      MemberFaultKinds(members[1..]);
    }
  }

  lemma NameA(t: Text, rest: Text)
    requires t == [QUOTE, 0x61, QUOTE, COLON] + rest
    ensures ParseString(t[1..]) == Ok([0x61], [COLON] + rest)
  {
    var body := t[1..];
    assert body == [0x61, QUOTE, COLON] + rest;
    assert body[1..] == [QUOTE, COLON] + rest && body[1..][1..] == [COLON] + rest;
    assert ParseString(body[1..]) == Ok([], [COLON] + rest) && [0x61] + [] == [0x61];
  }

  lemma MemberA(t: Text, value: Text)
    requires t == [QUOTE, 0x61, QUOTE, COLON] + value && value != [] && !IsSpace(value[0])
    ensures ParseMember(Grammar, t) ==
      match ParseValue(Grammar, value)
      case Err(f) => Err(f)
      case Ok(v, rest) => Ok(Member([0x61], v), rest)
  {
    hide ParseString, ParseValue;
    NameA(t, value);
    var colon := [COLON] + value;
    assert SkipSpace(colon) == colon && colon[1..] == value && SkipSpace(value) == value;
  }

  lemma ConstantParsed()
    ensures ParseValue(Grammar, Lit("NaN,\"a\":1}")) == Ok(NonFinite(Lit("NaN")), Lit(",\"a\":1}"))
  {
    var t := Lit("NaN,\"a\":1}");
    assert t[..3] == Lit("NaN") && t[3..] == Lit(",\"a\":1}");
    hide NumberEnd;
  }

  lemma OneParsed()
    ensures ParseValue(Grammar, Lit("1}")) == Ok(Number(Lit("1")), Lit("}"))
  {
    assert Lit("1}")[1..] == Lit("}") && Lit("1}")[..1] == Lit("1") && Lit("1}")[0..] == Lit("1}");
    assert Lit("}")[0..] == Lit("}");
  }

  function Both(): Text {
    Lit("{\"a\":NaN,\"a\":1}")
  }

  lemma BothSplit()
    ensures var name := [QUOTE, 0x61, QUOTE, COLON];
      && Both() == [LBRACE] + (name + Lit("NaN,\"a\":1}"))
      && Lit(",\"a\":1}") == [COMMA] + (name + Lit("1}"))
      && Lit("NaN,\"a\":1}")[0] == 0x4E && Lit("1}")[0] == 0x31 && Lit("}") == [RBRACE] && Lit("a") == [0x61]
  {
  }

  lemma LastMemberParsed(t: Text)
    requires t == [QUOTE, 0x61, QUOTE, COLON] + Lit("1}")
    ensures ParseMembers(Grammar, t) == Ok([Member(Lit("a"), Number(Lit("1")))], [])
  {
    hide ParseMember, ParseValue, Lit;
    BothSplit();
    OneParsed();
    MemberA(t, Lit("1}"));
    assert [RBRACE][1..] == [];
  }

  lemma MembersParsed(t: Text)
    requires t == [QUOTE, 0x61, QUOTE, COLON] + Lit("NaN,\"a\":1}")
    ensures ParseMembers(Grammar, t)
         == Ok([Member(Lit("a"), NonFinite(Lit("NaN"))), Member(Lit("a"), Number(Lit("1")))], [])
  {
    hide ParseMember, ParseValue, Lit;
    BothSplit();
    ConstantParsed();
    MemberA(t, Lit("NaN,\"a\":1}"));
    var more := [QUOTE, 0x61, QUOTE, COLON] + Lit("1}");
    var next := Lit(",\"a\":1}");
    assert next[0] == COMMA && SkipSpace(next) == next && next[1..] == more && SkipSpace(more) == more;
    LastMemberParsed(more);
    var m, rest := Member(Lit("a"), NonFinite(Lit("NaN"))), [Member(Lit("a"), Number(Lit("1")))];
    assert ParseMember(Grammar, t) == Ok(m, next);
    assert [m] + rest == [m, rest[0]];
  }

  lemma BothParsed()
    ensures ParseDocument(Grammar, Both())
         == Ok(Object([Member(Lit("a"), NonFinite(Lit("NaN"))), Member(Lit("a"), Number(Lit("1")))]), [])
  {
    hide ParseMembers, Lit;
    BothSplit();
    var first := [QUOTE, 0x61, QUOTE, COLON] + Lit("NaN,\"a\":1}");
    assert Both()[1..] == first && SkipSpace(first) == first && SkipSpace(Both()) == Both();
    MembersParsed(first);
  }

  /** An object with both faults, `{"a":NaN,"a":1}`: it repeats a name, and the guard blames the constant. */
  lemma ConstantsComeFirstExample()
    ensures ParseDocument(Grammar, Both())
         == Ok(Object([Member(Lit("a"), NonFinite(Lit("NaN"))), Member(Lit("a"), Number(Lit("1")))]), [])
    ensures GuardText(Both()) == Rejected(NonFiniteConstants)
  {
    hide ParseDocument, GuardText, Both, Lit;
    BothParsed();
    var members := ParseDocument(Grammar, Both()).value.members;
    assert FirstFault(members[0].value) == Some(NonFiniteConstant);
    FlatDepth(members);
    TextCodesExact(Both());
  }

  lemma FlatDepth(members: seq<Member>)
    requires |members| == 2 && Depth(members[0].value) == 0 == Depth(members[1].value)
    ensures Depth(Object(members)) == 1
  {
    assert members[1..] == [members[1]] && members[1..][1..] == [];
    assert DepthOfMembers([]) == 0 && DepthOfMembers(members[1..]) == 0;
  }

  /** Text that is no document is left to the schema phase unless a hook fires, it nests too deep on
      the way, or it holds a control. */
  lemma NoDocument(text: Text)
    requires ParseDocument(Hooked, text) == Err(Malformed) && !DepthRejects(text, 0, false, false)
    ensures GuardText(text) == if TextHasControl(text) then Rejected(ControlCharacter) else Passed
  {
    hide ParseDocument, DepthRejects, TextHasControl;
  }
}
