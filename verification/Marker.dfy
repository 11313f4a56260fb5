/** The marker document: its closed schema, the draft that creates it, and the readers that
    decide what to believe about the bytes at the marker path. */
module Marker {
  import opened Text
  import opened Json
  import opened RawGuard
  import Utf8

  // ---------------------------------------------------------------- schema

  predicate IsLowerHex(c: int) {
    0x30 <= c <= 0x39 || 0x61 <= c <= 0x66
  }

  /** The pattern of an RFC 4122 version 4 UUID in lower case. */
  predicate IsUuid(s: Text) {
    && |s| == 36
    && forall i :: 0 <= i < 36 ==>
         if i == 8 || i == 13 || i == 18 || i == 23 then s[i] == MINUS
         else if i == 14 then s[i] == 0x34
         else if i == 19 then 0x38 <= s[i] <= 0x39 || 0x61 <= s[i] <= 0x62
         else IsLowerHex(s[i])
  }

  /** `$` in a Python pattern also matches in front of a final line break. */
  function WithoutFinalBreak(s: Text): (r: Text)
    ensures |s| - 1 <= |r| <= |s| && r == s[..|r|]
    ensures |r| < |s| ==> s[|r|] == 0x0A
  {
    if s != [] && s[|s| - 1] == 0x0A then s[..|s| - 1] else s
  }

  predicate IsWhiteSpace(c: int) {
    || 0x09 <= c <= 0x0D || 0x1C <= c <= 0x20 || c == 0x85 || c == 0xA0 || c == 0x1680
    || 0x2000 <= c <= 0x200A || 0x2028 <= c <= 0x2029 || c == 0x202F || c == 0x205F || c == 0x3000
  }

  /** One line with something visible on it. */
  predicate IsLabel(s: Text) {
    var line := WithoutFinalBreak(s);
    && 1 <= |s| <= 256
    && (forall i :: 0 <= i < |line| ==> line[i] != 0x0A)
    && (exists i :: 0 <= i < |line| && !IsWhiteSpace(line[i]))
  }

  /** Printable ASCII of at most `limit` characters. */
  predicate IsToken(s: Text, limit: nat) {
    var line := WithoutFinalBreak(s);
    && 1 <= |s| <= limit && line != []
    && forall i :: 0 <= i < |line| ==> 0x20 <= line[i] <= 0x7E
  }

  predicate Has(members: seq<Member>, name: string) {
    Position(members, Lit(name)) < |members|
  }

  function Get(members: seq<Member>, name: string): (v: Json)
    requires Has(members, name)
  {
    members[Position(members, Lit(name))].value
  }

  predicate OnlyNames(members: seq<Member>, names: seq<string>) {
    forall i :: 0 <= i < |members| ==> exists k :: 0 <= k < |names| && members[i].name == Lit(names[k])
  }

  predicate IsRecordSource(v: Json) {
    && v.Object?
    && OnlyNames(v.members, ["type", "uri"])
    && Has(v.members, "type") && Has(v.members, "uri")
    && var type_, uri := Get(v.members, "type"), Get(v.members, "uri");
    && type_.String? && IsToken(type_.text, 64)
    && uri.String? && IsToken(uri.text, 2048)
  }

  /** Two dictionaries are equal whatever the order of their entries. */
  predicate SameSource(a: Json, b: Json)
    requires IsRecordSource(a) && IsRecordSource(b)
  {
    Get(a.members, "type") == Get(b.members, "type") && Get(a.members, "uri") == Get(b.members, "uri")
  }

  predicate AreRecordSources(v: Json) {
    && v.Array? && 1 <= |v.items| <= 32
    && (forall i :: 0 <= i < |v.items| ==> IsRecordSource(v.items[i]))
    && (forall i, j :: 0 <= i < j < |v.items| ==> !SameSource(v.items[i], v.items[j]))
  }

  datatype Validity = Valid | UnsupportedVersion | SchemaInvalid

  predicate MatchesSchema(members: seq<Member>) {
    && OnlyNames(members, ["version", "identity", "label", "kind", "workspace", "record_sources"])
    && Has(members, "version") && Has(members, "identity") && Has(members, "label")
    && Has(members, "kind") && Has(members, "workspace") && Has(members, "record_sources")
    && Get(members, "version") == Number(Lit("1"))
    && Get(members, "identity").String? && IsUuid(WithoutFinalBreak(Get(members, "identity").text))
    && Get(members, "label").String? && IsLabel(Get(members, "label").text)
    && (Get(members, "kind") == String(Lit("direct")) || Get(members, "kind") == String(Lit("proxy")))
    && Get(members, "workspace") == String(Lit("."))
    && AreRecordSources(Get(members, "record_sources"))
  }

  /** Version dispatch before the closed schema: a version that is there but is not the integer
      1 is unsupported, whatever else the document says. */
  function Validate(v: Json): Validity {
    if !v.Object? then SchemaInvalid
    else if Has(v.members, "version") && Get(v.members, "version") != Number(Lit("1")) then UnsupportedVersion
    else if MatchesSchema(v.members) then Valid
    else SchemaInvalid
  }

  function IdentityOf(v: Json): Text
    requires Validate(v) == Valid
  {
    Get(v.members, "identity").text
  }

  // ---------------------------------------------------------------- draft

  /** One entry of a record source as the caller hands it over. */
  datatype Entry = Entry(name: Text, text: Text)

  /** A record source is a dictionary: its names are distinct. */
  predicate IsDictionary(source: seq<Entry>) {
    forall i, j :: 0 <= i < j < |source| ==> source[i].name != source[j].name
  }

  datatype DraftInput = DraftInput(identity: Text, labelText: Text, kind: Text, sources: seq<seq<Entry>>)

  function SourceDocument(source: seq<Entry>): Json {
    Object(seq(|source|, i requires 0 <= i < |source| => Member(source[i].name, String(source[i].text))))
  }

  function SourceDocuments(sources: seq<seq<Entry>>): (items: seq<Json>)
    ensures |items| == |sources|
  {
    seq(|sources|, i requires 0 <= i < |sources| => SourceDocument(sources[i]))
  }

  function DraftMembers(d: DraftInput): seq<Member> {
    [ Member(Lit("version"), Number(Lit("1"))),
      Member(Lit("identity"), String(d.identity)),
      Member(Lit("label"), String(d.labelText)),
      Member(Lit("kind"), String(d.kind)),
      Member(Lit("workspace"), String(Lit("."))),
      Member(Lit("record_sources"), Array(SourceDocuments(d.sources))) ]
  }

  function MarkerDocument(d: DraftInput): Json {
    Object(DraftMembers(d))
  }

  datatype DraftError = GuardRefused(code: Code) | SchemaRefused(validity: Validity) | NotEncodable

  datatype DraftResult = Drafted(marker: Json) | Refused(error: DraftError)

  /** `draft`, once the inspection has said draft-ready: guard, schema, then the envelope, whose
      encoding Python refuses when the text holds a surrogate. */
  function Draft(d: DraftInput): DraftResult {
    var marker := MarkerDocument(d);
    match GuardText(Print(marker))
    case Rejected(code) => Refused(GuardRefused(code))
    case Passed =>
      if Validate(marker) != Valid then Refused(SchemaRefused(Validate(marker)))
      else if !IsScalarText(Print(marker)) then Refused(NotEncodable)
      else Drafted(marker)
  }

  /** A draft that `draft` accepts. */
  predicate Accepted(d: DraftInput) {
    && (forall i :: 0 <= i < |d.sources| ==> IsDictionary(d.sources[i]))
    && Draft(d).Drafted?
  }

  /** `_marker_to_bytes`. */
  function MarkerBytes(d: DraftInput): Bytes
    requires Accepted(d)
  {
    Utf8.Encode(Print(MarkerDocument(d)))
  }

  // ---------------------------------------------------------------- readers

  /** `json.loads(raw.decode("utf-8"))`; None for either exception. */
  function LoadBytes(raw: Bytes): Option<Json> {
    match Utf8.Decode(raw)
    case None => None
    case Some(text) =>
      match ParseDocument(Plain, text)
      case Err(_) => None
      case Ok(v, _) => Some(v)
  }

  datatype MarkerState = Partial | Invalid | Unsupported

  datatype Inspection = OccupiedInvalid(state: MarkerState) | LinkedExisting(identity: Text)

  /** `_classify_marker`: what an inspection says about the bytes at the marker path. */
  function Classify(raw: Bytes): Inspection {
    if Guard(raw) != Passed then OccupiedInvalid(Partial)
    else
      match LoadBytes(raw)
      case None => OccupiedInvalid(Partial)
      case Some(v) =>
        if !v.Object? then OccupiedInvalid(Invalid)
        else
          match Validate(v)
          case UnsupportedVersion => OccupiedInvalid(Unsupported)
          case SchemaInvalid => OccupiedInvalid(Invalid)
          case Valid => LinkedExisting(IdentityOf(v))
  }

  datatype ReadBackFault =
    ReadFailed | GuardFault(code: Code) | NotADocument | SchemaFault(validity: Validity) | IdentityMismatch | TargetMismatch

  datatype ReadBack = Unverified(fault: ReadBackFault) | Verified

  /** `_readback_and_project` up to the projection: `raw` is what reading returned, if anything,
      and `sameTarget` whether the handle captured afterwards is the confirmed one. */
  function CheckReadBack(d: DraftInput, raw: Option<Bytes>, sameTarget: bool): ReadBack {
    match raw
    case None => Unverified(ReadFailed)
    case Some(b) =>
      match Guard(b)
      case Rejected(code) => Unverified(GuardFault(code))
      case Passed =>
        match LoadBytes(b)
        case None => Unverified(NotADocument)
        case Some(v) =>
          if !v.Object? then Unverified(NotADocument)
          else if Validate(v) != Valid then Unverified(SchemaFault(Validate(v)))
          else if IdentityOf(v) != d.identity then Unverified(IdentityMismatch)
          else if !sameTarget then Unverified(TargetMismatch)
          else Verified
  }

  /** The projection's `_parse_marker`: the document of a valid marker, or None. */
  function ParseMarker(raw: Bytes): (m: Option<Json>)
    ensures m.Some? ==> Validate(m.value) == Valid
  {
    if Guard(raw) != Passed then None
    else
      match LoadBytes(raw)
      case None => None
      case Some(v) => if Validate(v) == Valid then Some(v) else None
  }
}
