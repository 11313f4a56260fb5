/** The lock file's content: bounded JSON metadata of its owner. A complete file names its owner,
    a partly written one names nobody. */
module LockMetadata {
  import opened Text
  import opened Json
  import opened JsonLaws
  import opened Marker
  import opened TargetHandle
  import opened MarkerLaws
  import Utf8

  const MAX_METADATA_BYTES := 4096

  /** Timestamps are kept as the text `isoformat` makes of them. */
  datatype Metadata = Metadata(owner: Text, pid: int, handle: Handle, startedAt: Text, leaseUntil: Text)

  predicate IsPlainCharacter(c: int) {
    0x20 <= c <= 0x7E
  }

  predicate IsPlainText(t: Text) {
    MadeOf(t, IsPlainCharacter)
  }

  predicate PlainValue(v: Json) {
    ValueMadeOf(v, IsPlainCharacter)
  }

  /** Metadata as the code makes it: hexadecimal owners, process ids, ISO timestamps. */
  predicate IsPlain(m: Metadata) {
    IsPlainText(m.owner) && m.pid >= 0 && IsHandle(m.handle) && IsPlainText(m.startedAt) && IsPlainText(m.leaseUntil)
  }

  // ---------------------------------------------------------------- integers

  /** `str` of a natural number. */
  function Decimal(n: nat): (t: Text)
    ensures t != [] && forall i :: 0 <= i < |t| ==> IsDigit(t[i])
    ensures t[0] == 0x30 <==> n == 0
  {
    if n < 10 then [0x30 + n] else Decimal(n / 10) + [0x30 + n % 10]
  }

  predicate AreDigits(t: Text) {
    t != [] && forall i :: 0 <= i < |t| ==> IsDigit(t[i])
  }

  function DecimalValue(t: Text): (n: nat)
    requires forall i :: 0 <= i < |t| ==> IsDigit(t[i])
  {
    if t == [] then 0
    else
      assert IsDigit(t[|t| - 1]);
      DecimalValue(t[..|t| - 1]) * 10 + (t[|t| - 1] - 0x30)
  }

  lemma {:induction false} DecimalRoundTrip(n: nat)
    ensures AreDigits(Decimal(n)) && DecimalValue(Decimal(n)) == n
  {
    if n < 10 {
      assert Decimal(n)[..0] == [];
    } else {
      DecimalRoundTrip(n / 10);
      assert Decimal(n)[..|Decimal(n)| - 1] == Decimal(n / 10);
    }
  }

  lemma {:induction false} DigitRunOfDigits(t: Text)
    requires forall i :: 0 <= i < |t| ==> IsDigit(t[i])
    ensures DigitRun(t) == |t|
  {
    if t != [] {
      DigitRunOfDigits(t[1..]);
    }
  }

  lemma {:induction false} DecimalIsNumber(n: nat)
    ensures NumberEnd(Decimal(n)) == |Decimal(n)|
  {
    var t := Decimal(n);
    assert IsDigit(t[0]);
    assert t[0..] == t;
    DigitRunOfDigits(t);
    assert |t| > 1 ==> n >= 10;
  }

  // ---------------------------------------------------------------- writing

  function Members(m: Metadata): seq<Member>
    requires IsPlain(m)
  {
    [ Member(Lit("owner_id"), String(m.owner)),
      Member(Lit("pid"), Number(Decimal(m.pid))),
      Member(Lit("target_handle"), ToDict(m.handle)),
      Member(Lit("started_at"), String(m.startedAt)),
      Member(Lit("lease_until"), String(m.leaseUntil)) ]
  }

  function Document(m: Metadata): Json
    requires IsPlain(m)
  {
    Object(Members(m))
  }

  /** `to_bytes`: on plain text escaping to ASCII changes nothing. */
  function ToBytes(m: Metadata): Bytes
    requires IsPlain(m)
  {
    DocumentTextIsScalar(m);
    Utf8.Encode(Print(Document(m)))
  }

  // ---------------------------------------------------------------- reading

  /** `Coerced`: an entry of another JSON type, which Python's `str` or `int` turns into something
      or refuses. */
  datatype ReadResult = Unreadable | Coerced | Read(metadata: Metadata)

  function Entry(members: seq<Member>, name: string): Option<Json> {
    var i := Position(members, Lit(name));
    if i < |members| then Some(members[i].value) else None
  }

  /** `from_bytes`. */
  function FromBytes(raw: Bytes): ReadResult {
    if |raw| > MAX_METADATA_BYTES then Unreadable
    else
      match LoadBytes(raw)
      case None => Unreadable
      case Some(v) => if v.Object? then FromMembers(v.members) else Unreadable
  }

  function FromMembers(members: seq<Member>): ReadResult {
    var handle, owner, pid := Entry(members, "target_handle"), Entry(members, "owner_id"), Entry(members, "pid");
    var startedAt, leaseUntil := Entry(members, "started_at"), Entry(members, "lease_until");
    if handle.None? || owner.None? || pid.None? || startedAt.None? || leaseUntil.None? then Unreadable
    else if FromDict(handle.value).None? then Unreadable
    else if !owner.value.String? || !startedAt.value.String? || !leaseUntil.value.String? then Coerced
    else if !(pid.value.Number? && AreDigits(pid.value.lexeme)) then Coerced
    else if owner.value.text == [] || DecimalValue(pid.value.lexeme) <= 0 then Unreadable
    else
      Read(Metadata(owner.value.text, DecimalValue(pid.value.lexeme), FromDict(handle.value).value,
                    startedAt.value.text, leaseUntil.value.text))
  }

  // ---------------------------------------------------------------- round trip

  lemma MembersAreDistinct(m: Metadata)
    requires IsPlain(m)
    ensures DistinctNames(Members(m)) && DistinctNames(ToDict(m.handle).members)
  {
    assert Lit("owner_id")[0] == 0x6F && Lit("pid")[0] == 0x70 && Lit("target_handle")[0] == 0x74;
    assert Lit("started_at")[0] == 0x73 && Lit("lease_until")[0] == 0x6C;
    assert Lit("workspace")[0] == 0x77 && Lit("parent")[0] == 0x70;
  }

  lemma HandleIsWritable(h: Handle)
    requires IsHandle(h) && DistinctNames(ToDict(h).members)
    ensures Writable(ToDict(h)) && Strict(ToDict(h))
  {
    hide Encode, DistinctNames;
    var members := ToDict(h).members;
    assert members[0].value.String? && members[1].value.String?;
    assert StrictMembers(members);
  }

  lemma DocumentIsStrict(m: Metadata)
    requires IsPlain(m)
    ensures Writable(Document(m)) && Strict(Document(m))
  {
    hide NumberEnd, Decimal, Encode, ToDict;
    DecimalIsNumber(m.pid);
    MembersAreDistinct(m);
    HandleIsWritable(m.handle);
    hide DistinctNames;
    var members := Members(m);
    assert members[2].value == ToDict(m.handle) && members[1].value == Number(Decimal(m.pid));
    assert members[0].value.String? && members[3].value.String? && members[4].value.String?;
    assert StrictMembers(members);
  }

  lemma EntriesReadBack(m: Metadata)
    requires IsPlain(m)
    ensures FromMembers(Members(m)) == if m.owner == [] || m.pid <= 0 then Unreadable else Read(m)
  {
    hide Decimal, DecimalValue, Encode, Decode, FromDict, ToDict;
    DecimalRoundTrip(m.pid);
    FromDictToDict(m.handle);
    EntryPositions(m);
  }

  lemma EntryPositions(m: Metadata)
    requires IsPlain(m)
    ensures var members := Members(m);
      && Entry(members, "owner_id") == Some(members[0].value) && Entry(members, "pid") == Some(members[1].value)
      && Entry(members, "target_handle") == Some(members[2].value)
      && Entry(members, "started_at") == Some(members[3].value)
      && Entry(members, "lease_until") == Some(members[4].value)
  {
    MembersAreDistinct(m);
    hide Decimal, ToDict, DistinctNames, Position, Lit;
    var members := Members(m);
    PositionOf(members, 0);
    PositionOf(members, 1);
    PositionOf(members, 2);
    PositionOf(members, 3);
    PositionOf(members, 4);
  }

  // ---------------------------------------------------------------- plain text only

  lemma HandleIsPlain(h: Handle)
    requires IsHandle(h)
    ensures PlainValue(ToDict(h))
  {
    EncodeShape(h.workspace);
    if h.parent.Some? {
      EncodeShape(h.parent.value);
    }
    hide Encode;
    var members := ToDict(h).members;
    assert IsPlainText(members[0].name) && IsPlainText(members[1].name);
    assert PlainValue(members[0].value) && PlainValue(members[1].value);
  }

  lemma DocumentIsPlain(m: Metadata)
    requires IsPlain(m)
    ensures PlainValue(Document(m))
  {
    HandleIsPlain(m.handle);
    hide Encode, Decimal, ToDict, IsHandle;
    var members := Members(m);
    assert forall i :: 0 <= i < 5 ==> IsPlainText(members[i].name);
    assert PlainValue(Number(Decimal(m.pid)));
    hide IsPlainText, PlainValue;
    assert PlainValue(members[0].value) && PlainValue(members[3].value) && PlainValue(members[4].value) by {
      StringIsPlain(m.owner);
      StringIsPlain(m.startedAt);
      StringIsPlain(m.leaseUntil);
    }
    MembersMakePlain(members);
  }

  lemma StringIsPlain(s: Text)
    requires IsPlainText(s)
    ensures PlainValue(String(s))
  {
  }

  lemma MembersMakePlain(members: seq<Member>)
    requires forall i :: 0 <= i < |members| ==> IsPlainText(members[i].name) && PlainValue(members[i].value)
    ensures PlainValue(Object(members))
  {
  }

  lemma DocumentTextIsScalar(m: Metadata)
    requires IsPlain(m)
    ensures IsScalarText(Print(Document(m)))
  {
    hide Print, Members, ValueMadeOf;
    DocumentIsPlain(m);
    PrintMadeOf(Document(m), IsPlainCharacter);
  }

  /** Complete metadata reads back as what was written, if and only if it is within the bound and
      names an owner and a process. */
  lemma MetadataReadsBack(m: Metadata)
    requires IsPlain(m)
    ensures FromBytes(ToBytes(m)) == Read(m) <==> |ToBytes(m)| <= 4096 && m.owner != [] && m.pid > 0
    ensures FromBytes(ToBytes(m)) == Read(m) || FromBytes(ToBytes(m)) == Unreadable
  {
    hide Print, IsPlain, ValueMadeOf, Writable, Strict, ParseDocument, Members, FromMembers;
    DocumentTextIsScalar(m);
    DocumentIsStrict(m);
    EntriesReadBack(m);
    var text := Print(Document(m));
    Utf8.DecodeEncode(text);
    DocumentRoundTrip(Plain, Document(m));
  }

  /** A partly written lock file names nobody: no strict prefix of the metadata can be read. */
  lemma TornMetadataUnreadable(m: Metadata, n: nat)
    requires IsPlain(m) && n < |ToBytes(m)|
    ensures FromBytes(ToBytes(m)[..n]) == Unreadable
  {
    hide Print, IsPlain, ValueMadeOf, Writable, Strict, ParseDocument, Members, FromMembers, Utf8.Decode;
    DocumentTextIsScalar(m);
    DocumentIsStrict(m);
    var text := Print(Document(m));
    var cut := Utf8.Decode(ToBytes(m)[..n]);
    Utf8.CutDecodesToStrictPrefix(text, n);
    if cut.Some? {
      StrictPrefixMalformed(Document(m), |cut.value|);
    }
  }

  // ---------------------------------------------------------------- size

  /** Metadata as the operations of the package write it: a random owner id of 32 digits, identities
      of two 64-bit words, a process id, timestamps of at most 32 characters. */
  predicate IsOwn(m: Metadata) {
    && IsPlain(m) && |m.owner| == 32 && 0 < m.pid < WORD
    && |m.handle.workspace| == 16 && (m.handle.parent.Some? ==> |m.handle.parent.value| == 16)
    && |m.startedAt| <= 32 && |m.leaseUntil| <= 32
  }

  lemma {:induction false} EncodeLength(b: Bytes)
    requires AreBytes(b)
    ensures |Encode(b)| == (|b| + 2) / 3 * 4
  {
    if |b| >= 3 {
      EncodeLength(b[3..]);
    }
  }

  function Power10(n: nat): (p: nat)
    ensures p >= 1
  {
    if n == 0 then 1 else 10 * Power10(n - 1)
  }

  lemma {:induction false} DecimalLength(n: nat, digits: nat)
    requires digits > 0 && n < Power10(digits)
    ensures |Decimal(n)| <= digits
    decreases digits
  {
    if n >= 10 {
      assert digits > 1 by { assert Power10(0) == 1 && Power10(1) == 10; }
      DecimalLength(n / 10, digits - 1);
    }
  }

  lemma TwentyDigits()
    ensures WORD < Power10(20)
  {
    assert Power10(4) == 10000;
    assert Power10(8) == 10000 * Power10(4);
    assert Power10(12) == 10000 * Power10(8);
    assert Power10(16) == 10000 * Power10(12);
    assert Power10(20) == 10000 * Power10(16);
  }

  lemma PlainWeight(s: Text)
    requires IsPlainText(s)
    ensures StringWeight(s) == 2 + 2 * |s|
  {
  }

  lemma HandleWeight(h: Handle)
    requires IsHandle(h) && |h.workspace| == 16 && (h.parent.Some? ==> |h.parent.value| == 16)
    ensures Weight(ToDict(h)) <= 200
  {
    EncodeLength(h.workspace);
    EncodeShape(h.workspace);
    if h.parent.Some? {
      EncodeLength(h.parent.value);
      EncodeShape(h.parent.value);
    }
    hide Encode;
    PlainWeight(Encode(h.workspace));
    PlainWeight(ParentText(h));
    PlainWeight(Lit("workspace"));
    PlainWeight(Lit("parent"));
    assert StringWeight(ParentText(h)) <= 50 && StringWeight(Encode(h.workspace)) == 50;
    hide StringWeight, ParentText;
    WeightOfTwo(ToDict(h).members);
  }

  lemma WeightOfTwo(members: seq<Member>)
    requires |members| == 2
    ensures MembersWeight(members) ==
      StringWeight(members[0].name) + Weight(members[0].value) + StringWeight(members[1].name) + Weight(members[1].value) + 4
  {
    hide StringWeight, Weight;
    MembersWeightStep(members, 1);
    MembersWeightStep(members, 0);
    assert members[0..] == members && members[2..] == [];
  }

  lemma OwnWeight(m: Metadata)
    requires IsOwn(m)
    ensures Weight(Document(m)) <= 1000
  {
    HandleWeight(m.handle);
    TwentyDigits();
    DecimalLength(m.pid, 20);
    PlainWeight(m.owner);
    PlainWeight(m.startedAt);
    PlainWeight(m.leaseUntil);
    NamesWeight();
    hide ToDict, Decimal, StringWeight, Power10, IsPlainText;
    WeightOfFive(Members(m));
  }

  lemma NamesWeight()
    ensures StringWeight(Lit("owner_id")) <= 18 && StringWeight(Lit("pid")) <= 8
    ensures StringWeight(Lit("target_handle")) <= 28 && StringWeight(Lit("started_at")) <= 22
    ensures StringWeight(Lit("lease_until")) <= 24
  {
    PlainWeight(Lit("owner_id"));
    PlainWeight(Lit("pid"));
    PlainWeight(Lit("target_handle"));
    PlainWeight(Lit("started_at"));
    PlainWeight(Lit("lease_until"));
  }

  lemma WeightOfFive(members: seq<Member>)
    requires |members| == 5
    ensures MembersWeight(members) ==
      StringWeight(members[0].name) + Weight(members[0].value) + StringWeight(members[1].name) + Weight(members[1].value) +
      StringWeight(members[2].name) + Weight(members[2].value) + StringWeight(members[3].name) + Weight(members[3].value) +
      StringWeight(members[4].name) + Weight(members[4].value) + 10
  {
    hide StringWeight, Weight;
    MembersWeightStep(members, 4);
    MembersWeightStep(members, 3);
    MembersWeightStep(members, 2);
    MembersWeightStep(members, 1);
    MembersWeightStep(members, 0);
    assert members[0..] == members && members[5..] == [];
  }

  /** Such metadata is well within the bound. */
  lemma OwnMetadataFits(m: Metadata)
    requires IsOwn(m)
    ensures |ToBytes(m)| <= 4096 && m.owner != []
  {
    OwnWeight(m);
    DocumentTextIsScalar(m);
    hide Document, Print, Weight;
    PrintSize(Document(m));
  }

  /** Metadata with an owner id of 5,000 characters. */
  function Oversized(): Metadata {
    Metadata(seq(5000, i => 0x61), 1, Handle([0], None), [], [])
  }

  lemma {:induction false} BodyAtLeast(s: Text)
    ensures |PrintBody(s)| >= |s|
  {
    if s != [] {
      BodyAtLeast(s[1..]);
    }
  }

  lemma OversizedIsTooLong()
    ensures IsPlain(Oversized()) && |ToBytes(Oversized())| > 4096
  {
    assert IsPlain(Oversized()) && |Oversized().owner| == 5000;
    hide Oversized, IsPlain, ToBytes;
    OwnerShorter(Oversized());
  }

  lemma OwnerShorter(m: Metadata)
    requires IsPlain(m)
    ensures |ToBytes(m)| >= |m.owner|
  {
    DocumentTextIsScalar(m);
    hide Decimal, ToDict, IsPlain, Print;
    var members := Members(m);
    OwnerPrinted(m.owner);
    FirstValueShorter(members);
    Utf8.SizeBounds(Print(Document(m)));
  }

  lemma OwnerPrinted(owner: Text)
    ensures |Print(String(owner))| >= |owner|
  {
    BodyAtLeast(owner);
  }

  lemma FirstValueShorter(members: seq<Member>)
    requires members != []
    ensures |Print(Object(members))| >= |Print(members[0].value)|
  {
  }
}
