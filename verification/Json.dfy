/** JSON (RFC 8259) as Python's `json` module reads and writes it: the compact printer
    `json.dumps(v, separators=(",", ":"), ensure_ascii=False)` and the parser `json.loads`,
    with and without the guard's hooks. */
module Json {
  import opened Text

  const QUOTE := 0x22
  const COMMA := 0x2C
  const MINUS := 0x2D
  const DOT := 0x2E
  const COLON := 0x3A
  const LBRACKET := 0x5B
  const BACKSLASH := 0x5C
  const RBRACKET := 0x5D
  const LBRACE := 0x7B
  const RBRACE := 0x7D

  /** `Number` keeps the lexeme: the integer 1 is exactly the lexeme "1". `NonFinite` is what
      Python's parser makes of the tokens NaN, Infinity and -Infinity. */
  datatype Json =
    | Null
    | Bool(b: bool)
    | Number(lexeme: Text)
    | NonFinite(token: Text)
    | String(text: Text)
    | Array(items: seq<Json>)
    | Object(members: seq<Member>)

  datatype Member = Member(name: Text, value: Json)

  // ---------------------------------------------------------------- printing

  function HexDigit(n: int): int
    requires 0 <= n < 16
  {
    if n < 10 then 0x30 + n else 0x61 + n - 10
  }

  /** One character inside a printed string. */
  function Escape(c: int): (t: Text)
    ensures 1 <= |t| <= 6
  {
    if c == QUOTE then [BACKSLASH, QUOTE]
    else if c == BACKSLASH then [BACKSLASH, BACKSLASH]
    else if c == 0x08 then [BACKSLASH, 0x62]
    else if c == 0x0C then [BACKSLASH, 0x66]
    else if c == 0x0A then [BACKSLASH, 0x6E]
    else if c == 0x0D then [BACKSLASH, 0x72]
    else if c == 0x09 then [BACKSLASH, 0x74]
    else if 0 <= c < 0x20 then [BACKSLASH, 0x75, 0x30, 0x30, HexDigit(c / 16), HexDigit(c % 16)]
    else [c]
  }

  /** The rest of a printed string, closing quote included. */
  function PrintBody(s: Text): Text {
    if s == [] then [QUOTE] else Escape(s[0]) + PrintBody(s[1..])
  }

  function PrintString(s: Text): Text {
    [QUOTE] + PrintBody(s)
  }

  function Print(v: Json): (t: Text)
    ensures v.Object? ==> t != [] && t[0] == LBRACE
    decreases v, 1
  {
    match v
    case Null => Lit("null")
    case Bool(b) => if b then Lit("true") else Lit("false")
    case Number(lexeme) => lexeme
    case NonFinite(token) => token
    case String(s) => PrintString(s)
    case Array(items) => [LBRACKET] + (if items == [] then [RBRACKET] else PrintItems(items))
    case Object(members) => [LBRACE] + (if members == [] then [RBRACE] else PrintMembers(members))
  }

  /** The elements of a non-empty array, closing bracket included. */
  function PrintItems(items: seq<Json>): Text
    requires items != []
    decreases items, 0
  {
    Print(items[0]) + (if |items| == 1 then [RBRACKET] else [COMMA] + PrintItems(items[1..]))
  }

  /** The members of a non-empty object, closing brace included. */
  function PrintMembers(members: seq<Member>): Text
    requires members != []
    decreases members, 0
  {
    PrintString(members[0].name) + [COLON] + Print(members[0].value) +
    (if |members| == 1 then [RBRACE] else [COMMA] + PrintMembers(members[1..]))
  }

  // ---------------------------------------------------------------- parsing

  /** `Malformed` is JSONDecodeError; the other two are raised by the guard's hooks. */
  datatype Failure = Malformed | DuplicateName | NonFiniteConstant

  datatype Parsed<+T> = Ok(value: T, rest: Text) | Err(failure: Failure) {
    predicate IsFailure() {
      Err?
    }

    function PropagateFailure<U>(): Parsed<U>
      requires Err?
    {
      Err(failure)
    }

    function Extract(): (T, Text)
      requires Ok?
    {
      (value, rest)
    }
  }

  /** `Grammar` keeps every member of an object; `Plain` is `json.loads(text)`, where the last
      of two equal names wins; `Hooked` is the guard's call with both hooks. */
  datatype Mode = Grammar | Plain | Hooked

  predicate IsSpace(c: int) {
    c == 0x20 || c == 0x09 || c == 0x0A || c == 0x0D
  }

  function SkipSpace(t: Text): (r: Text)
    ensures |r| <= |t|
    ensures r != [] ==> !IsSpace(r[0])
  {
    if t != [] && IsSpace(t[0]) then SkipSpace(t[1..]) else t
  }

  predicate IsDigit(c: int) {
    0x30 <= c <= 0x39
  }

  function DigitRun(t: Text): (n: nat)
    ensures n <= |t|
  {
    if t != [] && IsDigit(t[0]) then 1 + DigitRun(t[1..]) else 0
  }

  /** The end of the integer part that starts at `from`; `from` itself when there is none. */
  function IntegerEnd(t: Text, from: nat): (n: nat)
    requires from <= |t|
    ensures from <= n <= |t|
  {
    if from < |t| && t[from] == 0x30 then from + 1 else from + DigitRun(t[from..])
  }

  function FractionEnd(t: Text, from: nat): (n: nat)
    requires from <= |t|
    ensures from <= n <= |t|
  {
    if from < |t| && t[from] == DOT && DigitRun(t[from + 1..]) > 0
    then from + 1 + DigitRun(t[from + 1..])
    else from
  }

  function ExponentEnd(t: Text, from: nat): (n: nat)
    requires from <= |t|
    ensures from <= n <= |t|
  {
    if from < |t| && (t[from] == 0x45 || t[from] == 0x65) then
      var digits := if from + 1 < |t| && (t[from + 1] == 0x2B || t[from + 1] == MINUS) then from + 2 else from + 1;
      if DigitRun(t[digits..]) > 0 then digits + DigitRun(t[digits..]) else from
    else from
  }

  /** The length of the number at the start of `t`, by longest match; 0 when there is none. */
  function NumberEnd(t: Text): (n: nat)
    ensures n <= |t|
  {
    var sign := if t != [] && t[0] == MINUS then 1 else 0;
    var integer := IntegerEnd(t, sign);
    if integer == sign then 0 else ExponentEnd(t, FractionEnd(t, integer))
  }

  function HexValue(c: int): (n: int)
    ensures -1 <= n < 16
  {
    if IsDigit(c) then c - 0x30
    else if 0x61 <= c <= 0x66 then c - 0x61 + 10
    else if 0x41 <= c <= 0x46 then c - 0x41 + 10
    else -1
  }

  /** The code unit written by the four hexadecimal digits at the start of `t`, or -1. */
  function CodeUnit(t: Text): (n: int)
    ensures n >= 0 ==> |t| >= 4
  {
    if |t| < 4 || HexValue(t[0]) < 0 || HexValue(t[1]) < 0 || HexValue(t[2]) < 0 || HexValue(t[3]) < 0 then -1
    else HexValue(t[0]) * 4096 + HexValue(t[1]) * 256 + HexValue(t[2]) * 16 + HexValue(t[3])
  }

  /** The character written by the escape whose backslash precedes `t`, and how many
      characters of `t` it takes (0 when the escape is invalid). A high and a low surrogate
      escape next to each other make one character. */
  function Unescape(t: Text): (r: (int, nat))
    ensures r.1 <= |t|
  {
    if t == [] then (0, 0)
    else if t[0] == QUOTE || t[0] == BACKSLASH || t[0] == 0x2F then (t[0], 1)
    else if t[0] == 0x62 then (0x08, 1)
    else if t[0] == 0x66 then (0x0C, 1)
    else if t[0] == 0x6E then (0x0A, 1)
    else if t[0] == 0x72 then (0x0D, 1)
    else if t[0] == 0x74 then (0x09, 1)
    else if t[0] != 0x75 || CodeUnit(t[1..]) < 0 then (0, 0)
    else
      var high := CodeUnit(t[1..]);
      if 0xD800 <= high <= 0xDBFF && |t| > 6 && t[5] == BACKSLASH && t[6] == 0x75 then
        var low := CodeUnit(t[7..]);
        if low < 0 then (0, 0)
        else if 0xDC00 <= low <= 0xDFFF then (0x10000 + (high - 0xD800) * 1024 + (low - 0xDC00), 11)
        else (high, 5)
      else (high, 5)
  }

  /** The string whose opening quote precedes `t`. Control characters must be escaped. */
  function ParseString(t: Text): (r: Parsed<Text>)
    ensures r.Ok? ==> |r.rest| < |t|
    ensures r.Err? ==> r.failure == Malformed
    decreases |t|
  {
    if t == [] || 0 <= t[0] < 0x20 then Err(Malformed)
    else if t[0] == QUOTE then Ok([], t[1..])
    else if t[0] == BACKSLASH then
      var (c, n) := Unescape(t[1..]);
      if n == 0 then Err(Malformed)
      else
        var (more, rest) :- ParseString(t[1 + n..]);
        Ok([c] + more, rest)
    else
      var (more, rest) :- ParseString(t[1..]);
      Ok([t[0]] + more, rest)
  }

  /** Where `name` first occurs among the members; their number when it does not. */
  function Position(members: seq<Member>, name: Text): (i: nat)
    ensures i <= |members|
    ensures i < |members| ==> members[i].name == name
    ensures forall j :: 0 <= j < i ==> members[j].name != name
  {
    if members == [] || members[0].name == name then 0 else 1 + Position(members[1..], name)
  }

  predicate DistinctNames(members: seq<Member>) {
    forall i, j :: 0 <= i < j < |members| ==> members[i].name != members[j].name
  }

  /** `dict(pairs)`: the first occurrence keeps its place, the last one gives the value. */
  function DictOf(members: seq<Member>): (d: seq<Member>)
    ensures DistinctNames(members) ==> d == members
  {
    if members == [] then []
    else
      var before := DictOf(members[..|members| - 1]);
      var last := members[|members| - 1];
      var i := Position(before, last.name);
      if i < |before| then before[i := last] else before + [last]
  }

  function MakeObject(mode: Mode, members: seq<Member>, rest: Text): (r: Parsed<Json>) {
    match mode
    case Grammar => Ok(Object(members), rest)
    case Plain => Ok(Object(DictOf(members)), rest)
    case Hooked => if DistinctNames(members) then Ok(Object(members), rest) else Err(DuplicateName)
  }

  /** The length of the fixed word at the start of `t`; 0 when there is none. */
  function WordEnd(t: Text): (n: nat)
    ensures n <= |t|
  {
    if StartsWith(t, Lit("null")) || StartsWith(t, Lit("true")) then 4
    else if StartsWith(t, Lit("false")) then 5
    else if StartsWith(t, Lit("NaN")) then 3
    else if StartsWith(t, Lit("Infinity")) then 8
    else if StartsWith(t, Lit("-Infinity")) then 9
    else 0
  }

  /** What a fixed word stands for. */
  function WordValue(mode: Mode, word: Text, rest: Text): (r: Parsed<Json>)
    requires word != []
    ensures r.Ok? ==> r.rest == rest
  {
    if word[0] == 0x6E then Ok(Null, rest)
    else if word[0] == 0x74 || word[0] == 0x66 then Ok(Bool(word[0] == 0x74), rest)
    else if mode == Hooked then Err(NonFiniteConstant)
    else Ok(NonFinite(word), rest)
  }

  /** A value that is one of the fixed words or a number. */
  function ParseScalar(mode: Mode, t: Text): (r: Parsed<Json>)
    ensures r.Ok? ==> |r.rest| < |t|
  {
    var word := WordEnd(t);
    var number := NumberEnd(t);
    if word > 0 then WordValue(mode, t[..word], t[word..])
    else if number > 0 then Ok(Number(t[..number]), t[number..])
    else Err(Malformed)
  }

  function ParseValue(mode: Mode, t: Text): (r: Parsed<Json>)
    ensures r.Ok? ==> |r.rest| < |t|
    decreases |t|, 0
  {
    if t == [] then Err(Malformed)
    else if t[0] == QUOTE then
      var (s, rest) :- ParseString(t[1..]);
      Ok(String(s), rest)
    else if t[0] == LBRACKET then
      var first := SkipSpace(t[1..]);
      if first != [] && first[0] == RBRACKET then Ok(Array([]), first[1..])
      else
        var (items, rest) :- ParseItems(mode, first);
        Ok(Array(items), rest)
    else if t[0] == LBRACE then
      var first := SkipSpace(t[1..]);
      if first != [] && first[0] == RBRACE then MakeObject(mode, [], first[1..])
      else
        var (members, rest) :- ParseMembers(mode, first);
        MakeObject(mode, members, rest)
    else ParseScalar(mode, t)
  }

  /** The elements of an array from the first one on, up to the closing bracket. */
  function ParseItems(mode: Mode, t: Text): (r: Parsed<seq<Json>>)
    ensures r.Ok? ==> |r.rest| < |t| && r.value != []
    decreases |t|, 1
  {
    var (v, after) :- ParseValue(mode, t);
    var next := SkipSpace(after);
    if next != [] && next[0] == RBRACKET then Ok([v], next[1..])
    else if next != [] && next[0] == COMMA then
      var (more, rest) :- ParseItems(mode, SkipSpace(next[1..]));
      Ok([v] + more, rest)
    else Err(Malformed)
  }

  /** A member: its name, a colon and its value. */
  function ParseMember(mode: Mode, t: Text): (r: Parsed<Member>)
    ensures r.Ok? ==> |r.rest| < |t|
    decreases |t|, 1
  {
    if t == [] || t[0] != QUOTE then Err(Malformed)
    else
      var (name, after) :- ParseString(t[1..]);
      var colon := SkipSpace(after);
      if colon == [] || colon[0] != COLON then Err(Malformed)
      else
        var (v, rest) :- ParseValue(mode, SkipSpace(colon[1..]));
        Ok(Member(name, v), rest)
  }

  /** The members of an object from the first one on, up to the closing brace. */
  function ParseMembers(mode: Mode, t: Text): (r: Parsed<seq<Member>>)
    ensures r.Ok? ==> |r.rest| < |t| && r.value != []
    decreases |t|, 2
  {
    var (m, after) :- ParseMember(mode, t);
    var next := SkipSpace(after);
    if next != [] && next[0] == RBRACE then Ok([m], next[1..])
    else if next != [] && next[0] == COMMA then
      var (more, rest) :- ParseMembers(mode, SkipSpace(next[1..]));
      Ok([m] + more, rest)
    else Err(Malformed)
  }

  /** `json.loads(text)`: one value, white space around it, nothing else. */
  function ParseDocument(mode: Mode, t: Text): (r: Parsed<Json>) {
    var (v, after) :- ParseValue(mode, SkipSpace(t));
    if SkipSpace(after) == [] then Ok(v, []) else Err(Malformed)
  }
}
