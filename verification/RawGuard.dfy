/** The raw-input guard: what a marker must satisfy before any schema is consulted. */
module RawGuard {
  import opened Text
  import opened Json
  import Utf8

  const MAX_READ_BYTES := 262144
  const MAX_DEPTH := 8

  datatype Code =
    | ReadOverLimit | BomPrefix | DecodeError | DepthExceeded | DuplicateNames | NonFiniteConstants | ControlCharacter

  datatype Verdict = Passed | Rejected(code: Code)

  // ---------------------------------------------------------------- depth

  /** What the one-pass scan answers on the rest of the text, given its three variables:
      true when it rejects. */
  function DepthRejects(t: Text, depth: nat, inString: bool, escaped: bool): bool {
    if t == [] then false
    else if inString then
      if escaped then DepthRejects(t[1..], depth, true, false)
      else if t[0] == BACKSLASH then DepthRejects(t[1..], depth, true, true)
      else DepthRejects(t[1..], depth, t[0] != QUOTE, false)
    else if t[0] == QUOTE then DepthRejects(t[1..], depth, true, escaped)
    else if t[0] == LBRACKET || t[0] == LBRACE then
      depth + 1 > MAX_DEPTH || DepthRejects(t[1..], depth + 1, false, escaped)
    else if t[0] == RBRACKET || t[0] == RBRACE then
      DepthRejects(t[1..], if depth > 0 then depth - 1 else 0, false, escaped)
    else DepthRejects(t[1..], depth, false, escaped)
  }

  method DepthScan(text: Text) returns (verdict: Verdict)
    ensures verdict == if DepthRejects(text, 0, false, false) then Rejected(DepthExceeded) else Passed
  {
    var depth := 0;
    var inString, escaped := false, false;
    for i := 0 to |text|
      invariant depth >= 0
      invariant DepthRejects(text[i..], depth, inString, escaped) == DepthRejects(text, 0, false, false)
    {
      var c := text[i];
      assert text[i..][1..] == text[i + 1..];
      if inString {
        if escaped {
          escaped := false;
        } else if c == BACKSLASH {
          escaped := true;
        } else if c == QUOTE {
          inString := false;
        }
        continue;
      }
      if c == QUOTE {
        inString := true;
      } else if c == LBRACKET || c == LBRACE {
        depth := depth + 1;
        if depth > MAX_DEPTH {
          return Rejected(DepthExceeded);
        }
      } else if c == RBRACKET || c == RBRACE {
        if depth > 0 {
          depth := depth - 1;
        }
      }
    }
    assert text[|text|..] == [];
    return Passed;
  }

  // ---------------------------------------------------------------- controls

  /** C0, C1 and the Bidi_Control set. */
  predicate IsProhibitedControl(c: int) {
    c <= 0x1F || 0x7F <= c <= 0x9F || c == 0x200E || c == 0x200F || 0x202A <= c <= 0x202E || 0x2066 <= c <= 0x2069
  }

  predicate TextHasControl(t: Text) {
    exists i :: 0 <= i < |t| && IsProhibitedControl(t[i])
  }

  /** Some object name or string value at any depth contains a prohibited control. */
  predicate HasControl(v: Json) {
    match v
    case String(s) => TextHasControl(s)
    case Array(items) => exists i :: 0 <= i < |items| && HasControl(items[i])
    case Object(members) =>
      exists i :: 0 <= i < |members| && (TextHasControl(members[i].name) || HasControl(members[i].value))
    case _ => false
  }

  predicate AnyControl(nodes: seq<Json>) {
    exists i :: 0 <= i < |nodes| && HasControl(nodes[i])
  }

  /** The number of nodes, which is what the explicit stack works off. */
  function Nodes(v: Json): (n: nat)
    ensures n > 0
    decreases v, 1
  {
    match v
    case Array(items) => 1 + NodesOf(items)
    case Object(members) => 1 + NodesOfMembers(members)
    case _ => 1
  }

  function NodesOf(items: seq<Json>): nat
    decreases items, 0
  {
    if items == [] then 0 else NodesOf(items[..|items| - 1]) + Nodes(items[|items| - 1])
  }

  function NodesOfMembers(members: seq<Member>): nat
    decreases members, 0
  {
    if members == [] then 0 else NodesOfMembers(members[..|members| - 1]) + Nodes(members[|members| - 1].value)
  }

  lemma {:induction false} NodesConcat(a: seq<Json>, b: seq<Json>)
    ensures NodesOf(a + b) == NodesOf(a) + NodesOf(b)
  {
    hide Nodes;
    if b == [] {
      assert a + b == a;
    } else {
      var last := |a + b| - 1;
      assert (a + b)[last] == b[|b| - 1];
      assert (a + b)[..last] == a + b[..|b| - 1];
      NodesConcat(a, b[..|b| - 1]);
    }
  }

  method ControlsScan(document: Json) returns (verdict: Verdict)
    ensures verdict == if HasControl(document) then Rejected(ControlCharacter) else Passed
  {
    var stack := [document];
    assert NodesOf(stack) == Nodes(document) by { assert stack[..0] == []; }
    while stack != []
      invariant AnyControl(stack) == HasControl(document)
      decreases NodesOf(stack)
    {
      ghost var before := stack;
      var node := stack[|stack| - 1];
      stack := stack[..|stack| - 1];
      assert AnyControl(before) == (AnyControl(stack) || HasControl(node));
      assert NodesOf(before) == NodesOf(stack) + Nodes(node);
      match node
      case Object(members) =>
        var found;
        stack, found := PushMembers(stack, members);
        if found {
          return Rejected(ControlCharacter);
        }
      case Array(items) =>
        NodesConcat(stack, items);
        AnyConcat(stack, items);
        stack := stack + items;
      case String(s) =>
        if TextHasControl(s) {
          return Rejected(ControlCharacter);
        }
      case _ =>
    }
    return Passed;
  }

  lemma AnyConcat(a: seq<Json>, b: seq<Json>)
    ensures AnyControl(a + b) == (AnyControl(a) || AnyControl(b))
  {
    assert forall i :: 0 <= i < |a| ==> a[i] == (a + b)[i];
    assert forall i :: 0 <= i < |b| ==> b[i] == (a + b)[|a| + i];
  }

  /** The scan of one object: stop at a name with a control, push every value otherwise. */
  method PushMembers(base: seq<Json>, members: seq<Member>) returns (stack: seq<Json>, found: bool)
    ensures found ==> HasControl(Object(members))
    ensures !found ==> AnyControl(stack) == (AnyControl(base) || HasControl(Object(members)))
    ensures !found ==> NodesOf(stack) < NodesOf(base) + Nodes(Object(members))
  {
    stack := base;
    for i := 0 to |members|
      invariant forall j :: 0 <= j < i ==> !TextHasControl(members[j].name)
      invariant AnyControl(stack) == (AnyControl(base) || exists j :: 0 <= j < i && HasControl(members[j].value))
      invariant NodesOf(stack) == NodesOf(base) + NodesOfMembers(members[..i])
    {
      if TextHasControl(members[i].name) {
        return stack, true;
      }
      assert members[..i + 1][..i] == members[..i];
      NodesConcat(stack, [members[i].value]);
      assert NodesOf([members[i].value]) == Nodes(members[i].value) by {
        assert [members[i].value][..0] == [];
      }
      AnyConcat(stack, [members[i].value]);
      assert AnyControl([members[i].value]) == HasControl(members[i].value);
      stack := stack + [members[i].value];
    }
    assert members[..|members|] == members;
    return stack, false;
  }

  // ---------------------------------------------------------------- the pipeline

  /** Steps 3 to 6, over decoded text. Text that is no JSON document is left to the reader,
      and so is the document `null`: both go through the scan of the raw text instead. */
  function GuardText(text: Text): Verdict {
    if DepthRejects(text, 0, false, false) then Rejected(DepthExceeded)
    else
      match ParseDocument(Hooked, text)
      case Err(DuplicateName) => Rejected(DuplicateNames)
      case Err(NonFiniteConstant) => Rejected(NonFiniteConstants)
      case Err(Malformed) => if TextHasControl(text) then Rejected(ControlCharacter) else Passed
      case Ok(Null, _) => if TextHasControl(text) then Rejected(ControlCharacter) else Passed
      case Ok(document, _) => if HasControl(document) then Rejected(ControlCharacter) else Passed
  }

  predicate HasBom(raw: Bytes) {
    || StartsWith(raw, [0xEF, 0xBB, 0xBF])
    || StartsWith(raw, [0xFF, 0xFE, 0, 0]) || StartsWith(raw, [0, 0, 0xFE, 0xFF])
    || StartsWith(raw, [0xFF, 0xFE]) || StartsWith(raw, [0xFE, 0xFF])
  }

  /** The whole pipeline, over raw bytes. */
  function Guard(raw: Bytes): Verdict {
    if |raw| > MAX_READ_BYTES then Rejected(ReadOverLimit)
    else if HasBom(raw) then Rejected(BomPrefix)
    else
      match Utf8.Decode(raw)
      case None => Rejected(DecodeError)
      case Some(text) => GuardText(text)
  }
}
