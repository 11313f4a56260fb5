/** The hand-written argument parser and the record-source option. */
module CommandLine {
  import opened Text

  type Token = string

  datatype Spec = Spec(
    name: string, positional: bool, greedy: bool, required: bool, repeatable: bool, boolean: bool, default: Option<string>)

  datatype Value = Absent | One(text: string) | Many(texts: seq<string>)

  datatype UsageError =
    | UnknownCommand | ValueMissing | ArgumentMissing | OptionMissing | ArgumentUnexpected | OptionUnknown

  datatype Parsed = Help(json: bool) | Command(name: string, json: bool, args: map<string, Value>) | Usage(error: UsageError)

  datatype Subcommand = Subcommand(name: string, specs: seq<Spec>)

  function Positional(name: string, greedy: bool): Spec {
    Spec(name, true, greedy, false, false, false, None)
  }

  function HelpFlag(): Spec {
    Spec("help", false, false, false, false, true, None)
  }

  function RegisterSpecs(): seq<Spec> {
    [Positional("workspace", false),
     Spec("label", false, false, true, false, false, None),
     Spec("record_source", false, false, true, true, false, None),
     Spec("kind", false, false, false, false, false, Some("direct")),
     HelpFlag()]
  }

  function OnePath(name: string): Subcommand {
    Subcommand(name, [Positional("workspace", false), HelpFlag()])
  }

  /** `_build_parser`. */
  function Subcommands(): seq<Subcommand> {
    [Subcommand("register", RegisterSpecs()), OnePath("inspect"), OnePath("link"),
     Subcommand("rebuild", [Positional("workspace", true), HelpFlag()]),
     OnePath("unregister"), OnePath("resolve-invalid"), OnePath("recover-lock")]
  }

  function FindCommand(subs: seq<Subcommand>, name: string): Option<Subcommand> {
    if subs == [] then None else if subs[0].name == name then Some(subs[0]) else FindCommand(subs[1..], name)
  }

  predicate IsBooleanFlag(specs: seq<Spec>, name: string) {
    specs != [] && (if specs[0].name == name then specs[0].boolean else IsBooleanFlag(specs[1..], name))
  }

  predicate IsOption(token: Token) {
    |token| >= 2 && token[0] == '-' && token[1] == '-'
  }

  /** `.replace("-", "_")`. */
  function Underscored(s: string): (t: string)
    ensures |t| == |s|
  {
    seq(|s|, i requires 0 <= i < |s| => if s[i] == '-' then '_' else s[i])
  }

  function OptionName(token: Token): string
    requires IsOption(token)
  {
    Underscored(token[2..])
  }

  /** What the loop over the tokens has gathered. */
  datatype Gathered = Gathered(json: bool, help: bool, positionals: seq<string>, flags: map<string, seq<string>>)

  function AddFlag(g: Gathered, name: string, value: string): Gathered {
    g.(flags := g.flags[name := (if name in g.flags then g.flags[name] else []) + [value]])
  }

  /** The loop over the tokens: None when an option at the end has no value. */
  function Gather(specs: seq<Spec>, tokens: seq<Token>, g: Gathered): Option<Gathered>
    decreases |tokens|
  {
    if tokens == [] then Some(g)
    else if tokens[0] == "--json" then Gather(specs, tokens[1..], g.(json := true))
    else if IsOption(tokens[0]) then
      var name := OptionName(tokens[0]);
      if name == "help" || IsBooleanFlag(specs, name) then Some(g.(help := true))
      else if |tokens| < 2 then None
      else Gather(specs, tokens[2..], AddFlag(g, name, tokens[1]))
    else Gather(specs, tokens[1..], g.(positionals := g.positionals + [tokens[0]]))
  }

  /** The value of one declared argument, the positionals and the flags that are left. */
  datatype Assigned = Assigned(value: Value, positionals: seq<string>, flags: map<string, seq<string>>) | Missing(error: UsageError)

  function Assign(spec: Spec, positionals: seq<string>, flags: map<string, seq<string>>): Assigned {
    if spec.positional then
      if positionals == [] then Missing(ArgumentMissing)
      else if spec.greedy then Assigned(Many(positionals), [], flags)
      else Assigned(One(positionals[0]), positionals[1..], flags)
    else
      var values := if spec.name in flags then flags[spec.name] else [];
      if spec.required && values == [] then Missing(OptionMissing)
      else
        Assigned(if spec.repeatable then Many(values)
                 else if values != [] then One(values[0])
                 else if spec.default.Some? then One(spec.default.value)
                 else Absent,
                 positionals, flags - {spec.name})
  }

  datatype Args = Args(args: map<string, Value>) | BadArgs(error: UsageError)

  /** The loop over the declared arguments and the check that nothing is left. */
  function AssignAll(specs: seq<Spec>, positionals: seq<string>, flags: map<string, seq<string>>, args: map<string, Value>): Args {
    if specs == [] then
      if positionals != [] then BadArgs(ArgumentUnexpected)
      else if |flags| != 0 then BadArgs(OptionUnknown)
      else Args(args)
    else
      match Assign(specs[0], positionals, flags)
      case Missing(error) => BadArgs(error)
      case Assigned(value, p, f) => AssignAll(specs[1..], p, f, args[specs[0].name := value])
  }

  /** The leading `--json` tokens. */
  function SkipJson(argv: seq<Token>): (n: nat)
    ensures n <= |argv|
  {
    if argv != [] && argv[0] == "--json" then 1 + SkipJson(argv[1..]) else 0
  }

  function ParseCommand(sub: Subcommand, json: bool, tokens: seq<Token>): Parsed {
    match Gather(sub.specs, tokens, Gathered(json, false, [], map[]))
    case None => Usage(ValueMissing)
    case Some(g) =>
      if g.help then Help(g.json)
      else
        match AssignAll(sub.specs, g.positionals, g.flags, map[])
        case BadArgs(error) => Usage(error)
        case Args(args) => Command(sub.name, g.json, args)
  }

  /** `parse`. */
  function ParseArgs(argv: seq<Token>): Parsed {
    var n := SkipJson(argv);
    if n == |argv| then Help(n > 0)
    else if argv[n] == "--help" || argv[n] == "help" then Help(n > 0)
    else
      match FindCommand(Subcommands(), argv[n])
      case None => Usage(UnknownCommand)
      case Some(sub) => ParseCommand(sub, n > 0, argv[n + 1..])
  }

  /** The parser as written: loops over the tokens and over the declared arguments. */
  method Parse(argv: seq<Token>) returns (parsed: Parsed)
    ensures parsed == ParseArgs(argv)
  {
    var index := 0;
    while index < |argv| && argv[index] == "--json"
      invariant index <= |argv| && SkipJson(argv) == index + SkipJson(argv[index..])
    {
      assert argv[index..][1..] == argv[index + 1..];
      index := index + 1;
    }
    if index == |argv| || argv[index] == "--help" || argv[index] == "help" {
      return Help(index > 0);
    }
    var found := FindCommand(Subcommands(), argv[index]);
    if found == None {
      return Usage(UnknownCommand);
    }
    var sub, tokens := found.value, argv[index + 1..];
    var g := Gathered(index > 0, false, [], map[]);
    ghost var first := g;
    var at := 0;
    while at < |tokens|
      invariant at <= |tokens| && !g.help
      invariant Gather(sub.specs, tokens, first) == Gather(sub.specs, tokens[at..], g)
    {
      var token := tokens[at];
      assert tokens[at..][0] == token && tokens[at..][1..] == tokens[at + 1..];
      if token == "--json" {
        g := g.(json := true);
        at := at + 1;
      } else if IsOption(token) {
        var name := OptionName(token);
        if name == "help" || IsBooleanFlag(sub.specs, name) {
          return Help(g.json);
        }
        if at + 1 >= |tokens| {
          return Usage(ValueMissing);
        }
        assert tokens[at..][1] == tokens[at + 1] && tokens[at..][2..] == tokens[at + 2..];
        g := AddFlag(g, name, tokens[at + 1]);
        at := at + 2;
      } else {
        g := g.(positionals := g.positionals + [token]);
        at := at + 1;
      }
    }
    parsed := AssignArguments(sub, g);
  }

  method AssignArguments(sub: Subcommand, g: Gathered) returns (parsed: Parsed)
    ensures parsed ==
      match AssignAll(sub.specs, g.positionals, g.flags, map[])
      case BadArgs(error) => Usage(error)
      case Args(args) => Command(sub.name, g.json, args)
  {
    var positionals, flags, args: map<string, Value> := g.positionals, g.flags, map[];
    for i := 0 to |sub.specs|
      invariant AssignAll(sub.specs, g.positionals, g.flags, map[]) == AssignAll(sub.specs[i..], positionals, flags, args)
    {
      assert sub.specs[i..][0] == sub.specs[i] && sub.specs[i..][1..] == sub.specs[i + 1..];
      match Assign(sub.specs[i], positionals, flags)
      case Missing(error) =>
        return Usage(error);
      case Assigned(value, p, f) =>
        positionals, flags, args := p, f, args[sub.specs[i].name := value];
    }
    if positionals != [] {
      return Usage(ArgumentUnexpected);
    }
    if |flags| != 0 {
      return Usage(OptionUnknown);
    }
    parsed := Command(sub.name, g.json, args);
  }

  // ---------------------------------------------------------------- record sources

  datatype Source = Source(kind: string, uri: string)

  datatype Sources = Sources(sources: seq<Source>) | BadSources

  predicate IsBlank(c: char) {
    c == ' ' || '\t' <= c <= '\r' || 0x1C <= c as int <= 0x1F || c as int == 0x85 || c as int == 0xA0
    || c as int == 0x1680 || 0x2000 <= c as int <= 0x200A || 0x2028 <= c as int <= 0x2029
    || c as int == 0x202F || c as int == 0x205F || c as int == 0x3000
  }

  /** `.strip()` leaves nothing. */
  predicate AllBlank(s: string) {
    forall i :: 0 <= i < |s| ==> IsBlank(s[i])
  }

  /** Where the first equals sign is; the length when there is none. */
  function EqualsAt(s: string): (n: nat)
    ensures n <= |s| && (n < |s| ==> s[n] == '=')
    ensures forall i :: 0 <= i < n ==> s[i] != '='
  {
    if s == "" || s[0] == '=' then 0 else 1 + EqualsAt(s[1..])
  }

  function ParseSource(item: string): Option<Source> {
    var n := EqualsAt(item);
    if n == |item| || AllBlank(item[..n]) || AllBlank(item[n + 1..]) then None
    else Some(Source(item[..n], item[n + 1..]))
  }

  function ParseEach(raw: seq<string>): Option<seq<Source>> {
    if raw == [] then Some([])
    else
      match ParseEach(raw[..|raw| - 1])
      case None => None
      case Some(before) =>
        match ParseSource(raw[|raw| - 1])
        case None => None
        case Some(source) => Some(before + [source])
  }

  /** `_parse_record_sources`. */
  method ParseRecordSources(raw: seq<string>) returns (r: Sources)
    ensures r == match ParseEach(raw)
                 case None => BadSources
                 case Some(sources) => if sources == [] then BadSources else Sources(sources)
  {
    var sources: seq<Source> := [];
    for i := 0 to |raw|
      invariant ParseEach(raw[..i]) == Some(sources)
    {
      assert raw[..i + 1][..i] == raw[..i];
      BadItemFails(raw, i + 1);
      var source := ParseSource(raw[i]);
      if source == None {
        return BadSources;
      }
      sources := sources + [source.value];
    }
    assert raw[..|raw|] == raw;
    r := if sources == [] then BadSources else Sources(sources);
  }

  lemma {:induction false} BadItemFails(raw: seq<string>, n: nat)
    requires n <= |raw|
    ensures ParseEach(raw[..n]).None? ==> ParseEach(raw).None?
  {
    if n == |raw| {
      assert raw[..n] == raw;
    } else {
      assert raw[..|raw| - 1][..n] == raw[..n];
      BadItemFails(raw[..|raw| - 1], n);
    }
  }
}
