/** Parsing undoes rendering: whatever the order of its options, its positional and its `--json`
    tokens, a register command parses back to itself. */
module CommandLineLaws {
  import opened Text
  import opened CommandLine

  /** An abstract register command. */
  datatype Register = Register(workspace: string, labelText: string, kind: string, json: bool, sources: seq<Source>)

  datatype Flag = LabelFlag | KindFlag | SourceFlag

  /** One piece of a rendered command line. */
  datatype Item = JsonItem | PathItem(path: string) | OptionItem(flag: Flag, value: string)

  function FlagToken(f: Flag): Token {
    match f
    case LabelFlag => "--label"
    case KindFlag => "--kind"
    case SourceFlag => "--record-source"
  }

  function FlagName(f: Flag): string {
    match f
    case LabelFlag => "label"
    case KindFlag => "kind"
    case SourceFlag => "record_source"
  }

  function Render(items: seq<Item>): seq<Token> {
    if items == [] then []
    else
      (match items[0]
       case JsonItem => ["--json"]
       case PathItem(path) => [path]
       case OptionItem(flag, value) => [FlagToken(flag), value]) + Render(items[1..])
  }

  function PathsOf(items: seq<Item>): seq<string> {
    if items == [] then []
    else (if items[0].PathItem? then [items[0].path] else []) + PathsOf(items[1..])
  }

  /** The values given to an option, in order. */
  function ValuesOf(items: seq<Item>, flag: Flag): seq<string> {
    if items == [] then []
    else
      (if items[0].OptionItem? && items[0].flag == flag then [items[0].value] else []) + ValuesOf(items[1..], flag)
  }

  predicate HasJson(items: seq<Item>) {
    items != [] && (items[0].JsonItem? || HasJson(items[1..]))
  }

  function SourceText(s: Source): string {
    s.kind + "=" + s.uri
  }

  function SourceTexts(sources: seq<Source>): (texts: seq<string>)
    ensures |texts| == |sources|
  {
    seq(|sources|, i requires 0 <= i < |sources| => SourceText(sources[i]))
  }

  /** A source that the option can express: its type has no equals sign, neither part is blank. */
  predicate IsExpressible(s: Source) {
    !AllBlank(s.kind) && !AllBlank(s.uri) && forall i :: 0 <= i < |s.kind| ==> s.kind[i] != '='
  }

  /** The items are the command's options, positional and `--json` tokens in some order, after
      `lead` tokens `--json` in front of the command; the default kind may be left unsaid. */
  predicate Interleaves(c: Register, lead: nat, items: seq<Item>) {
    && PathsOf(items) == [c.workspace] && !IsOption(c.workspace)
    && ValuesOf(items, LabelFlag) == [c.labelText]
    && (ValuesOf(items, KindFlag) == [c.kind] || (ValuesOf(items, KindFlag) == [] && c.kind == "direct"))
    && c.sources != [] && ValuesOf(items, SourceFlag) == SourceTexts(c.sources)
    && (forall i :: 0 <= i < |c.sources| ==> IsExpressible(c.sources[i]))
    && c.json == (lead > 0 || HasJson(items))
  }

  function Repeat(n: nat): (r: seq<Token>)
    ensures |r| == n
  {
    if n == 0 then [] else ["--json"] + Repeat(n - 1)
  }

  // ---------------------------------------------------------------- gathering

  lemma FlagTokens(f: Flag)
    ensures IsOption(FlagToken(f)) && FlagToken(f) != "--json" && OptionName(FlagToken(f)) == FlagName(f)
    ensures FlagName(f) != "help" && !IsBooleanFlag(RegisterSpecs(), FlagName(f))
  {
    FlagSpelled(f);
    assert FlagName(f)[0] != 'h' && "help"[0] == 'h';
    hide FlagName, FlagToken;
    NoBooleanBut(RegisterSpecs(), FlagName(f));
  }

  lemma FlagSpelled(f: Flag)
    ensures IsOption(FlagToken(f)) && FlagToken(f) != "--json" && OptionName(FlagToken(f)) == FlagName(f)
  {
    var t := FlagToken(f);
    assert t[2..] == match f case LabelFlag => "label" case KindFlag => "kind" case SourceFlag => "record-source";
    assert t[2] != 'j' && "--json"[2] == 'j';
  }

  lemma {:induction false} NoBooleanBut(specs: seq<Spec>, name: string)
    requires name != "help" && forall i :: 0 <= i < |specs| ==> (specs[i].boolean ==> specs[i].name == "help")
    ensures !IsBooleanFlag(specs, name)
  {
    if specs != [] {
      NoBooleanBut(specs[1..], name);
    }
  }

  function FlagsAfter(items: seq<Item>, flags: map<string, seq<string>>): map<string, seq<string>> {
    if items == [] then flags else FlagsAfter(items[1..], NextFlags(items[0], flags))
  }

  /** What one item adds. */
  function After(item: Item, g: Gathered): Gathered {
    match item
    case JsonItem => g.(json := true)
    case PathItem(path) => g.(positionals := g.positionals + [path])
    case OptionItem(flag, value) => AddFlag(g, FlagName(flag), value)
  }

  lemma GatherOne(items: seq<Item>, g: Gathered)
    requires items != [] && (items[0].PathItem? ==> !IsOption(items[0].path))
    ensures Gather(RegisterSpecs(), Render(items), g) == Gather(RegisterSpecs(), Render(items[1..]), After(items[0], g))
  {
    var tokens, rest := Render(items), items[1..];
    assert IsOption("--json");
    match items[0]
    case JsonItem =>
      assert tokens[0] == "--json" && tokens[1..] == Render(rest);
    case PathItem(path) =>
      assert tokens[0] == path && tokens[1..] == Render(rest);
    case OptionItem(flag, value) =>
      FlagTokens(flag);
      hide FlagToken, FlagName, RegisterSpecs;
      assert tokens[0] == FlagToken(flag) && tokens[1] == value && tokens[2..] == Render(rest);
  }

  /** The loop over the tokens gathers exactly what the items say. */
  lemma {:induction false} GatherRendered(items: seq<Item>, g: Gathered)
    requires !g.help && forall i :: 0 <= i < |items| && items[i].PathItem? ==> !IsOption(items[i].path)
    ensures Gather(RegisterSpecs(), Render(items), g)
         == Some(Gathered(g.json || HasJson(items), false, g.positionals + PathsOf(items), FlagsAfter(items, g.flags)))
  {
    hide RegisterSpecs, FlagName, AddFlag;
    if items == [] {
      assert g.positionals + PathsOf(items) == g.positionals;
    } else {
      GatherOne(items, g);
      OneMore(items, g);
      hide Gather, Render, After, PathsOf, HasJson, FlagsAfter;
      GatherRendered(items[1..], After(items[0], g));
    }
  }

  lemma OneMore(items: seq<Item>, g: Gathered)
    requires items != []
    ensures var a := After(items[0], g);
      && a.help == g.help
      && (a.json || HasJson(items[1..]) <==> g.json || HasJson(items))
      && a.positionals + PathsOf(items[1..]) == g.positionals + PathsOf(items)
      && FlagsAfter(items[1..], a.flags) == FlagsAfter(items, g.flags)
  {
    FlagsOfOne(items, g);
    PathsOfOne(items, g);
    hide FlagName, AddFlag, FlagsAfter, PathsOf;
  }

  lemma FlagsOfOne(items: seq<Item>, g: Gathered)
    requires items != []
    ensures FlagsAfter(items[1..], After(items[0], g).flags) == FlagsAfter(items, g.flags)
  {
    hide FlagName;
    assert After(items[0], g).flags == NextFlags(items[0], g.flags);
  }

  lemma PathsOfOne(items: seq<Item>, g: Gathered)
    requires items != []
    ensures After(items[0], g).positionals + PathsOf(items[1..]) == g.positionals + PathsOf(items)
  {
    var first := if items[0].PathItem? then [items[0].path] else [];
    var rest := PathsOf(items[1..]);
    FirstPath(items[0], g);
    assert PathsOf(items) == first + rest;
    hide PathsOf, After;
    Associative(g.positionals, first, rest);
  }

  lemma FirstPath(item: Item, g: Gathered)
    ensures After(item, g).positionals == g.positionals + (if item.PathItem? then [item.path] else [])
  {
  }

  lemma Associative(a: seq<string>, b: seq<string>, c: seq<string>)
    ensures a + b + c == a + (b + c)
  {
  }

  function Prior(flags: map<string, seq<string>>, name: string): seq<string> {
    if name in flags then flags[name] else []
  }

  /** The flags after the first item. */
  function NextFlags(item: Item, flags: map<string, seq<string>>): map<string, seq<string>> {
    if item.OptionItem? then AddFlag(Gathered(false, false, [], flags), FlagName(item.flag), item.value).flags else flags
  }

  function Given(item: Item, flag: Flag): seq<string> {
    if item.OptionItem? && item.flag == flag then [item.value] else []
  }

  lemma {:induction false} FlagsHold(items: seq<Item>, flags: map<string, seq<string>>, flag: Flag)
    ensures Prior(FlagsAfter(items, flags), FlagName(flag)) == Prior(flags, FlagName(flag)) + ValuesOf(items, flag)
    ensures FlagName(flag) in FlagsAfter(items, flags) <==> FlagName(flag) in flags || ValuesOf(items, flag) != []
  {
    hide FlagName, AddFlag, Prior, NextFlags, Given;
    if items != [] {
      var next := NextFlags(items[0], flags);
      FirstItem(items, flags, flag);
      hide FlagsAfter, ValuesOf;
      FlagsHold(items[1..], next, flag);
      FlagAdded(flags, items[0], flag);
      assert Prior(flags, FlagName(flag)) + Given(items[0], flag) + ValuesOf(items[1..], flag)
          == Prior(flags, FlagName(flag)) + (Given(items[0], flag) + ValuesOf(items[1..], flag));
    }
  }

  lemma FirstItem(items: seq<Item>, flags: map<string, seq<string>>, flag: Flag)
    requires items != []
    ensures FlagsAfter(items, flags) == FlagsAfter(items[1..], NextFlags(items[0], flags))
    ensures ValuesOf(items, flag) == Given(items[0], flag) + ValuesOf(items[1..], flag)
  {
  }

  lemma FlagAdded(flags: map<string, seq<string>>, item: Item, flag: Flag)
    ensures var next := NextFlags(item, flags);
      && Prior(next, FlagName(flag)) == Prior(flags, FlagName(flag)) + Given(item, flag)
      && (FlagName(flag) in next <==> FlagName(flag) in flags || Given(item, flag) != [])
  {
    NamesDiffer();
    hide FlagName;
  }

  lemma NamesDiffer()
    ensures forall f, g: Flag :: FlagName(f) == FlagName(g) ==> f == g
  {
    assert FlagName(LabelFlag)[0] == 'l' && FlagName(KindFlag)[0] == 'k' && FlagName(SourceFlag)[0] == 'r';
  }

  lemma {:induction false} OnlyFlags(items: seq<Item>, flags: map<string, seq<string>>, name: string)
    requires name in FlagsAfter(items, flags)
    ensures name in flags || name == "label" || name == "kind" || name == "record_source"
  {
    if items != [] {
      OnlyFlags(items[1..], NextFlags(items[0], flags), name);
    }
  }

  // ---------------------------------------------------------------- assigning

  /** What a register command is parsed to. */
  function ArgsOf(c: Register): map<string, Value> {
    map["workspace" := One(c.workspace), "label" := One(c.labelText),
        "record_source" := Many(SourceTexts(c.sources)), "kind" := One(c.kind), "help" := Absent]
  }

  lemma AssignRegister(c: Register, lead: nat, items: seq<Item>)
    requires Interleaves(c, lead, items)
    ensures AssignAll(RegisterSpecs(), [c.workspace], FlagsAfter(items, map[]), map[]) == Args(ArgsOf(c))
  {
    hide SourceTexts, IsExpressible, HasJson, PathsOf;
    var flags := FlagsAfter(items, map[]);
    FlagsHold(items, map[], LabelFlag);
    FlagsHold(items, map[], KindFlag);
    FlagsHold(items, map[], SourceFlag);
    forall name | name in flags ensures name == "label" || name == "kind" || name == "record_source" {
      OnlyFlags(items, map[], name);
    }
    Names();
    assert "help" !in flags;
    assert flags - {"label"} - {"record_source"} - {"kind"} - {"help"} == map[];
    hide FlagsAfter, ValuesOf, Interleaves;
    AssignInOrder(c, flags);
  }

  /** The flags an `Interleaves` command line leaves behind. */
  predicate FlagsOf(c: Register, flags: map<string, seq<string>>) {
    && Prior(flags, "label") == [c.labelText] && c.sources != []
    && Prior(flags, "record_source") == SourceTexts(c.sources)
    && (Prior(flags, "kind") == [c.kind] || (Prior(flags, "kind") == [] && c.kind == "direct"))
    && "help" !in flags && flags - {"label"} - {"record_source"} - {"kind"} - {"help"} == map[]
  }

  lemma AssignEach(c: Register, flags: map<string, seq<string>>)
    requires FlagsOf(c, flags)
    ensures var specs, one := RegisterSpecs(), flags - {"label"};
      var two := one - {"record_source"};
      var three := two - {"kind"};
      && Assign(specs[0], [c.workspace], flags) == Assigned(One(c.workspace), [], flags)
      && Assign(specs[1], [], flags) == Assigned(One(c.labelText), [], one)
      && Assign(specs[2], [], one) == Assigned(Many(SourceTexts(c.sources)), [], two)
      && Assign(specs[3], [], two) == Assigned(One(c.kind), [], three)
      && Assign(specs[4], [], three) == Assigned(Absent, [], map[])
  {
    Names();
    hide SourceTexts;
    var one := flags - {"label"};
    var two := one - {"record_source"};
    assert [c.workspace][1..] == [];
    assert Prior(one, "record_source") == SourceTexts(c.sources);
    assert Prior(two, "kind") == Prior(flags, "kind");
  }

  lemma AssignInOrder(c: Register, flags: map<string, seq<string>>)
    requires FlagsOf(c, flags)
    ensures AssignAll(RegisterSpecs(), [c.workspace], flags, map[]) == Args(ArgsOf(c))
  {
    hide Assign, SourceTexts, FlagsOf;
    AssignEach(c, flags);
    var specs, one := RegisterSpecs(), flags - {"label"};
    var two := one - {"record_source"};
    var zeroth: map<string, Value> := map["workspace" := One(c.workspace)];
    var first := zeroth["label" := One(c.labelText)];
    var second := first["record_source" := Many(SourceTexts(c.sources))];
    AssignNext(specs, 0, [c.workspace], flags, map[]);
    AssignNext(specs, 1, [], flags, zeroth);
    AssignNext(specs, 2, [], one, first);
    AssignNext(specs, 3, [], two, second);
    AssignNext(specs, 4, [], two - {"kind"}, second["kind" := One(c.kind)]);
    assert specs[0..] == specs && specs[5..] == [];
  }

  lemma AssignNext(specs: seq<Spec>, k: nat, positionals: seq<string>, flags: map<string, seq<string>>, args: map<string, Value>)
    requires k < |specs| && Assign(specs[k], positionals, flags).Assigned?
    ensures var a := Assign(specs[k], positionals, flags);
      AssignAll(specs[k..], positionals, flags, args)
      == AssignAll(specs[k + 1..], a.positionals, a.flags, args[specs[k].name := a.value])
  {
    assert specs[k..][0] == specs[k] && specs[k..][1..] == specs[k + 1..];
  }

  lemma Names()
    ensures "label" != "record_source" && "label" != "kind" && "label" != "help" && "record_source" != "kind"
    ensures "record_source" != "help" && "kind" != "help"
  {
    assert "label"[0] == 'l' && "record_source"[0] == 'r' && "kind"[0] == 'k' && "help"[0] == 'h';
  }

  // ---------------------------------------------------------------- record sources

  lemma SourceRoundTrip(s: Source)
    requires IsExpressible(s)
    ensures ParseSource(SourceText(s)) == Some(s)
  {
    var t := SourceText(s);
    assert t[|s.kind|] == '=';
    assert forall i :: 0 <= i < |s.kind| ==> t[i] != '=';
    assert EqualsAt(t) == |s.kind|;
    assert t[..|s.kind|] == s.kind && t[|s.kind| + 1..] == s.uri;
  }

  lemma {:induction false} SourcesRoundTrip(sources: seq<Source>)
    requires forall i :: 0 <= i < |sources| ==> IsExpressible(sources[i])
    ensures ParseEach(SourceTexts(sources)) == Some(sources)
  {
    if sources != [] {
      var k := |sources| - 1;
      SourcesRoundTrip(sources[..k]);
      assert SourceTexts(sources)[..k] == SourceTexts(sources[..k]);
      SourceRoundTrip(sources[k]);
      assert sources[..k] + [sources[k]] == sources;
    }
  }

  // ---------------------------------------------------------------- the round trip

  lemma {:induction false} LeadingJson(lead: nat, command: Token, tokens: seq<Token>)
    requires command != "--json"
    ensures SkipJson(Repeat(lead) + [command] + tokens) == lead
    ensures (Repeat(lead) + [command] + tokens)[lead] == command
    ensures (Repeat(lead) + [command] + tokens)[lead + 1..] == tokens
  {
    if lead > 0 {
      LeadingJson(lead - 1, command, tokens);
      assert (Repeat(lead) + [command] + tokens)[1..] == Repeat(lead - 1) + [command] + tokens;
    }
  }

  lemma PathsAreNoOptions(items: seq<Item>, path: string)
    requires PathsOf(items) == [path] || PathsOf(items) == []
    ensures forall i :: 0 <= i < |items| && items[i].PathItem? ==> items[i].path == path
  {
    if items != [] {
      var paths := PathsOf(items);
      assert if items[0].PathItem? then paths[0] == items[0].path && paths[1..] == PathsOf(items[1..])
             else paths == PathsOf(items[1..]);
      PathsAreNoOptions(items[1..], path);
      assert forall i :: 0 < i < |items| ==> items[i] == items[1..][i - 1];
    }
  }

  /** Argument parsing undoes rendering, for every order of the pieces. */
  lemma ParseUndoesRender(c: Register, lead: nat, items: seq<Item>)
    requires Interleaves(c, lead, items)
    ensures ParseArgs(Repeat(lead) + ["register"] + Render(items)) == Command("register", c.json, ArgsOf(c))
    ensures ParseEach(ArgsOf(c)["record_source"].texts) == Some(c.sources)
  {
    SourcesRoundTrip(c.sources);
    CommandParsed(c, lead, items);
    hide ParseCommand, RegisterSpecs, Interleaves, ArgsOf, Render, Repeat, SkipJson;
    assert "register"[0] == 'r' && "--json"[0] == '-' && "--help"[0] == '-' && "help"[0] == 'h';
    LeadingJson(lead, "register", Render(items));
    RegisterFound();
  }

  lemma RegisterFound()
    ensures FindCommand(Subcommands(), "register") == Some(Subcommand("register", RegisterSpecs()))
  {
  }

  lemma CommandParsed(c: Register, lead: nat, items: seq<Item>)
    requires Interleaves(c, lead, items)
    ensures ParseCommand(Subcommand("register", RegisterSpecs()), lead > 0, Render(items))
         == Command("register", c.json, ArgsOf(c))
  {
    PathsAreNoOptions(items, c.workspace);
    GatherRendered(items, Gathered(lead > 0, false, [], map[]));
    assert [] + PathsOf(items) == [c.workspace];
    AssignRegister(c, lead, items);
    hide Gather, AssignAll, Render, FlagsAfter, RegisterSpecs, ArgsOf;
  }
}
