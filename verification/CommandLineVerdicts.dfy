/** What every command line is parsed to: each is spelled by pieces, a help flag or an option without
    its value at most behind them, and the pieces decide between a command and each usage error. */
module CommandLineVerdicts {
  import opened Text
  import opened CommandLine
  import opened CommandLineLaws

  // ---------------------------------------------------------------- pieces

  datatype Piece = JsonPiece | PathPiece(path: string) | OptionPiece(token: Token, value: string)

  /** An option that takes a value. */
  predicate TakesValue(token: Token) {
    "--" <= token && token != "--json" && token != "--help"
  }

  predicate IsPiece(p: Piece) {
    (p.PathPiece? ==> !("--" <= p.path)) && (p.OptionPiece? ==> TakesValue(p.token))
  }

  predicate ArePieces(pieces: seq<Piece>) {
    forall i :: 0 <= i < |pieces| ==> IsPiece(pieces[i])
  }

  function SpellOne(p: Piece): seq<Token> {
    match p
    case JsonPiece => ["--json"]
    case PathPiece(path) => [path]
    case OptionPiece(token, value) => [token, value]
  }

  function Spell(pieces: seq<Piece>): seq<Token> {
    if pieces == [] then [] else SpellOne(pieces[0]) + Spell(pieces[1..])
  }

  /** What stands behind the last whole piece: nothing, a help flag with anything after it, or an
      option at the very end. */
  predicate IsEnd(rest: seq<Token>) {
    rest == [] || rest[0] == "--help" || (|rest| == 1 && TakesValue(rest[0]))
  }

  lemma OptionExact(token: Token)
    ensures IsOption(token) <==> "--" <= token
    ensures IsOption(token) ==> (OptionName(token) == "help" <==> token == "--help")
  {
    if "--" <= token {
      assert token == "--" + token[2..];
      if OptionName(token) == "help" {
        assert forall i :: 0 <= i < 4 ==> OptionName(token)[i] == "help"[i];
        assert "help"[0] == 'h' && "help"[1] == 'e' && "help"[2] == 'l' && "help"[3] == 'p';
        assert token[2..] == "help";
      }
      if token == "--help" {
        assert token[2..] == "help";
        assert OptionName(token) == "help";
      }
    }
  }

  /** Every list of tokens is spelled so. */
  lemma {:induction false} EveryLineIsSpelled(tokens: seq<Token>) returns (pieces: seq<Piece>, rest: seq<Token>)
    ensures ArePieces(pieces) && IsEnd(rest) && tokens == Spell(pieces) + rest
  {
    hide TakesValue;
    if IsEnd(tokens) {
      pieces, rest := [], tokens;
    } else if tokens[0] == "--json" {
      pieces, rest := EveryLineIsSpelled(tokens[1..]);
      pieces := OneMorePiece(JsonPiece, pieces, tokens, rest);
    } else if TakesValue(tokens[0]) {
      pieces, rest := EveryLineIsSpelled(tokens[2..]);
      pieces := OneMorePiece(OptionPiece(tokens[0], tokens[1]), pieces, tokens, rest);
    } else {
      assert !("--" <= tokens[0]) by { NoOption(tokens[0]); }
      pieces, rest := EveryLineIsSpelled(tokens[1..]);
      pieces := OneMorePiece(PathPiece(tokens[0]), pieces, tokens, rest);
    }
  }

  lemma NoOption(token: Token)
    requires !TakesValue(token) && token != "--json" && token != "--help"
    ensures !("--" <= token)
  {
  }

  lemma OneMorePiece(p: Piece, pieces: seq<Piece>, tokens: seq<Token>, rest: seq<Token>) returns (more: seq<Piece>)
    requires IsPiece(p) && ArePieces(pieces) && tokens == SpellOne(p) + (Spell(pieces) + rest)
    ensures ArePieces(more) && tokens == Spell(more) + rest
  {
    more := [p] + pieces;
    assert Spell(more) == SpellOne(p) + Spell(pieces);
    assert forall i :: 0 < i < |more| ==> more[i] == pieces[i - 1];
  }

  // ---------------------------------------------------------------- what the pieces say

  function PathsIn(pieces: seq<Piece>): seq<string> {
    if pieces == [] then []
    else (if pieces[0].PathPiece? then [pieces[0].path] else []) + PathsIn(pieces[1..])
  }

  predicate JsonIn(pieces: seq<Piece>) {
    exists i :: 0 <= i < |pieces| && pieces[i].JsonPiece?
  }

  /** The values of all options spelled in one of these ways, in order. */
  function ValuesIn(pieces: seq<Piece>, tokens: set<Token>): seq<string> {
    if pieces == [] then []
    else
      (if pieces[0].OptionPiece? && pieces[0].token in tokens then [pieces[0].value] else []) + ValuesIn(pieces[1..], tokens)
  }

  /** Some option is none of these. */
  predicate OtherIn(pieces: seq<Piece>, tokens: set<Token>) {
    exists i :: 0 <= i < |pieces| && pieces[i].OptionPiece? && pieces[i].token !in tokens
  }

  // ---------------------------------------------------------------- gathering

  /** Only the help flag takes no value. */
  ghost predicate OnlyHelp(specs: seq<Spec>) {
    forall name :: IsBooleanFlag(specs, name) ==> name == "help"
  }

  function FlagsIn(pieces: seq<Piece>, flags: map<string, seq<string>>): map<string, seq<string>>
    requires ArePieces(pieces)
  {
    if pieces == [] then flags
    else FlagsIn(pieces[1..], FlagsWith(pieces[0], flags))
  }

  function FlagsWith(p: Piece, flags: map<string, seq<string>>): map<string, seq<string>>
    requires IsPiece(p)
  {
    if p.OptionPiece? then AddFlag(Gathered(false, false, [], flags), OptionName(p.token), p.value).flags else flags
  }

  function With(p: Piece, g: Gathered): Gathered
    requires IsPiece(p)
  {
    Gathered(g.json || p.JsonPiece?, g.help,
             g.positionals + (if p.PathPiece? then [p.path] else []), FlagsWith(p, g.flags))
  }

  lemma GatherPiece(specs: seq<Spec>, p: Piece, rest: seq<Token>, g: Gathered)
    requires OnlyHelp(specs) && IsPiece(p)
    ensures Gather(specs, SpellOne(p) + rest, g) == Gather(specs, rest, With(p, g))
  {
    hide OnlyHelp, IsBooleanFlag, OptionName;
    var tokens := SpellOne(p) + rest;
    assert IsOption("--json");
    match p
    case JsonPiece =>
      assert tokens[1..] == rest;
      assert With(p, g) == g.(json := true);
    case PathPiece(path) =>
      OptionExact(path);
      assert tokens[1..] == rest;
    case OptionPiece(token, value) =>
      OptionExact(token);
      NotBoolean(specs, OptionName(token));
      assert tokens[0] == token && tokens[1] == value && tokens[2..] == rest;
      assert With(p, g) == AddFlag(g, OptionName(token), value);
  }

  lemma NotBoolean(specs: seq<Spec>, name: string)
    requires OnlyHelp(specs) && name != "help"
    ensures !IsBooleanFlag(specs, name)
  {
  }

  /** The loop over the tokens, up to the end of the pieces. */
  lemma {:induction false} GatherPieces(specs: seq<Spec>, pieces: seq<Piece>, rest: seq<Token>, g: Gathered)
    requires OnlyHelp(specs) && ArePieces(pieces)
    ensures Gather(specs, Spell(pieces) + rest, g)
         == Gather(specs, rest, Gathered(g.json || JsonIn(pieces), g.help, g.positionals + PathsIn(pieces), FlagsIn(pieces, g.flags)))
  {
    hide Gather, OnlyHelp, FlagsWith, SpellOne, IsPiece;
    if pieces == [] {
      assert Spell(pieces) + rest == rest && g.positionals + PathsIn(pieces) == g.positionals;
    } else {
      var p, more := pieces[0], pieces[1..];
      assert IsPiece(p);
      assert Spell(pieces) + rest == SpellOne(p) + (Spell(more) + rest);
      GatherPiece(specs, p, Spell(more) + rest, g);
      GatherPieces(specs, more, rest, With(p, g));
      JsonStep(pieces);
      var first := if p.PathPiece? then [p.path] else [];
      Associative(g.positionals, first, PathsIn(more));
    }
  }

  lemma JsonStep(pieces: seq<Piece>)
    requires pieces != []
    ensures JsonIn(pieces) <==> pieces[0].JsonPiece? || JsonIn(pieces[1..])
  {
    if JsonIn(pieces[1..]) {
      var i :| 0 <= i < |pieces[1..]| && pieces[1..][i].JsonPiece?;
      assert pieces[i + 1].JsonPiece?;
    }
    if JsonIn(pieces) && !pieces[0].JsonPiece? {
      var i :| 0 <= i < |pieces| && pieces[i].JsonPiece?;
      assert pieces[1..][i - 1].JsonPiece?;
    }
  }

  lemma EndsSo(specs: seq<Spec>, rest: seq<Token>, g: Gathered)
    requires OnlyHelp(specs) && IsEnd(rest)
    ensures Gather(specs, rest, g) ==
      if rest == [] then Some(g) else if rest[0] == "--help" then Some(g.(help := true)) else None
  {
    hide OnlyHelp, IsBooleanFlag;
    if rest != [] {
      OptionExact(rest[0]);
      assert "--help"[2] == 'h' && "--json"[2] == 'j';
      if rest[0] != "--help" {
        NotBoolean(specs, OptionName(rest[0]));
      }
    }
  }

  // ---------------------------------------------------------------- flags

  /** These tokens are the ways to spell this option. */
  ghost predicate Spells(tokens: set<Token>, name: string) {
    forall t: Token :: TakesValue(t) && IsOption(t) ==> (t in tokens <==> OptionName(t) == name)
  }

  lemma {:induction false} FlagValues(pieces: seq<Piece>, flags: map<string, seq<string>>, tokens: set<Token>, name: string)
    requires ArePieces(pieces) && Spells(tokens, name)
    ensures Prior(FlagsIn(pieces, flags), name) == Prior(flags, name) + ValuesIn(pieces, tokens)
  {
    hide Spells, OptionName, IsPiece, FlagsWith;
    if pieces != [] {
      var p, more := pieces[0], pieces[1..];
      assert IsPiece(p);
      var first := if p.OptionPiece? && p.token in tokens then [p.value] else [];
      FlagValue(p, flags, tokens, name);
      FlagValues(more, FlagsWith(p, flags), tokens, name);
      Associative(Prior(flags, name), first, ValuesIn(more, tokens));
    }
  }

  lemma FlagValue(p: Piece, flags: map<string, seq<string>>, tokens: set<Token>, name: string)
    requires IsPiece(p) && Spells(tokens, name)
    ensures Prior(FlagsWith(p, flags), name)
         == Prior(flags, name) + (if p.OptionPiece? && p.token in tokens then [p.value] else [])
  {
    hide OptionName;
    if p.OptionPiece? {
      OptionExact(p.token);
    }
  }

  predicate IsNamed(p: Piece, name: string) {
    p.OptionPiece? && IsOption(p.token) && OptionName(p.token) == name
  }

  /** Which names are there afterwards. */
  lemma {:induction false} FlagNames(pieces: seq<Piece>, flags: map<string, seq<string>>, name: string)
    requires ArePieces(pieces)
    ensures name in FlagsIn(pieces, flags) <==> name in flags || exists i :: 0 <= i < |pieces| && IsNamed(pieces[i], name)
  {
    hide OptionName, IsPiece, FlagsWith, IsNamed;
    if pieces != [] {
      var p, more := pieces[0], pieces[1..];
      assert IsPiece(p);
      FlagName(p, flags, name);
      FlagNames(more, FlagsWith(p, flags), name);
      if i :| 0 <= i < |more| && IsNamed(more[i], name) {
        assert pieces[i + 1] == more[i];
      }
      if i :| 0 <= i < |pieces| && IsNamed(pieces[i], name) {
        assert i > 0 ==> more[i - 1] == pieces[i];
      }
    }
  }

  lemma FlagName(p: Piece, flags: map<string, seq<string>>, name: string)
    requires IsPiece(p)
    ensures name in FlagsWith(p, flags) <==> name in flags || IsNamed(p, name)
  {
    hide OptionName;
    if p.OptionPiece? {
      OptionExact(p.token);
    }
  }

  // ---------------------------------------------------------------- the options of register

  const LABEL: set<Token> := {"--label"}
  const KIND: set<Token> := {"--kind"}
  const SOURCES: set<Token> := {"--record-source", "--record_source"}

  lemma SpelledAs(t: Token, name: string)
    requires IsOption(t) && forall i :: 0 <= i < |name| ==> name[i] != '_' && name[i] != '-'
    ensures OptionName(t) == name <==> t == "--" + name
  {
    if OptionName(t) == name {
      forall i | 0 <= i < |name| ensures t[2..][i] == name[i] {
        assert OptionName(t)[i] == name[i];
      }
      assert t[2..] == name;
      assert t == "--" + t[2..];
    }
    if t == "--" + name {
      assert t[2..] == name;
      assert OptionName(t) == name;
    }
  }

  lemma SourceSpelled(t: Token)
    requires IsOption(t)
    ensures OptionName(t) == "record_source" <==> t in SOURCES
  {
    if OptionName(t) == "record_source" {
      forall i | 0 <= i < 13 && i != 6 ensures t[2..][i] == "record_source"[i] {
        assert OptionName(t)[i] == "record_source"[i];
      }
      assert OptionName(t)[6] == '_';
      SourceToken(t);
    }
    if t in SOURCES {
      assert t[2..] == "record_source" || t[2..] == "record-source";
      assert OptionName(t) == "record_source";
    }
  }

  lemma DashOrNot()
    ensures "--record-source"[2..] == "record-source" && "--record_source"[2..] == "record_source"
    ensures forall i :: 0 <= i < 13 && i != 6 ==> "record-source"[i] == "record_source"[i]
    ensures "record-source"[6] == '-' && "record_source"[6] == '_'
  {
  }

  lemma SourceToken(t: Token)
    requires IsOption(t) && |t| == 15 && (t[8] == '-' || t[8] == '_')
    requires forall i :: 0 <= i < 13 && i != 6 ==> t[2..][i] == "record_source"[i]
    ensures t in SOURCES
  {
    DashOrNot();
    var word := if t[8] == '-' then "--record-source" else "--record_source";
    forall i | 0 <= i < 13 ensures t[2..][i] == word[2..][i] {
    }
    assert t[2..] == word[2..];
    Dashes(t);
    Dashes(word);
  }

  lemma Dashes(t: Token)
    requires IsOption(t)
    ensures t == "--" + t[2..]
  {
  }

  lemma RegisterSpelled()
    ensures Spells(LABEL, "label") && Spells(KIND, "kind") && Spells(SOURCES, "record_source")
  {
    assert "--" + "label" == "--label" && "--" + "kind" == "--kind";
    forall t: Token | IsOption(t)
      ensures t in LABEL <==> OptionName(t) == "label"
      ensures t in KIND <==> OptionName(t) == "kind"
      ensures t in SOURCES <==> OptionName(t) == "record_source"
    {
      SpelledAs(t, "label");
      SpelledAs(t, "kind");
      SourceSpelled(t);
    }
  }

  /** What is left of the flags when the known ones are taken. */
  function Unknown(flags: map<string, seq<string>>): map<string, seq<string>> {
    flags - {"label"} - {"record_source"} - {"kind"} - {"help"}
  }

  lemma UnknownFlags(pieces: seq<Piece>)
    requires ArePieces(pieces)
    ensures Unknown(FlagsIn(pieces, map[])) != map[] <==> OtherIn(pieces, LABEL + KIND + SOURCES)
  {
    hide FlagsIn, OptionName, TakesValue, Spells;
    var flags := FlagsIn(pieces, map[]);
    forall i | 0 <= i < |pieces| && pieces[i].OptionPiece?
      ensures IsOption(pieces[i].token)
      ensures OptionName(pieces[i].token) in Unknown(flags) <==> pieces[i].token !in LABEL + KIND + SOURCES
    {
      KnownPiece(pieces[i]);
      assert IsNamed(pieces[i], OptionName(pieces[i].token));
      FlagNames(pieces, map[], OptionName(pieces[i].token));
    }
    if name :| name in Unknown(flags) {
      FlagNames(pieces, map[], name);
      var i :| 0 <= i < |pieces| && IsNamed(pieces[i], name);
      assert pieces[i].token !in LABEL + KIND + SOURCES;
    }
  }

  lemma KnownPiece(p: Piece)
    requires IsPiece(p) && p.OptionPiece?
    ensures IsOption(p.token) && OptionName(p.token) != "help"
    ensures OptionName(p.token) in {"label", "kind", "record_source"} <==> p.token in LABEL + KIND + SOURCES
  {
    hide OptionName;
    OptionExact(p.token);
    RegisterSpelled();
  }

  // ---------------------------------------------------------------- register

  /** What the declared arguments of `register` make of the positionals and the flags. */
  lemma AssignExact(paths: seq<string>, flags: map<string, seq<string>>)
    ensures var labels, kinds, sources := Prior(flags, "label"), Prior(flags, "kind"), Prior(flags, "record_source");
      AssignAll(RegisterSpecs(), paths, flags, map[]) ==
        if paths == [] then BadArgs(ArgumentMissing)
        else if labels == [] || sources == [] then BadArgs(OptionMissing)
        else if |paths| > 1 then BadArgs(ArgumentUnexpected)
        else if Unknown(flags) != map[] then BadArgs(OptionUnknown)
        else
          Args(map["workspace" := One(paths[0]), "label" := One(labels[0]), "record_source" := Many(sources),
                   "kind" := One(if kinds == [] then "direct" else kinds[0]),
                   "help" := if Prior(flags, "help") == [] then Absent else One(flags["help"][0])])
  {
    hide Assign, Prior, Unknown, AssignAll;
    var specs := RegisterSpecs();
    var one := flags - {"label"};
    var two := one - {"record_source"};
    var three := two - {"kind"};
    AssignEachExact(paths, flags);
    assert specs[0..] == specs && specs[5..] == [];
    var zeroth: map<string, Value>;
    if Assign(specs[0], paths, flags).Missing? {
      AssignStops(specs, 0, paths, flags, map[]);
    } else {
      zeroth := map["workspace" := One(paths[0])];
      AssignNext(specs, 0, paths, flags, map[]);
      if Assign(specs[1], paths[1..], flags).Missing? {
        AssignStops(specs, 1, paths[1..], flags, zeroth);
      } else {
        var first := zeroth["label" := One(Prior(flags, "label")[0])];
        AssignNext(specs, 1, paths[1..], flags, zeroth);
        if Assign(specs[2], paths[1..], one).Missing? {
          AssignStops(specs, 2, paths[1..], one, first);
        } else {
          AssignNext(specs, 2, paths[1..], one, first);
          var second := first["record_source" := Many(Prior(flags, "record_source"))];
          AssignNext(specs, 3, paths[1..], two, second);
          var third := second["kind" := Assign(specs[3], paths[1..], two).value];
          AssignNext(specs, 4, paths[1..], three, third);
          AssignEnds(paths[1..], three - {"help"}, third["help" := Assign(specs[4], paths[1..], three).value]);
          assert three - {"help"} == Unknown(flags) by { UnknownIs(flags); }
        }
      }
    }
  }

  lemma UnknownIs(flags: map<string, seq<string>>)
    ensures Unknown(flags) == flags - {"label"} - {"record_source"} - {"kind"} - {"help"}
  {
  }

  lemma AssignStops(specs: seq<Spec>, k: nat, positionals: seq<string>, flags: map<string, seq<string>>, args: map<string, Value>)
    requires k < |specs| && Assign(specs[k], positionals, flags).Missing?
    ensures AssignAll(specs[k..], positionals, flags, args) == BadArgs(Assign(specs[k], positionals, flags).error)
  {
  }

  lemma AssignEnds(positionals: seq<string>, flags: map<string, seq<string>>, args: map<string, Value>)
    ensures AssignAll([], positionals, flags, args) ==
      if positionals != [] then BadArgs(ArgumentUnexpected) else if flags != map[] then BadArgs(OptionUnknown) else Args(args)
  {
    assert |flags| == 0 <==> flags == map[];
  }

  /** One declared argument after the other. */
  lemma AssignEachExact(paths: seq<string>, flags: map<string, seq<string>>)
    ensures var specs, one := RegisterSpecs(), flags - {"label"};
      var two := one - {"record_source"};
      var three := two - {"kind"};
      var labels, kinds, sources := Prior(flags, "label"), Prior(flags, "kind"), Prior(flags, "record_source");
      && Assign(specs[0], paths, flags) == (if paths == [] then Missing(ArgumentMissing) else Assigned(One(paths[0]), paths[1..], flags))
      && (paths != [] ==>
            var more := paths[1..];
            && Assign(specs[1], more, flags) == (if labels == [] then Missing(OptionMissing) else Assigned(One(labels[0]), more, one))
            && Assign(specs[2], more, one) == (if sources == [] then Missing(OptionMissing) else Assigned(Many(sources), more, two))
            && Assign(specs[3], more, two) == Assigned(One(if kinds == [] then "direct" else kinds[0]), more, three)
            && Assign(specs[4], more, three) ==
               Assigned(if Prior(flags, "help") == [] then Absent else One(flags["help"][0]), more, three - {"help"}))
  {
    Names();
    var one := flags - {"label"};
    var two := one - {"record_source"};
    var three := two - {"kind"};
    assert Prior(one, "record_source") == Prior(flags, "record_source");
    assert Prior(two, "kind") == Prior(flags, "kind");
    assert Prior(three, "help") == Prior(flags, "help");
  }

  /** What `register` makes of every line of pieces: the first missing thing in the order workspace,
      label, source; then what is too much; otherwise the command, with the first label, the first
      kind and all sources. */
  lemma RegisterVerdict(lead: nat, pieces: seq<Piece>)
    requires ArePieces(pieces)
    ensures var paths, labels := PathsIn(pieces), ValuesIn(pieces, {"--label"});
      var kinds, sources := ValuesIn(pieces, {"--kind"}), ValuesIn(pieces, {"--record-source", "--record_source"});
      ParseArgs(Repeat(lead) + ["register"] + Spell(pieces)) ==
        if paths == [] then Usage(ArgumentMissing)
        else if labels == [] || sources == [] then Usage(OptionMissing)
        else if |paths| > 1 then Usage(ArgumentUnexpected)
        else if OtherIn(pieces, {"--label", "--kind", "--record-source", "--record_source"}) then Usage(OptionUnknown)
        else
          Command("register", lead > 0 || JsonIn(pieces),
                  map["workspace" := One(paths[0]), "label" := One(labels[0]), "record_source" := Many(sources),
                      "kind" := One(if kinds == [] then "direct" else kinds[0]), "help" := Absent])
  {
    hide FlagsIn, IsPiece, AssignAll, RegisterSpecs, ParseCommand, ParseArgs, ValuesIn, OtherIn, Unknown, Spells;
    var flags := FlagsIn(pieces, map[]);
    ReachesCommand(lead, "register", pieces, []);
    RegisterFound();
    AssignExact(PathsIn(pieces), flags);
    RegisterValues(pieces);
    NoHelpFlag(pieces);
    UnknownFlags(pieces);
    assert LABEL + KIND + SOURCES == {"--label", "--kind", "--record-source", "--record_source"};
    assert Spell(pieces) + [] == Spell(pieces);
    OnlyHelpTakesNone(RegisterSpecs()) by { RegisterBooleans(); }
    Gathers(Subcommand("register", RegisterSpecs()), lead > 0, pieces, []);
  }

  lemma RegisterValues(pieces: seq<Piece>)
    requires ArePieces(pieces)
    ensures var flags := FlagsIn(pieces, map[]);
      && Prior(flags, "label") == ValuesIn(pieces, {"--label"})
      && Prior(flags, "kind") == ValuesIn(pieces, {"--kind"})
      && Prior(flags, "record_source") == ValuesIn(pieces, {"--record-source", "--record_source"})
  {
    hide FlagsIn, IsPiece, ValuesIn, Spells;
    RegisterSpelled();
    FlagValues(pieces, map[], LABEL, "label");
    FlagValues(pieces, map[], KIND, "kind");
    FlagValues(pieces, map[], SOURCES, "record_source");
    assert forall values: seq<string> :: [] + values == values;
  }

  lemma NoHelpFlag(pieces: seq<Piece>)
    requires ArePieces(pieces)
    ensures Prior(FlagsIn(pieces, map[]), "help") == []
  {
    HelpIsAbsent(pieces);
  }

  lemma RegisterBooleans()
    ensures forall i :: 0 <= i < |RegisterSpecs()| ==> (RegisterSpecs()[i].boolean ==> RegisterSpecs()[i].name == "help")
  {
  }

  lemma OnlyHelpTakesNone(specs: seq<Spec>)
    requires forall i :: 0 <= i < |specs| ==> (specs[i].boolean ==> specs[i].name == "help")
    ensures OnlyHelp(specs)
  {
    forall name | IsBooleanFlag(specs, name) ensures name == "help" {
      if name != "help" {
        NoBooleanBut(specs, name);
        assert false;
      }
    }
  }

  /** Up to the command. */
  lemma ReachesCommand(lead: nat, name: string, pieces: seq<Piece>, rest: seq<Token>)
    requires name != "--json" && name != "--help" && name != "help"
    ensures ParseArgs(Repeat(lead) + [name] + (Spell(pieces) + rest)) ==
      match FindCommand(Subcommands(), name)
      case None => Usage(UnknownCommand)
      case Some(sub) => ParseCommand(sub, lead > 0, Spell(pieces) + rest)
  {
    hide FindCommand, Subcommands, ParseCommand, Spell;
    LeadingJson(lead, name, Spell(pieces) + rest);
  }

  /** From the command on. */
  lemma Gathers(sub: Subcommand, json: bool, pieces: seq<Piece>, rest: seq<Token>)
    requires OnlyHelp(sub.specs) && ArePieces(pieces) && IsEnd(rest)
    ensures ParseCommand(sub, json, Spell(pieces) + rest) ==
      if rest != [] then (if rest[0] == "--help" then Help(json || JsonIn(pieces)) else Usage(ValueMissing))
      else
        match AssignAll(sub.specs, PathsIn(pieces), FlagsIn(pieces, map[]), map[])
        case BadArgs(error) => Usage(error)
        case Args(args) => Command(sub.name, json || JsonIn(pieces), args)
  {
    hide Gather, OnlyHelp, FlagsIn, AssignAll, Spell, IsPiece, JsonIn, IsEnd;
    var g := Gathered(json, false, [], map[]);
    GatherPieces(sub.specs, pieces, rest, g);
    assert [] + PathsIn(pieces) == PathsIn(pieces);
    EndsSo(sub.specs, rest, Gathered(json || JsonIn(pieces), false, PathsIn(pieces), FlagsIn(pieces, map[])));
  }

  // ---------------------------------------------------------------- the other commands

  predicate HasOption(pieces: seq<Piece>) {
    exists i :: 0 <= i < |pieces| && pieces[i].OptionPiece?
  }

  lemma AnyFlags(pieces: seq<Piece>)
    requires ArePieces(pieces)
    ensures FlagsIn(pieces, map[]) - {"help"} != map[] <==> HasOption(pieces)
  {
    hide FlagsIn, OptionName, TakesValue;
    var flags := FlagsIn(pieces, map[]);
    forall i | 0 <= i < |pieces| && pieces[i].OptionPiece?
      ensures IsOption(pieces[i].token) && OptionName(pieces[i].token) in flags - {"help"}
    {
      KnownPiece(pieces[i]);
      assert IsNamed(pieces[i], OptionName(pieces[i].token));
      FlagNames(pieces, map[], OptionName(pieces[i].token));
    }
    if name :| name in flags - {"help"} {
      FlagNames(pieces, map[], name);
    }
  }

  lemma AssignPath(greedy: bool, paths: seq<string>, flags: map<string, seq<string>>)
    requires "help" !in flags
    ensures AssignAll([Positional("workspace", greedy), HelpFlag()], paths, flags, map[]) ==
      if paths == [] then BadArgs(ArgumentMissing)
      else if !greedy && |paths| > 1 then BadArgs(ArgumentUnexpected)
      else if flags - {"help"} != map[] then BadArgs(OptionUnknown)
      else Args(map["workspace" := if greedy then Many(paths) else One(paths[0]), "help" := Absent])
  {
    var specs := [Positional("workspace", greedy), HelpFlag()];
    hide AssignAll;
    assert specs[0..] == specs && specs[2..] == [];
    if paths == [] {
      AssignStops(specs, 0, paths, flags, map[]);
    } else {
      var more := if greedy then [] else paths[1..];
      var first: map<string, Value> := map["workspace" := if greedy then Many(paths) else One(paths[0])];
      AssignNext(specs, 0, paths, flags, map[]);
      AssignNext(specs, 1, more, flags, first);
      AssignEnds(more, flags - {"help"}, first["help" := Absent]);
    }
  }

  lemma FindExact(name: string)
    ensures FindCommand(Subcommands(), name) ==
      if name == "register" then Some(Subcommand("register", RegisterSpecs()))
      else if name == "rebuild" then Some(Subcommand("rebuild", [Positional("workspace", true), HelpFlag()]))
      else if name in {"inspect", "link", "unregister", "resolve-invalid", "recover-lock"} then
        Some(Subcommand(name, [Positional("workspace", false), HelpFlag()]))
      else None
  {
    hide RegisterSpecs;
    var subs := Subcommands();
    FindSkips(subs, name, 0);
    FindSkips(subs, name, 1);
    FindSkips(subs, name, 2);
    FindSkips(subs, name, 3);
    FindSkips(subs, name, 4);
    FindSkips(subs, name, 5);
    FindSkips(subs, name, 6);
    assert subs[0..] == subs && subs[7..] == [];
  }

  lemma FindSkips(subs: seq<Subcommand>, name: string, k: nat)
    requires k < |subs|
    ensures FindCommand(subs[k..], name) == if subs[k].name == name then Some(subs[k]) else FindCommand(subs[k + 1..], name)
  {
    assert subs[k..][1..] == subs[k + 1..];
  }

  /** What the other commands make of every line of pieces: exactly one workspace, for `rebuild` at
      least one, and no option. */
  lemma PathVerdict(lead: nat, name: string, pieces: seq<Piece>)
    requires ArePieces(pieces)
    requires name in {"inspect", "link", "unregister", "resolve-invalid", "recover-lock", "rebuild"}
    ensures var paths := PathsIn(pieces);
      ParseArgs(Repeat(lead) + [name] + Spell(pieces)) ==
        if paths == [] then Usage(ArgumentMissing)
        else if name != "rebuild" && |paths| > 1 then Usage(ArgumentUnexpected)
        else if HasOption(pieces) then Usage(OptionUnknown)
        else
          Command(name, lead > 0 || JsonIn(pieces),
                  map["workspace" := if name == "rebuild" then Many(paths) else One(paths[0]), "help" := Absent])
  {
    hide FlagsIn, IsPiece, AssignAll, ParseCommand, ParseArgs, HasOption, Repeat, FindCommand, Subcommands;
    CommandNames(name);
    var specs := [Positional("workspace", name == "rebuild"), HelpFlag()];
    ReachesCommand(lead, name, pieces, []);
    FindExact(name);
    NoHelpFlag(pieces);
    HelpIsAbsent(pieces);
    AssignPath(name == "rebuild", PathsIn(pieces), FlagsIn(pieces, map[]));
    AnyFlags(pieces);
    assert Spell(pieces) + [] == Spell(pieces);
    OnlyHelpTakesNone(specs);
    Gathers(Subcommand(name, specs), lead > 0, pieces, []);
  }

  lemma HelpIsAbsent(pieces: seq<Piece>)
    requires ArePieces(pieces)
    ensures "help" !in FlagsIn(pieces, map[])
  {
    hide FlagsIn, OptionName;
    FlagNames(pieces, map[], "help");
    if i :| 0 <= i < |pieces| && IsNamed(pieces[i], "help") {
      OptionExact(pieces[i].token);
      assert false;
    }
  }

  lemma CommandNames(name: string)
    requires name in {"register", "inspect", "link", "unregister", "resolve-invalid", "recover-lock", "rebuild"}
    ensures name != "--json" && name != "--help" && name != "help"
  {
    assert "--json"[0] == '-' && "--help"[0] == '-' && "help"[0] == 'h';
  }

  // ---------------------------------------------------------------- everything else

  /** A help flag behind any pieces asks for help, whatever follows it; an option at the very end is
      refused for its missing value. */
  lemma EndVerdict(lead: nat, name: string, pieces: seq<Piece>, rest: seq<Token>)
    requires ArePieces(pieces) && IsEnd(rest) && rest != []
    requires name in {"register", "inspect", "link", "unregister", "resolve-invalid", "recover-lock", "rebuild"}
    ensures ParseArgs(Repeat(lead) + [name] + (Spell(pieces) + rest)) ==
      if rest[0] == "--help" then Help(lead > 0 || JsonIn(pieces)) else Usage(ValueMissing)
  {
    hide FlagsIn, IsPiece, AssignAll, ParseCommand, ParseArgs, Repeat, FindCommand, Subcommands, JsonIn, IsEnd;
    CommandNames(name);
    ReachesCommand(lead, name, pieces, rest);
    FindExact(name);
    var sub := FindCommand(Subcommands(), name).value;
    RegisterBooleans();
    OnlyHelpTakesNone(sub.specs);
    Gathers(sub, lead > 0, pieces, rest);
  }

  /** Without a command, and with `help`, help is shown; an unknown command is refused. */
  lemma CommandVerdict(lead: nat, name: string, tokens: seq<Token>)
    requires name != "--json"
    ensures ParseArgs(Repeat(lead)) == Help(lead > 0)
    ensures name == "--help" || name == "help" ==> ParseArgs(Repeat(lead) + [name] + tokens) == Help(lead > 0)
    ensures name !in {"--help", "help", "register", "inspect", "link", "unregister", "resolve-invalid", "recover-lock", "rebuild"} ==>
      ParseArgs(Repeat(lead) + [name] + tokens) == Usage(UnknownCommand)
  {
    hide ParseCommand, Repeat, FindCommand, Subcommands;
    LeadingJson(lead, name, tokens);
    OnlyJson(lead);
    FindExact(name);
  }

  lemma {:induction false} OnlyJson(lead: nat)
    ensures |Repeat(lead)| == lead && SkipJson(Repeat(lead)) == lead
  {
    if lead > 0 {
      OnlyJson(lead - 1);
      assert Repeat(lead)[1..] == Repeat(lead - 1);
    }
  }

  /** Every argument list is one of these. */
  lemma {:induction false} EveryArgv(argv: seq<Token>) returns (lead: nat, name: string, tokens: seq<Token>)
    ensures argv == Repeat(lead) || (argv == Repeat(lead) + [name] + tokens && name != "--json")
  {
    if argv == [] {
      lead, name, tokens := 0, "", [];
    } else if argv[0] == "--json" {
      lead, name, tokens := EveryArgv(argv[1..]);
      assert argv == ["--json"] + argv[1..];
      if argv[1..] != Repeat(lead) {
        assert argv == ["--json"] + Repeat(lead) + [name] + tokens;
      }
      lead := lead + 1;
    } else {
      lead, name, tokens := 0, argv[0], argv[1..];
      assert argv == [] + [argv[0]] + argv[1..];
    }
  }

  // ---------------------------------------------------------------- record sources

  /** An entry is a source exactly if it splits at its first equals sign into two parts that are not
      blank. */
  lemma SourceExact(item: string, s: Source)
    ensures ParseSource(item) == Some(s) <==> item == s.kind + "=" + s.uri && IsExpressible(s)
  {
    if ParseSource(item) == Some(s) {
      var n := EqualsAt(item);
      assert item == item[..n] + "=" + item[n + 1..];
    }
    if item == s.kind + "=" + s.uri && IsExpressible(s) {
      SourceRoundTrip(s);
    }
  }

  /** All entries must be sources, and there must be one; the result holds them in order. */
  lemma {:induction false} EntriesExact(raw: seq<string>)
    ensures ParseEach(raw).Some? <==> forall i :: 0 <= i < |raw| ==> ParseSource(raw[i]).Some?
    ensures ParseEach(raw).Some? ==>
      |ParseEach(raw).value| == |raw| && forall i :: 0 <= i < |raw| ==> Some(ParseEach(raw).value[i]) == ParseSource(raw[i])
  {
    hide ParseSource;
    if raw != [] {
      EntriesExact(raw[..|raw| - 1]);
    }
  }
}
