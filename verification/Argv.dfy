/**
 The argv parser against a canonical printer, and the options the menu hands to the invocation it
 starts.
 */
module Argv {
  import opened Options

  datatype OptionValue = Flag | Text(text: string)

  datatype Invocation = Invocation(command: Option<string>, operands: seq<string>, options: map<string, OptionValue>)

  datatype UsageError = InvalidOption | DuplicateOption | UnknownOption | TakesNoValue | RequiresValue

  const BOOLEAN_OPTIONS: set<string> := {
    "help", "version", "json", "no-color", "yes", "background", "no-sync", "new", "new-session", "offline",
    "check-browser-login", "all", "forget-unknown", "resume", "no-wait"
  }

  const VALUE_OPTIONS: set<string> := {
    "install-tetragon", "project", "grant", "after", "execution-workspace-id", "agent", "agent-session", "auth-mode",
    "base-url", "config-file", "credential-binding", "cursor", "cwd", "expires-at", "idempotency-key", "limit",
    "machine",
    "memory-mib", "name", "operation", "profile", "resource-id", "scope", "timeout-ms", "vcpus", "workspace-binding-id",
    "workspace-generation"
  }

  predicate IsLower(c: char) {
    'a' <= c <= 'z'
  }

  predicate IsOptionName(s: string) {
    s != "" && IsLower(s[0]) && forall i | 0 <= i < |s| :: IsLower(s[i]) || '0' <= s[i] <= '9' || s[i] == '-'
  }

  predicate Dashed(s: string) {
    "--" <= s
  }

  /** `indexOf`, or the length when the character is absent. */
  function IndexOf(s: string, c: char): (i: nat)
    ensures i <= |s| && (i < |s| ==> s[i] == c) && forall j | 0 <= j < i :: s[j] != c
  {
    if s == "" then 0 else if s[0] == c then 0 else 1 + IndexOf(s[1..], c)
  }

  // ----- the parser

  /** What one option token means; `skip` when its value was the token after it. */
  datatype Read = Read(name: string, value: OptionValue, skip: bool)

  function ReadOption(token: string, rest: seq<string>, options: map<string, OptionValue>): Result<Read, UsageError>
    requires Dashed(token)
  {
    var separator := IndexOf(token, '=');
    var name := token[2..separator];
    if !IsOptionName(name) then Err(InvalidOption)
    else if name in options then Err(DuplicateOption)
    else if name !in BOOLEAN_OPTIONS && name !in VALUE_OPTIONS then Err(UnknownOption)
    else if name in BOOLEAN_OPTIONS then
      if separator < |token| then Err(TakesNoValue) else Ok(Read(name, Flag, false))
    else if separator < |token| then
      if token[separator + 1..] == "" then Err(RequiresValue) else Ok(Read(name, Text(token[separator + 1..]), false))
    else if rest == [] || rest[0] == "" || Dashed(rest[0]) then Err(RequiresValue)
    else Ok(Read(name, Text(rest[0]), true))
  }

  datatype Parsed = Parsed(options: map<string, OptionValue>, positionals: seq<string>)

  function Parse(argv: seq<string>, flags: bool, p: Parsed): Result<Parsed, UsageError>
    decreases |argv|
  {
    if argv == [] then Ok(p)
    else if flags && argv[0] == "--" then Parse(argv[1..], false, p)
    else if flags && Dashed(argv[0]) then
      match ReadOption(argv[0], argv[1..], p.options)
      case Err(e) => Err(e)
      case Ok(r) =>
        var next := p.(options := p.options[r.name := r.value]);
        if r.skip && |argv| > 1 then Parse(argv[2..], flags, next) else Parse(argv[1..], flags, next)
    else Parse(argv[1..], flags, p.(positionals := p.positionals + [argv[0]]))
  }

  function ToInvocation(p: Parsed): Invocation {
    if p.positionals == [] then Invocation(None, [], p.options)
    else Invocation(Some(p.positionals[0]), p.positionals[1..], p.options)
  }

  function ParseAll(argv: seq<string>): Result<Invocation, UsageError> {
    match Parse(argv, true, Parsed(map[], []))
    case Err(e) => Err(e)
    case Ok(p) => Ok(ToInvocation(p))
  }

  method ParseArgv(argv: seq<string>) returns (outcome: Result<Invocation, UsageError>)
    ensures outcome == ParseAll(argv)
  {
    var options: map<string, OptionValue> := map[];
    var positionals: seq<string> := [];
    var flags := true;
    var index := 0;
    while index < |argv|
      invariant 0 <= index <= |argv|
      invariant Parse(argv[index..], flags, Parsed(options, positionals)) == Parse(argv, true, Parsed(map[], []))
    {
      var token := argv[index];
      assert argv[index..][1..] == argv[index + 1..];
      if flags && token == "--" {
        flags := false;
        index := index + 1;
        continue;
      }
      if flags && Dashed(token) {
        var separator := IndexOf(token, '=');
        var name := token[2..separator];
        if !IsOptionName(name) {
          return Err(InvalidOption);
        }
        if name in options {
          return Err(DuplicateOption);
        }
        if name !in BOOLEAN_OPTIONS && name !in VALUE_OPTIONS {
          return Err(UnknownOption);
        }
        if name in BOOLEAN_OPTIONS {
          if separator < |token| {
            return Err(TakesNoValue);
          }
          options := options[name := Flag];
        } else if separator < |token| {
          if token[separator + 1..] == "" {
            return Err(RequiresValue);
          }
          options := options[name := Text(token[separator + 1..])];
        } else {
          if index + 1 == |argv| || argv[index + 1] == "" || Dashed(argv[index + 1]) {
            return Err(RequiresValue);
          }
          assert argv[index..][2..] == argv[index + 2..];
          options := options[name := Text(argv[index + 1])];
          index := index + 1;
        }
        index := index + 1;
        continue;
      }
      positionals := positionals + [token];
      index := index + 1;
    }
    assert argv[index..] == [];
    return Ok(ToInvocation(Parsed(options, positionals)));
  }

  // ----- what the parser can produce

  /** A known, well-spelled name with the kind of value it takes. */
  predicate Fits(name: string, value: OptionValue) {
    && IsOptionName(name)
    && (name in BOOLEAN_OPTIONS || name in VALUE_OPTIONS)
    && (if name in BOOLEAN_OPTIONS then value == Flag else value.Text? && value.text != "")
  }

  predicate WellFormed(inv: Invocation) {
    && (inv.command.None? ==> inv.operands == [])
    && forall name | name in inv.options :: Fits(name, inv.options[name])
  }

  lemma {:induction false} ParsedFits(argv: seq<string>, flags: bool, p: Parsed)
    requires forall name | name in p.options :: Fits(name, p.options[name])
    ensures Parse(argv, flags, p).Ok? ==>
              forall name | name in Parse(argv, flags, p).value.options ::
                  Fits(name, Parse(argv, flags, p).value.options[name])
    decreases |argv|
  {
    if argv != [] {
      if flags && argv[0] == "--" {
        ParsedFits(argv[1..], false, p);
      } else if flags && Dashed(argv[0]) {
        match ReadOption(argv[0], argv[1..], p.options)
        case Err(_) =>
        case Ok(r) =>
          assert Fits(r.name, r.value);
          var next := p.(options := p.options[r.name := r.value]);
          if r.skip && |argv| > 1 {
            ParsedFits(argv[2..], flags, next);
          } else {
            ParsedFits(argv[1..], flags, next);
          }
      } else {
        ParsedFits(argv[1..], flags, p.(positionals := p.positionals + [argv[0]]));
      }
    }
  }

  lemma ParseIsWellFormed(argv: seq<string>)
    ensures ParseAll(argv).Ok? ==> WellFormed(ParseAll(argv).value)
  {
    ParsedFits(argv, true, Parsed(map[], []));
  }

  // ----- the printer

  function OptionToken(name: string, value: OptionValue): string {
    match value
    case Flag => "--" + name
    case Text(t) => "--" + name + "=" + t
  }

  /** The options in the given order, each in one token. */
  function OptionTokens(options: map<string, OptionValue>, order: seq<string>): seq<string>
    requires forall i | 0 <= i < |order| :: order[i] in options
  {
    if order == [] then [] else [OptionToken(order[0], options[order[0]])] + OptionTokens(options, order[1..])
  }

  /** `order` lists every option name once. */
  predicate Enumerates(order: seq<string>, options: map<string, OptionValue>) {
    && (forall i | 0 <= i < |order| :: order[i] in options)
    && (forall i, j | 0 <= i < j < |order| :: order[i] != order[j])
    && (forall name | name in options :: name in order)
  }

  function PositionalsOf(inv: Invocation): seq<string> {
    if inv.command.None? then [] else [inv.command.value] + inv.operands
  }

  function Print(inv: Invocation, order: seq<string>): seq<string>
    requires Enumerates(order, inv.options)
  {
    OptionTokens(inv.options, order) + ["--"] + PositionalsOf(inv)
  }

  /** A printed option reads back as itself, whatever follows it. */
  lemma OptionReadsBack(name: string, value: OptionValue, rest: seq<string>, options: map<string, OptionValue>)
    requires Fits(name, value) && name !in options
    ensures Dashed(OptionToken(name, value)) && OptionToken(name, value) != "--"
    ensures ReadOption(OptionToken(name, value), rest, options) == Ok(Read(name, value, false))
  {
    hide BOOLEAN_OPTIONS, VALUE_OPTIONS;
    var token := OptionToken(name, value);
    assert token[2..2 + |name|] == name;
    var separator := IndexOf(token, '=');
    assert forall i | 0 <= i < 2 + |name| :: token[i] != '=' by {
      forall i | 0 <= i < 2 + |name|
        ensures token[i] != '='
      {
        if i >= 2 {
          assert token[i] == name[i - 2];
        }
      }
    }
    if value.Text? {
      assert token[2 + |name|] == '=' && separator == 2 + |name|;
      assert token[separator + 1..] == value.text;
    } else {
      assert token == "--" + name && separator == |token|;
    }
  }

  /** One option token read, the rest is parsed with it recorded. */
  lemma ParseReads(argv: seq<string>, p: Parsed, r: Read)
    requires argv != [] && Dashed(argv[0]) && argv[0] != "--"
    requires ReadOption(argv[0], argv[1..], p.options) == Ok(r) && (r.skip ==> |argv| > 1)
    ensures var next := p.(options := p.options[r.name := r.value]);
            Parse(argv, true, p) == Parse(if r.skip then argv[2..] else argv[1..], true, next)
  {
    hide ReadOption;
  }

  /** The part of the options under the given names. */
  function Select(options: map<string, OptionValue>, names: seq<string>): (m: map<string, OptionValue>)
    ensures names == [] ==> m == map[]
  {
    map n | n in options && n in names :: options[n]
  }

  lemma SelectStep(options: map<string, OptionValue>, names: seq<string>, done: map<string, OptionValue>)
    requires names != [] && names[0] !in done
    ensures names[0] in options ==>
              done[names[0] := options[names[0]]] + Select(options, names[1..]) == done + Select(options, names)
    ensures names[0] !in options ==> Select(options, names[1..]) == Select(options, names)
  {
    assert names == [names[0]] + names[1..];
  }

  lemma {:induction false} OptionsReadBack(options: map<string, OptionValue>, order: seq<string>, tail: seq<string>,
                                           done: map<string, OptionValue>)
    requires forall name | name in options :: Fits(name, options[name])
    requires forall i | 0 <= i < |order| :: order[i] in options && order[i] !in done
    requires forall i, j | 0 <= i < j < |order| :: order[i] != order[j]
    ensures Parse(OptionTokens(options, order) + tail, true, Parsed(done, [])) ==
            Parse(tail, true, Parsed(done + Select(options, order), []))
    decreases |order|
  {
    hide Parse, ReadOption, OptionToken, Select, Dashed, Fits, BOOLEAN_OPTIONS, VALUE_OPTIONS;
    if order == [] {
      assert OptionTokens(options, order) + tail == tail;
      assert done + Select(options, order) == done;
    } else {
      var name, rest := order[0], order[1..];
      var tokens := OptionTokens(options, order) + tail;
      assert tokens[0] == OptionToken(name, options[name]) && tokens[1..] == OptionTokens(options, rest) + tail;
      OptionReadsBack(name, options[name], tokens[1..], done);
      ParseReads(tokens, Parsed(done, []), Read(name, options[name], false));
      OptionsReadBack(options, rest, tail, done[name := options[name]]);
      SelectStep(options, order, done);
    }
  }

  lemma {:induction false} PositionalsReadBack(tail: seq<string>, p: Parsed)
    ensures Parse(tail, false, p) == Ok(p.(positionals := p.positionals + tail))
    decreases |tail|
  {
    if tail == [] {
      assert p.positionals + tail == p.positionals;
    } else {
      PositionalsReadBack(tail[1..], p.(positionals := p.positionals + [tail[0]]));
      assert p.positionals + [tail[0]] + tail[1..] == p.positionals + tail;
    }
  }

  lemma TerminatorReads(positionals: seq<string>, p: Parsed)
    ensures Parse(["--"] + positionals, true, p) == Parse(positionals, false, p)
  {
    hide ReadOption;
    assert (["--"] + positionals)[1..] == positionals;
  }

  /** Printing any well-formed invocation, its options in any order, and parsing it gives it back. */
  lemma PrintReadsBack(inv: Invocation, order: seq<string>)
    requires WellFormed(inv) && Enumerates(order, inv.options)
    ensures ParseAll(Print(inv, order)) == Ok(inv)
  {
    hide Parse, Fits, OptionTokens;
    var positionals := PositionalsOf(inv);
    var tail := ["--"] + positionals;
    assert Print(inv, order) == OptionTokens(inv.options, order) + tail;
    OptionsReadBack(inv.options, order, tail, map[]);
    assert map[] + Select(inv.options, order) == inv.options;
    assert tail[1..] == positionals;
    TerminatorReads(positionals, Parsed(inv.options, []));
    PositionalsReadBack(positionals, Parsed(inv.options, []));
    assert [] + positionals == positionals;
    if inv.command.Some? {
      assert positionals[1..] == inv.operands;
    }
  }

  /** So parsing, printing and parsing again is parsing. */
  lemma ParsePrintParse(argv: seq<string>, order: seq<string>)
    requires ParseAll(argv).Ok? && Enumerates(order, ParseAll(argv).value.options)
    ensures ParseAll(Print(ParseAll(argv).value, order)) == ParseAll(argv)
  {
    ParseIsWellFormed(argv);
    PrintReadsBack(ParseAll(argv).value, order);
  }

  // ----- the menu

  const MENU_VALUES: seq<string> := ["profile", "base-url", "config-file", "timeout-ms"]

  /** The two-token form the menu uses. */
  function ValueTokens(options: map<string, OptionValue>, names: seq<string>): seq<string> {
    if names == [] then []
    else
      var carried := names[0] in options && options[names[0]].Text?;
      (if carried then ["--" + names[0], options[names[0]].text] else []) + ValueTokens(options, names[1..])
  }

  function MenuTokens(options: map<string, OptionValue>): seq<string> {
    ValueTokens(options, MENU_VALUES) + (if "no-color" in options then ["--no-color"] else [])
  }

  lemma ValueTokensStep(options: map<string, OptionValue>, names: seq<string>, i: nat)
    requires i < |names|
    ensures ValueTokens(options, names[i..]) ==
            (if names[i] in options && options[names[i]].Text? then ["--" + names[i], options[names[i]].text] else [])
            + ValueTokens(options, names[i + 1..])
  {
    assert names[i..][0] == names[i] && names[i..][1..] == names[i + 1..];
  }

  lemma ValueTokensEnd(options: map<string, OptionValue>, names: seq<string>, args: seq<string>)
    ensures args + ValueTokens(options, names[|names|..]) == args
    ensures names[0..] == names
  {
    assert names[|names|..] == [];
  }

  method MenuInvocationOptions(inv: Invocation) returns (args: seq<string>)
    requires WellFormed(inv)
    ensures args == MenuTokens(inv.options)
  {
    hide WellFormed, MENU_VALUES, ValueTokens;
    args := [];
    var i := 0;
    ValueTokensEnd(inv.options, MENU_VALUES, args);
    while i < |MENU_VALUES|
      invariant 0 <= i <= |MENU_VALUES|
      invariant args + ValueTokens(inv.options, MENU_VALUES[i..]) == ValueTokens(inv.options, MENU_VALUES)
    {
      var name := MENU_VALUES[i];
      ValueTokensStep(inv.options, MENU_VALUES, i);
      if name in inv.options && inv.options[name].Text? {
        args := args + ["--" + name, inv.options[name].text];
      }
      i := i + 1;
    }
    ValueTokensEnd(inv.options, MENU_VALUES, args);
    if "no-color" in inv.options {
      args := args + ["--no-color"];
    }
  }

  /** A value the two-token form cannot carry. */
  predicate Swallowed(options: map<string, OptionValue>, name: string) {
    name in options && options[name].Text? && Dashed(options[name].text)
  }

  lemma SpacedOptionReads(name: string, text: string, tail: seq<string>, options: map<string, OptionValue>)
    requires Fits(name, Text(text)) && name !in options
    ensures Dashed("--" + name) && "--" + name != "--"
    ensures ReadOption("--" + name, [text] + tail, options) ==
            if Dashed(text) then Err(RequiresValue) else Ok(Read(name, Text(text), true))
  {
    var token := "--" + name;
    assert token[2..] == name;
    assert forall i | 0 <= i < |token| :: token[i] != '=' by {
      forall i | 0 <= i < |token|
        ensures token[i] != '='
      {
        if i >= 2 {
          assert token[i] == name[i - 2];
        }
      }
    }
    assert IndexOf(token, '=') == |token| && token[2..|token|] == name;
  }

  lemma {:induction false} ValuesRead(options: map<string, OptionValue>, names: seq<string>, tail: seq<string>,
                                      p: Parsed)
    requires forall name | name in options :: Fits(name, options[name])
    requires forall i | 0 <= i < |names| :: names[i] !in BOOLEAN_OPTIONS && names[i] !in p.options
    requires forall i, j | 0 <= i < j < |names| :: names[i] != names[j]
    ensures (exists i | 0 <= i < |names| :: Swallowed(options, names[i])) ==>
              Parse(ValueTokens(options, names) + tail, true, p) == Err(RequiresValue)
    ensures (forall i | 0 <= i < |names| :: !Swallowed(options, names[i])) ==>
              Parse(ValueTokens(options, names) + tail, true, p) ==
              Parse(tail, true, p.(options := p.options + Select(options, names)))
    decreases |names|
  {
    hide Parse, ReadOption, Select, Dashed;
    if names == [] {
      assert ValueTokens(options, names) + tail == tail;
      assert p.options + Select(options, names) == p.options;
    } else {
      var name, rest := names[0], names[1..];
      var after := ValueTokens(options, rest) + tail;
      SelectStep(options, names, p.options);
      if name in options {
        assert Fits(name, options[name]);
        var text := options[name].text;
        var tokens := ValueTokens(options, names) + tail;
        assert tokens == ["--" + name, text] + after;
        assert tokens[0] == "--" + name && tokens[1..] == [text] + after && tokens[2..] == after;
        SpacedOptionReads(name, text, after, p.options);
        if Dashed(text) {
          ParseRefuses(tokens, p, RequiresValue);
        } else {
          ParseReads(tokens, p, Read(name, Text(text), true));
          ValuesRead(options, rest, tail, p.(options := p.options[name := Text(text)]));
          SwallowedInRest(options, names);
        }
      } else {
        assert ValueTokens(options, names) + tail == after;
        ValuesRead(options, rest, tail, p);
        SwallowedInRest(options, names);
      }
    }
  }

  lemma ParseRefuses(argv: seq<string>, p: Parsed, e: UsageError)
    requires argv != [] && Dashed(argv[0]) && argv[0] != "--" && ReadOption(argv[0], argv[1..], p.options) == Err(e)
    ensures Parse(argv, true, p) == Err(e)
  {
    hide ReadOption;
  }

  lemma SwallowedInRest(options: map<string, OptionValue>, names: seq<string>)
    requires names != [] && !Swallowed(options, names[0])
    ensures (exists i | 0 <= i < |names| :: Swallowed(options, names[i])) <==>
              (exists i | 0 <= i < |names[1..]| :: Swallowed(options, names[1..][i]))
  {
    if i :| 0 <= i < |names| && Swallowed(options, names[i]) {
      assert names[1..][i - 1] == names[i];
    }
  }

  lemma {:induction false} LeadReads(lead: seq<string>, tail: seq<string>, p: Parsed)
    requires forall i | 0 <= i < |lead| :: !Dashed(lead[i])
    ensures Parse(lead + tail, true, p) == Parse(tail, true, p.(positionals := p.positionals + lead))
    decreases |lead|
  {
    if lead == [] {
      assert lead + tail == tail && p.positionals + lead == p.positionals;
    } else {
      assert (lead + tail)[1..] == lead[1..] + tail;
      LeadReads(lead[1..], tail, p.(positionals := p.positionals + [lead[0]]));
      assert p.positionals + [lead[0]] + lead[1..] == p.positionals + lead;
    }
  }

  /** The five options the menu carries over. */
  function MenuPart(options: map<string, OptionValue>): map<string, OptionValue> {
    map n | n in options && (n in MENU_VALUES || n == "no-color") :: options[n]
  }

  lemma NoColorReads(p: Parsed)
    requires "no-color" !in p.options
    ensures Parse(["--no-color"], true, p) == Ok(p.(options := p.options["no-color" := Flag]))
  {
    hide Parse, ReadOption;
    assert IsOptionName("no-color") by {
      assert "no-color"[0] == 'n';
    }
    OptionReadsBack("no-color", Flag, [], p.options);
    assert OptionToken("no-color", Flag) == "--no-color" && ["--no-color"][1..] == [];
    ParseReads(["--no-color"], p, Read("no-color", Flag, false));
    ParseNothing(p.(options := p.options["no-color" := Flag]));
  }

  /**
   Appended to a command line, the menu's tokens parse to the same five options if and only if no
   carried value starts with `--`; otherwise the whole command line is refused.
   */
  lemma MenuReadsBack(inv: Invocation, lead: seq<string>)
    requires WellFormed(inv) && forall i | 0 <= i < |lead| :: !Dashed(lead[i])
    ensures ParseAll(lead + MenuTokens(inv.options)) == Ok(ToInvocation(Parsed(MenuPart(inv.options), lead))) <==>
            forall i | 0 <= i < |MENU_VALUES| :: !Swallowed(inv.options, MENU_VALUES[i])
    ensures ParseAll(lead + MenuTokens(inv.options)) in
              {Ok(ToInvocation(Parsed(MenuPart(inv.options), lead))), Err(RequiresValue)}
  {
    hide Parse, ValueTokens, Fits;
    var colour := if "no-color" in inv.options then ["--no-color"] else [];
    LeadReads(lead, MenuTokens(inv.options), Parsed(map[], []));
    assert [] + lead == lead;
    MenuNames();
    ValuesRead(inv.options, MENU_VALUES, colour, Parsed(map[], lead));
    if forall i | 0 <= i < |MENU_VALUES| :: !Swallowed(inv.options, MENU_VALUES[i]) {
      ColourReads(inv, lead, colour);
    }
  }

  lemma ColourReads(inv: Invocation, lead: seq<string>, colour: seq<string>)
    requires WellFormed(inv) && colour == if "no-color" in inv.options then ["--no-color"] else []
    ensures Parse(colour, true, Parsed(map[] + Select(inv.options, MENU_VALUES), lead)) ==
            Ok(Parsed(MenuPart(inv.options), lead))
  {
    hide Parse, IsOptionName;
    MenuNames();
    var values := Select(inv.options, MENU_VALUES);
    assert map[] + values == values;
    if "no-color" in inv.options {
      assert Fits("no-color", inv.options["no-color"]);
      NoColorReads(Parsed(values, lead));
      assert values["no-color" := Flag] == MenuPart(inv.options);
    } else {
      ParseNothing(Parsed(values, lead));
      assert values == MenuPart(inv.options);
    }
  }

  lemma ParseNothing(p: Parsed)
    ensures Parse([], true, p) == Ok(p)
  {
  }

  lemma MenuNames()
    ensures forall i | 0 <= i < |MENU_VALUES| :: MENU_VALUES[i] !in BOOLEAN_OPTIONS && MENU_VALUES[i] != "no-color"
    ensures forall i, j | 0 <= i < j < |MENU_VALUES| :: MENU_VALUES[i] != MENU_VALUES[j]
    ensures "no-color" in BOOLEAN_OPTIONS && "no-color" !in MENU_VALUES
  {
    assert |MENU_VALUES[0]| == 7 && |MENU_VALUES[1]| == 8 && |MENU_VALUES[2]| == 11 && |MENU_VALUES[3]| == 10;
    assert MENU_VALUES[0][0] == 'p' && MENU_VALUES[1][0] == 'b' && MENU_VALUES[2][0] == 'c' && MENU_VALUES[3][0] == 't';
  }
}
