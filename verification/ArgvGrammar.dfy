/**
 The command lines the argv parser accepts, as a grammar: options in three spellings and operands in any order, then
 perhaps a terminator and more operands. The parser accepts exactly the sentences of this grammar.
 */
module ArgvGrammar {
  import opened Options
  import opened Argv

  /** One piece of a command line before the terminator. */
  datatype Piece =
    | Switch(name: string)
    | Joined(name: string, text: string)
    | Spaced(name: string, text: string)
    | Operand(word: string)

  /** Pieces, and the words after a terminator if there is one. */
  datatype Sentence = Sentence(pieces: seq<Piece>, rest: Option<seq<string>>)

  function TokensOf(p: Piece): seq<string> {
    match p
    case Switch(name) => ["--" + name]
    case Joined(name, text) => ["--" + name + "=" + text]
    case Spaced(name, text) => ["--" + name, text]
    case Operand(word) => [word]
  }

  function Spell(pieces: seq<Piece>): seq<string> {
    if pieces == [] then [] else TokensOf(pieces[0]) + Spell(pieces[1..])
  }

  function Tail(rest: Option<seq<string>>): seq<string> {
    if rest.Some? then ["--"] + rest.value else []
  }

  /** A known option with a value exactly if it takes one, not empty and not taken for an option; or a plain word. */
  predicate Good(p: Piece) {
    match p
    case Switch(name) => IsOptionName(name) && name in BOOLEAN_OPTIONS
    case Joined(name, text) =>
      IsOptionName(name) && name in VALUE_OPTIONS && name !in BOOLEAN_OPTIONS && text != ""
    case Spaced(name, text) =>
      IsOptionName(name) && name in VALUE_OPTIONS && name !in BOOLEAN_OPTIONS && text != "" && !Dashed(text)
    case Operand(word) => !Dashed(word)
  }

  /** What a piece adds to what was read before it. */
  function Said(p: Piece, before: Parsed): Parsed {
    match p
    case Switch(name) => before.(options := before.options[name := Flag])
    case Joined(name, text) => before.(options := before.options[name := Text(text)])
    case Spaced(name, text) => before.(options := before.options[name := Text(text)])
    case Operand(word) => before.(positionals := before.positionals + [word])
  }

  function SaidAll(pieces: seq<Piece>, before: Parsed): Parsed
    decreases |pieces|
  {
    if pieces == [] then before else SaidAll(pieces[1..], Said(pieces[0], before))
  }

  /** Every piece is good and no option is given twice. */
  predicate Sound(pieces: seq<Piece>, before: Parsed)
    decreases |pieces|
  {
    pieces != [] ==>
      && Good(pieces[0]) && (!pieces[0].Operand? ==> pieces[0].name !in before.options)
      && Sound(pieces[1..], Said(pieces[0], before))
  }

  /** What a sentence means: its options, and its operands with the words after the terminator. */
  function Meaning(s: Sentence, before: Parsed): Parsed {
    var said := SaidAll(s.pieces, before);
    if s.rest.Some? then said.(positionals := said.positionals + s.rest.value) else said
  }

  // ----- every sentence parses to its meaning

  lemma PieceParses(p: Piece, tail: seq<string>, before: Parsed)
    requires Good(p) && (!p.Operand? ==> p.name !in before.options)
    ensures Parse(TokensOf(p) + tail, true, before) == Parse(tail, true, Said(p, before))
  {
    hide BOOLEAN_OPTIONS, VALUE_OPTIONS;
    var tokens := TokensOf(p) + tail;
    match p
    case Switch(name) =>
      assert tokens[1..] == tail;
      OptionReadsBack(name, Flag, tail, before.options);
      ParseReads(tokens, before, Read(name, Flag, false));
    case Joined(name, text) =>
      assert tokens[1..] == tail;
      OptionReadsBack(name, Text(text), tail, before.options);
      ParseReads(tokens, before, Read(name, Text(text), false));
    case Spaced(name, text) =>
      assert tokens[1..] == [text] + tail && tokens[2..] == tail;
      SpacedOptionReads(name, text, tail, before.options);
      ParseReads(tokens, before, Read(name, Text(text), true));
    case Operand(word) =>
      LeadReads([word], tail, before);
  }

  lemma {:induction false} PiecesParse(pieces: seq<Piece>, tail: seq<string>, before: Parsed)
    requires Sound(pieces, before)
    ensures Parse(Spell(pieces) + tail, true, before) == Parse(tail, true, SaidAll(pieces, before))
    decreases |pieces|
  {
    hide Parse, Good, Said, TokensOf;
    if pieces == [] {
      assert Spell(pieces) + tail == tail;
    } else {
      assert Spell(pieces) + tail == TokensOf(pieces[0]) + (Spell(pieces[1..]) + tail);
      PieceParses(pieces[0], Spell(pieces[1..]) + tail, before);
      PiecesParse(pieces[1..], tail, Said(pieces[0], before));
    }
  }

  lemma SentenceParses(s: Sentence, before: Parsed)
    requires Sound(s.pieces, before)
    ensures Parse(Spell(s.pieces) + Tail(s.rest), true, before) == Ok(Meaning(s, before))
  {
    hide Parse, Sound, Spell, SaidAll;
    var said := SaidAll(s.pieces, before);
    PiecesParse(s.pieces, Tail(s.rest), before);
    if s.rest.Some? {
      TerminatorReads(s.rest.value, said);
      PositionalsReadBack(s.rest.value, said);
    } else {
      ParseNothing(said);
    }
  }

  // ----- everything that parses is a sentence

  /** An option token taken apart at its first `=`. */
  lemma TokenParts(token: string)
    requires Dashed(token)
    ensures var i := IndexOf(token, '=');
            && 2 <= i && '=' !in token[2..i]
            && (i == |token| ==> token == "--" + token[2..i])
            && (i < |token| ==> token == "--" + token[2..i] + "=" + token[i + 1..])
  {
    hide IndexOf;
    var i := IndexOf(token, '=');
    var dashes := "--";
    assert dashes[0] == '-' && dashes[1] == '-' && token[0] == dashes[0] && token[1] == dashes[1];
    Apart(token, i);
  }

  lemma Apart(token: string, i: nat)
    requires "--" <= token && 2 <= i <= |token| && (i < |token| ==> token[i] == '=')
    ensures i == |token| ==> token == "--" + token[2..i]
    ensures i < |token| ==> token == "--" + token[2..i] + "=" + token[i + 1..]
  {
    assert token[..2] == "--";
    if i < |token| {
      assert token == token[..2] + token[2..i] + token[i..i + 1] + token[i + 1..];
      assert token[i..i + 1] == "=";
    }
  }

  /** The piece at the head of a command line whose first token is not refused. */
  lemma PieceAhead(argv: seq<string>, before: Parsed) returns (p: Piece, tail: seq<string>)
    requires argv != [] && argv[0] != "--"
    requires Dashed(argv[0]) ==> ReadOption(argv[0], argv[1..], before.options).Ok?
    ensures argv == TokensOf(p) + tail && |tail| < |argv| && Good(p)
    ensures !p.Operand? ==> p.name !in before.options
    ensures Parse(argv, true, before) == Parse(tail, true, Said(p, before))
  {
    hide BOOLEAN_OPTIONS, VALUE_OPTIONS, IsOptionName;
    if Dashed(argv[0]) {
      TokenParts(argv[0]);
      var r := ReadOption(argv[0], argv[1..], before.options).value;
      if r.skip {
        p, tail := Spaced(r.name, r.value.text), argv[2..];
        assert argv[0] == "--" + r.name && argv[1] == r.value.text;
        assert argv == [argv[0], argv[1]] + tail;
      } else {
        p, tail := if r.value.Flag? then Switch(r.name) else Joined(r.name, r.value.text), argv[1..];
        assert argv[0] == "--" + r.name + (if r.value.Flag? then "" else "=" + r.value.text);
        assert argv == [argv[0]] + tail;
      }
    } else {
      p, tail := Operand(argv[0]), argv[1..];
      assert argv == [argv[0]] + tail;
    }
  }

  lemma {:induction false} ParsedIsSentence(argv: seq<string>, before: Parsed) returns (s: Sentence)
    requires Parse(argv, true, before).Ok?
    ensures Sound(s.pieces, before) && argv == Spell(s.pieces) + Tail(s.rest)
    decreases |argv|
  {
    hide Parse, Good, Said, TokensOf, ReadOption;
    if argv == [] {
      s := Sentence([], None);
    } else if argv[0] == "--" {
      s := Sentence([], Some(argv[1..]));
      assert argv == Tail(s.rest);
    } else {
      if Dashed(argv[0]) && ReadOption(argv[0], argv[1..], before.options).Err? {
        ParseRefuses(argv, before, ReadOption(argv[0], argv[1..], before.options).error);
        assert false;
      }
      var p, tail := PieceAhead(argv, before);
      var rest := ParsedIsSentence(tail, Said(p, before));
      s := Sentence([p] + rest.pieces, rest.rest);
      assert s.pieces[1..] == rest.pieces;
    }
  }

  const NOTHING := Parsed(map[], [])

  /** A sentence of the grammar that spells the command line and means the invocation. */
  predicate Expresses(s: Sentence, argv: seq<string>, inv: Invocation) {
    && Sound(s.pieces, NOTHING) && argv == Spell(s.pieces) + Tail(s.rest)
    && inv == ToInvocation(Meaning(s, NOTHING))
  }

  /** The parser accepts exactly the sentences of the grammar, and returns what they mean. */
  lemma ParsesIffSentence(argv: seq<string>, inv: Invocation)
    ensures ParseAll(argv) == Ok(inv) <==> exists s :: Expresses(s, argv, inv)
  {
    hide Parse, Sound, Spell, Meaning;
    if ParseAll(argv).Ok? {
      var s := ParsedIsSentence(argv, NOTHING);
      SentenceParses(s, NOTHING);
      assert Expresses(s, argv, ParseAll(argv).value);
    }
    if s :| Expresses(s, argv, inv) {
      SentenceParses(s, NOTHING);
    }
  }

  // ----- what is refused, and why

  /** The option token that a name and perhaps a value after `=` make. */
  function OptionSpelled(name: string, text: Option<string>): string {
    "--" + name + (if text.Some? then "=" + text.value else "")
  }

  /** The reason an option is refused where it stands, in the order the reasons are looked for. */
  function Refusal(name: string, text: Option<string>, rest: seq<string>, given: set<string>): Option<UsageError> {
    if !IsOptionName(name) then Some(InvalidOption)
    else if name in given then Some(DuplicateOption)
    else if name !in BOOLEAN_OPTIONS + VALUE_OPTIONS then Some(UnknownOption)
    else if name in BOOLEAN_OPTIONS then if text.Some? then Some(TakesNoValue) else None
    else if text == Some("") || (text.None? && (rest == [] || rest[0] == "" || Dashed(rest[0]))) then
      Some(RequiresValue)
    else None
  }

  /** After a sound part, the command line comes to an option that is refused for this reason. */
  predicate RefusedAt(argv: seq<string>, pieces: seq<Piece>, name: string, text: Option<string>, rest: seq<string>,
                      e: UsageError) {
    && Sound(pieces, NOTHING) && '=' !in name && OptionSpelled(name, text) != "--"
    && argv == Spell(pieces) + [OptionSpelled(name, text)] + rest
    && Refusal(name, text, rest, SaidAll(pieces, NOTHING).options.Keys) == Some(e)
  }

  lemma IndexOfSpelled(name: string, text: Option<string>)
    requires '=' !in name
    ensures var token := OptionSpelled(name, text);
            && Dashed(token) && IndexOf(token, '=') == 2 + |name| && token[2..2 + |name|] == name
            && (text.Some? <==> 2 + |name| < |token|)
            && (text.Some? ==> token[2 + |name| + 1..] == text.value)
  {
    var token := OptionSpelled(name, text);
    assert forall i | 2 <= i < 2 + |name| :: token[i] == name[i - 2];
    assert token[2..2 + |name|] == name;
    if text.Some? {
      assert token[2 + |name|] == '=' && token[2 + |name| + 1..] == text.value;
    }
  }

  lemma RefusalIsRead(name: string, text: Option<string>, rest: seq<string>, options: map<string, OptionValue>,
                      e: UsageError)
    requires '=' !in name
    ensures Dashed(OptionSpelled(name, text))
    ensures ReadOption(OptionSpelled(name, text), rest, options) == Err(e) <==>
            Refusal(name, text, rest, options.Keys) == Some(e)
  {
    hide BOOLEAN_OPTIONS, VALUE_OPTIONS, IsOptionName, OptionSpelled;
    IndexOfSpelled(name, text);
  }

  lemma {:induction false} RefusedHasPlace(argv: seq<string>, before: Parsed, e: UsageError)
    returns (pieces: seq<Piece>, name: string, text: Option<string>, rest: seq<string>)
    requires Parse(argv, true, before) == Err(e)
    ensures Sound(pieces, before) && '=' !in name && OptionSpelled(name, text) != "--"
    ensures argv == Spell(pieces) + [OptionSpelled(name, text)] + rest
    ensures Refusal(name, text, rest, SaidAll(pieces, before).options.Keys) == Some(e)
    decreases |argv|
  {
    hide Good, TokensOf, BOOLEAN_OPTIONS, VALUE_OPTIONS, IsOptionName, ReadOption, Refusal;
    if argv[0] == "--" {
      PositionalsReadBack(argv[1..], before);
      assert false;
    } else if Dashed(argv[0]) && ReadOption(argv[0], argv[1..], before.options).Err? {
      TokenParts(argv[0]);
      var i := IndexOf(argv[0], '=');
      pieces, name, rest := [], argv[0][2..i], argv[1..];
      text := if i < |argv[0]| then Some(argv[0][i + 1..]) else None;
      assert argv[0] == OptionSpelled(name, text);
      RefusalIsRead(name, text, rest, before.options, e);
    } else {
      var p, tail := PieceAhead(argv, before);
      pieces, name, text, rest := RefusedHasPlace(tail, Said(p, before), e);
      assert ([p] + pieces)[1..] == pieces;
      pieces := [p] + pieces;
      assert Spell(pieces) == TokensOf(p) + Spell(pieces[1..]);
    }
  }

  /** Exactly which command lines are refused, and with which error. */
  lemma RefusedIff(argv: seq<string>, e: UsageError)
    ensures ParseAll(argv) == Err(e) <==>
            exists pieces, name, text, rest :: RefusedAt(argv, pieces, name, text, rest, e)
  {
    hide Parse, Sound, Spell, Refusal, ReadOption, OptionSpelled, SaidAll;
    if ParseAll(argv) == Err(e) {
      var pieces, name, text, rest := RefusedHasPlace(argv, NOTHING, e);
      assert RefusedAt(argv, pieces, name, text, rest, e);
    }
    if pieces, name, text, rest :| RefusedAt(argv, pieces, name, text, rest, e) {
      var token := OptionSpelled(name, text);
      var said := SaidAll(pieces, NOTHING);
      assert argv == Spell(pieces) + ([token] + rest);
      PiecesParse(pieces, [token] + rest, NOTHING);
      RefusalIsRead(name, text, rest, said.options, e);
      assert ([token] + rest)[1..] == rest;
      ParseRefuses([token] + rest, said, e);
    }
  }
}
