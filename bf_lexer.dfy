/**
 * The Brainfuck front end: PreLex strips a source text down to the eight
 * command characters, and Lex turns a text into the commands it contains.
 * Texts are sequences of runes.
 */
module BfLexer {

  /** The commands. In the source each is the rune it is written with, and
      Ignore is the space. */
  datatype Command = Increment | Decrement | Left | Right | Output | Input | LoopStart | LoopEnd | Ignore
  {
    /** The rune the command stands for. */
    function Rune(): char
    {
      match this
      case Increment => '+'
      case Decrement => '-'
      case Left => '<'
      case Right => '>'
      case Output => '.'
      case Input => ','
      case LoopStart => '['
      case LoopEnd => ']'
      case Ignore => ' '
    }

    /** Compares two commands by their runes: exactly command equality. */
    predicate Compare(other: Command)
      ensures Compare(other) <==> this == other
    {
      Rune() == other.Rune()
    }

    /** The text of a command; Ignore is rendered as a space. */
    function String(): (s: string)
      ensures s == [Rune()]
    {
      match this
      case Increment => "+"
      case Decrement => "-"
      case Left => "<"
      case Right => ">"
      case Output => "."
      case Input => ","
      case LoopStart => "["
      case LoopEnd => "]"
      case Ignore => " "
    }
  }

  predicate IsCommandChar(c: char)
  {
    c == '+' || c == '-' || c == '>' || c == '<' || c == '.' || c == ',' || c == '[' || c == ']'
  }

  /** The command a rune stands for; every other rune is Ignore. */
  function Parse(c: char): (cmd: Command)
    ensures cmd != Ignore <==> IsCommandChar(c)
    ensures cmd != Ignore ==> cmd.Rune() == c
  {
    match c
    case '+' => Increment
    case '-' => Decrement
    case '>' => Right
    case '<' => Left
    case '.' => Output
    case ',' => Input
    case '[' => LoopStart
    case ']' => LoopEnd
    case _ => Ignore
  }

  /** Rendering a parsed rune gives the rune back for a command and a space otherwise. */
  lemma StringOfParse(c: char)
    ensures Parse(c).String() == if IsCommandChar(c) then [c] else " "
  {
  }

  /** Parsing the rune of a command other than Ignore gives the command back. */
  lemma ParseOfRune(cmd: Command)
    requires cmd != Ignore
    ensures Parse(cmd.Rune()) == cmd
  {
  }

  /** The command characters of `s`, in order. */
  function PreLex(s: string): (r: string)
    ensures |r| <= |s|
    ensures forall i :: 0 <= i < |r| ==> IsCommandChar(r[i])
  {
    if s == [] then []
    else (if IsCommandChar(s[0]) then [s[0]] else []) + PreLex(s[1..])
  }

  lemma {:induction false} PreLexAppend(s: string, t: string)
    ensures PreLex(s + t) == PreLex(s) + PreLex(t)
  {
    if s != [] {
      assert (s + t)[1..] == s[1..] + t;
      PreLexAppend(s[1..], t);
    } else {
      assert s + t == t;
    }
  }

  /** Every command character is kept as often as it occurs, every other character dropped. */
  lemma {:induction false} PreLexCounts(s: string, c: char)
    ensures multiset(PreLex(s))[c] == if IsCommandChar(c) then multiset(s)[c] else 0
  {
    if s != [] {
      PreLexCounts(s[1..], c);
      assert s == [s[0]] + s[1..];
    }
  }

  /** A text made of command characters only is left as it is. */
  lemma {:induction false} PreLexOfCommands(s: string)
    requires forall i :: 0 <= i < |s| ==> IsCommandChar(s[i])
    ensures PreLex(s) == s
  {
    if s != [] {
      PreLexOfCommands(s[1..]);
    }
  }

  lemma PreLexIdempotent(s: string)
    ensures PreLex(PreLex(s)) == PreLex(s)
  {
    PreLexOfCommands(PreLex(s));
  }

  /** A text without command characters is dropped entirely. */
  lemma {:induction false} PreLexOfNonCommands(s: string)
    requires forall i :: 0 <= i < |s| ==> !IsCommandChar(s[i])
    ensures PreLex(s) == []
  {
    if s != [] {
      PreLexOfNonCommands(s[1..]);
    }
  }

  /** The commands of a text, skipping every rune that parses to Ignore. */
  function LexRunes(s: string): (cmds: seq<Command>)
    ensures |cmds| <= |s|
    ensures forall i :: 0 <= i < |cmds| ==> cmds[i] != Ignore && cmds[i].Rune() in s
  {
    if s == [] then []
    else
      var cmd := Parse(s[0]);
      (if cmd != Ignore then [cmd] else []) + LexRunes(s[1..])
  }

  /** A lexer over one text. */
  datatype Lexer = Lexer(chars: string)
  {
    /** The commands of the lexer's text: never Ignore, each one written in the text. */
    function Lex(): (cmds: seq<Command>)
      ensures |cmds| <= |chars|
      ensures forall i :: 0 <= i < |cmds| ==> cmds[i] != Ignore && cmds[i].Rune() in chars
    {
      LexRunes(chars)
    }
  }

  /** A lexer over `input`, which lexes to the commands of `input`. */
  function NewLexer(input: string): (l: Lexer)
    ensures l.chars == input
    ensures l.Lex() == LexRunes(input)
  {
    Lexer(input)
  }

  /** The commands of `input`: never Ignore, each one written in `input`. */
  function Lex(input: string): (cmds: seq<Command>)
    ensures |cmds| <= |input|
    ensures forall i :: 0 <= i < |cmds| ==> cmds[i] != Ignore && cmds[i].Rune() in input
  {
    NewLexer(input).Lex()
  }

  /** Lex emits one command per command character, in order, never Ignore. */
  lemma {:induction false} LexIsParsedPreLex(s: string)
    ensures |Lex(s)| == |PreLex(s)|
    ensures forall i :: 0 <= i < |Lex(s)| ==> Lex(s)[i] == Parse(PreLex(s)[i]) && Lex(s)[i] != Ignore
  {
    if s != [] {
      LexIsParsedPreLex(s[1..]);
    }
  }

  /** Pre-lexing never changes the commands. */
  lemma LexOfPreLex(s: string)
    ensures Lex(PreLex(s)) == Lex(s)
  {
    LexIsParsedPreLex(s);
    LexIsParsedPreLex(PreLex(s));
    PreLexIdempotent(s);
  }

  /** The text of a sequence of commands. */
  function Render(cmds: seq<Command>): (s: string)
    ensures |s| == |cmds|
  {
    if cmds == [] then [] else cmds[0].String() + Render(cmds[1..])
  }

  /** Rendering the commands of a text gives back its command characters. */
  lemma {:induction false} RenderLex(s: string)
    ensures Render(Lex(s)) == PreLex(s)
  {
    if s != [] {
      RenderLex(s[1..]);
      if IsCommandChar(s[0]) {
        var cmds := LexRunes(s);
        assert cmds == [Parse(s[0])] + LexRunes(s[1..]);
        assert cmds[0] == Parse(s[0]) && cmds[1..] == LexRunes(s[1..]);
        assert Render(cmds) == cmds[0].String() + Render(cmds[1..]);
      } else {
        assert LexRunes(s) == LexRunes(s[1..]);
      }
    }
  }

  /** Lexing the text of commands other than Ignore gives them back. */
  lemma {:induction false} LexRender(cmds: seq<Command>)
    requires forall i :: 0 <= i < |cmds| ==> cmds[i] != Ignore
    ensures Lex(Render(cmds)) == cmds
  {
    if cmds != [] {
      LexRender(cmds[1..]);
      var s := Render(cmds);
      assert s == [cmds[0].Rune()] + Render(cmds[1..]);
      assert s[1..] == Render(cmds[1..]);
      ParseOfRune(cmds[0]);
    }
  }

  /** The example of the lexer's tests. */
  lemma LexExample()
    ensures Lex("+-<>.,[]") == [Increment, Decrement, Left, Right, Output, Input, LoopStart, LoopEnd]
  {
    var cmds := [Increment, Decrement, Left, Right, Output, Input, LoopStart, LoopEnd];
    assert Render(cmds) == "+-<>.,[]";
    LexRender(cmds);
  }
}
