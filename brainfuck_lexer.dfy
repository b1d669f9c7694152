/**
 * The second, older copy of the Brainfuck lexer kept with the standalone
 * interpreter. It has its own Command type, no Compare and no package-level
 * Lex; it is proved to agree with BfLexer on every text.
 */
module BrainfuckLexer {
  import BfLexer

  datatype Command = Increment | Decrement | Left | Right | Output | Input | LoopStart | LoopEnd | Ignore
  {
    /** The text of a command; Ignore is rendered as a space. */
    function String(): (s: string)
      ensures |s| == 1
      ensures s == " " <==> this == Ignore
    {
      match this
      case Increment => "+"
      case Decrement => "-"
      case Left => "<"
      case Right => ">"
      case Output => "."
      case Input => ","
      case LoopStart => "["
      case LoopEnd => "]"
      case Ignore => " "
    }
  }

  /** The command characters of `s`, in order. */
  function PreLex(s: string): (r: string)
    ensures r == BfLexer.PreLex(s)
  {
    if s == [] then []
    else
      var c := s[0];
      (if c == '+' || c == '-' || c == '>' || c == '<' || c == '.' || c == ',' || c == '[' || c == ']' then [c] else [])
      + PreLex(s[1..])
  }

  /** The command a rune stands for; every other rune is Ignore. */
  function Parse(c: char): (cmd: Command)
    ensures cmd != Ignore <==> BfLexer.IsCommandChar(c)
    ensures cmd.String() == if BfLexer.IsCommandChar(c) then [c] else " "
  {
    match c
    case '+' => Increment
    case '-' => Decrement
    case '>' => Right
    case '<' => Left
    case '.' => Output
    case ',' => Input
    case '[' => LoopStart
    case ']' => LoopEnd
    case _ => Ignore
  }

  /** The same command in BfLexer's type. */
  function ToBf(cmd: Command): (r: BfLexer.Command)
    ensures r.String() == cmd.String()
  {
    match cmd
    case Increment => BfLexer.Increment
    case Decrement => BfLexer.Decrement
    case Left => BfLexer.Left
    case Right => BfLexer.Right
    case Output => BfLexer.Output
    case Input => BfLexer.Input
    case LoopStart => BfLexer.LoopStart
    case LoopEnd => BfLexer.LoopEnd
    case Ignore => BfLexer.Ignore
  }

  /** Both parsers read every rune as the same command. */
  lemma ParseAgrees(c: char)
    ensures ToBf(Parse(c)) == BfLexer.Parse(c)
  {
  }

  /** The commands of a text, skipping every rune that parses to Ignore. */
  function LexRunes(s: string): (cmds: seq<Command>)
    ensures |cmds| <= |s|
    ensures forall i :: 0 <= i < |cmds| ==> cmds[i] != Ignore && cmds[i].String()[0] in s
  {
    if s == [] then []
    else
      var cmd := Parse(s[0]);
      (if cmd != Ignore then [cmd] else []) + LexRunes(s[1..])
  }

  /** A lexer over one text. */
  datatype Lexer = Lexer(chars: string)
  {
    /** The commands of the lexer's text: never Ignore, each one written in the text. */
    function Lex(): (cmds: seq<Command>)
      ensures |cmds| <= |chars|
      ensures forall i :: 0 <= i < |cmds| ==> cmds[i] != Ignore && cmds[i].String()[0] in chars
    {
      LexRunes(chars)
    }
  }

  /** A lexer over `input`, which lexes to the commands of `input`. */
  function NewLexer(input: string): (l: Lexer)
    ensures l.chars == input
    ensures l.Lex() == LexRunes(input)
  {
    Lexer(input)
  }

  function ToBfAll(cmds: seq<Command>): (r: seq<BfLexer.Command>)
    ensures |r| == |cmds|
    ensures forall i :: 0 <= i < |cmds| ==> r[i] == ToBf(cmds[i])
  {
    if cmds == [] then [] else [ToBf(cmds[0])] + ToBfAll(cmds[1..])
  }

  /** The two lexers produce the same commands from every text. */
  lemma {:induction false} LexAgrees(s: string)
    ensures ToBfAll(NewLexer(s).Lex()) == BfLexer.Lex(s)
  {
    if s != [] {
      LexAgrees(s[1..]);
      ParseAgrees(s[0]);
      var mine := LexRunes(s);
      var theirs := BfLexer.LexRunes(s);
      if Parse(s[0]) != Ignore {
        assert mine == [Parse(s[0])] + LexRunes(s[1..]);
        assert theirs == [BfLexer.Parse(s[0])] + BfLexer.LexRunes(s[1..]);
      } else {
        assert mine == LexRunes(s[1..]);
        assert theirs == BfLexer.LexRunes(s[1..]);
      }
    }
  }
}
