/**
 * BIansi.py: builders for ECMA-48 control sequences, each a control
 * sequence introducer ESC '[', parameters joined by ';', and a final
 * character.
 */
module Ansi {
  import opened Runtime
  import opened Strings
  import Text

  /** `ESCAPE`: the control sequence introducer. */
  const Escape: string := [Text.ESC, '[']

  /** An argument of `esc`: a number or a string, printed with `str`. */
  datatype Arg = Num(n: int) | Word(w: string)

  function Str(a: Arg): string
  {
    match a
    case Num(n) => IntToString(n)
    case Word(w) => w
  }

  /** `[str(a) for a in args]`. */
  function Strs(args: seq<Arg>): (r: seq<string>)
    ensures |r| == |args| && forall i :: 0 <= i < |args| ==> r[i] == Str(args[i])
  {
    if args == [] then [] else [Str(args[0])] + Strs(args[1..])
  }

  /** `esc(code, *args)`: the introducer, the arguments joined by ';', then `code`. */
  function Esc(code: string, args: seq<Arg>): (r: string)
    ensures |r| >= |Escape| + |code|
    ensures r[..|Escape|] == Escape && r[|r| - |code|..] == code
  {
    Escape + Join(Strs(args), ";") + code
  }

  // ---------------------------------------------------------------------
  // Reading a control sequence back

  /** A control sequence taken apart: its parameters and its final character. */
  datatype Sequence = Sequence(params: seq<string>, final: char)

  /** The parameters and final character of `s`, if `s` is an introducer, parameters and a final character. */
  function Parse(s: string): Option<Sequence>
  {
    if |s| < |Escape| + 1 || s[..|Escape|] != Escape then None
    else
      var middle := s[|Escape|..|s| - 1];
      Some(Sequence(if middle == "" then [] else Split(middle, ';'), s[|s| - 1]))
  }

  /** Arguments that print as non-empty, ';'-free text, as all of the helpers' arguments do. */
  predicate Plain(args: seq<Arg>)
  {
    forall i :: 0 <= i < |args| ==> Str(args[i]) != "" && ';' !in Str(args[i])
  }

  /** A number prints as a non-empty run of digits and '-', with no ';'. */
  lemma NumIsPlain(n: int)
    ensures Str(Num(n)) != "" && ';' !in Str(Num(n))
  {
    IntToStringValue(n);
    var r := IntToString(n);
    assert forall k :: 0 <= k < |r| ==> r[k] != ';';
  }

  /** Every sequence `esc` builds with a one-character code reads back as its arguments and code. */
  lemma EscParses(code: char, args: seq<Arg>)
    requires Plain(args)
    ensures Parse(Esc([code], args)) == Some(Sequence(Strs(args), code))
  {
    var ps := Strs(args);
    var s := Esc([code], args);
    var middle := Join(ps, ";");
    assert s == Escape + middle + [code];
    assert s[|Escape|..|s| - 1] == middle;
    if ps != [] {
      assert |Join(ps, ";")| >= |ps[0]| > 0 by {
        if |ps| > 1 {
          assert Join(ps, ";") == ps[0] + ";" + Join(ps[1..], ";");
        }
      }
      SplitJoin(ps, ';');
    }
  }

  /** A sequence with one number reads back as that number and its code. */
  lemma NumberParses(code: char, n: int)
    ensures Parse(Esc([code], [Num(n)])) == Some(Sequence([IntToString(n)], code))
  {
    NumIsPlain(n);
    EscParses(code, [Num(n)]);
    assert Strs([Num(n)]) == [IntToString(n)];
  }

  // ---------------------------------------------------------------------
  // The helpers

  /** `home()`: cursor to the top left corner. */
  function Home(): string
  {
    Esc("H", [])
  }

  /** `goto(line, col)`. */
  function Goto(line: int, col: int): string
  {
    Esc("H", [Num(line), Num(col)])
  }

  /** `up(lines)`. */
  function Up(lines: int): string
  {
    Esc("A", [Num(lines)])
  }

  /** `down(lines)`. */
  function Down(lines: int): string
  {
    Esc("B", [Num(lines)])
  }

  /** `left(cols)` as written: final character 'C'. */
  function Left(cols: int): string
  {
    Esc("C", [Num(cols)])
  }

  /** `right(cols)` as written: final character 'D'. */
  function Right(cols: int): string
  {
    Esc("D", [Num(cols)])
  }

  /** `begOfNextLine(lines)`; the Python code's default is one line. */
  function BegOfNextLine(lines: int): string
  {
    Esc("E", [Num(lines)])
  }

  /** `endOfPreviousLine(lines)`; the Python code's default is one line. */
  function EndOfPreviousLine(lines: int): string
  {
    Esc("F", [Num(lines)])
  }

  /** `goToColumn(col)`. */
  function GoToColumn(col: int): string
  {
    Esc("G", [Num(col)])
  }

  /** `reportPosition(line, col)`. */
  function ReportPosition(line: int, col: int): string
  {
    Esc("R", [Num(line), Num(col)])
  }

  /** `savePosition()`. */
  function SavePosition(): string
  {
    Esc("s", [])
  }

  /** `restorePosition()`. */
  function RestorePosition(): string
  {
    Esc("u", [])
  }

  /** `clearScreen()`. */
  function ClearScreen(): string
  {
    Esc("J", [Num(2)])
  }

  /** `clearToEOS()`. */
  function ClearToEOS(): string
  {
    Esc("J", [Num(0)])
  }

  /** `clearFromBOS()`. */
  function ClearFromBOS(): string
  {
    Esc("J", [Num(1)])
  }

  /** `clearLine()`. */
  function ClearLine(): string
  {
    Esc("K", [])
  }

  /** `clearToEOL()`. */
  function ClearToEOL(): string
  {
    Esc("K", [Num(0)])
  }

  /** `clearFromBOL()`. */
  function ClearFromBOL(): string
  {
    Esc("K", [Num(1)])
  }

  /** `setMode(mode)`. */
  function SetMode(mode: int): string
  {
    Esc("h", [Word("=" + IntToString(mode))])
  }

  /** `cursorOff()`. */
  function CursorOff(): string
  {
    Esc("l", [Word("?25")])
  }

  /** `cursorOn()`. */
  function CursorOn(): string
  {
    Esc("h", [Word("?25")])
  }

  /** `saveScreen()`. */
  function SaveScreen(): string
  {
    Esc("h", [Word("?47")])
  }

  /** `restoreScreen()`. */
  function RestoreScreen(): string
  {
    Esc("l", [Word("?47")])
  }

  /** `esc` with one argument prints that argument between the introducer and the code. */
  lemma EscOne(code: string, a: Arg)
    ensures Esc(code, [a]) == Escape + Str(a) + code
  {
    assert Strs([a]) == [Str(a)];
  }

  /** What the cursor helpers that take no count print. */
  lemma CursorStrings(line: int, col: int)
    ensures Home() == Escape + "H"
    ensures Goto(line, col) == Escape + IntToString(line) + ";" + IntToString(col) + "H"
    ensures SavePosition() == Escape + "s" && RestorePosition() == Escape + "u"
  {
    var a, b := IntToString(line), IntToString(col);
    assert Strs([Num(line), Num(col)]) == [a, b];
    assert Join([a, b], ";") == a + ";" + b by { assert [a, b][1..] == [b]; }
    assert Goto(line, col) == Escape + (a + ";" + b) + "H";
    assert Escape + (a + ";" + b) + "H" == Escape + a + ";" + b + "H";
  }

  /** What the erase helpers print. */
  lemma EraseStrings()
    ensures ClearScreen() == Escape + "2J" && ClearToEOS() == Escape + "0J" && ClearFromBOS() == Escape + "1J"
    ensures ClearLine() == Escape + "K" && ClearToEOL() == Escape + "0K" && ClearFromBOL() == Escape + "1K"
  {
    EscOne("J", Num(2)); EscOne("J", Num(0)); EscOne("J", Num(1));
    EscOne("K", Num(0)); EscOne("K", Num(1));
  }

  /** What the mode helpers print. */
  lemma ModeStrings(mode: int)
    ensures SetMode(mode) == Escape + "=" + IntToString(mode) + "h"
    ensures CursorOff() == Escape + "?25l" && CursorOn() == Escape + "?25h"
    ensures SaveScreen() == Escape + "?47h" && RestoreScreen() == Escape + "?47l"
  {
    EscOne("h", Word("=" + IntToString(mode)));
    EscOne("l", Word("?25")); EscOne("h", Word("?25"));
    EscOne("h", Word("?47")); EscOne("l", Word("?47"));
  }

  // ---------------------------------------------------------------------
  // The control functions of ECMA-48 the helpers stand for

  /** Control functions of ECMA-48 (5th edition, section 8.3). */
  datatype Control =
    | CUU  // cursor up
    | CUD  // cursor down
    | CUF  // cursor right (section 8.3.20)
    | CUB  // cursor left (section 8.3.18)
    | CNL  // cursor next line
    | CPL  // cursor preceding line
    | CHA  // cursor character absolute
    | CUP  // cursor position
    | CPR  // active position report
    | ED   // erase in page
    | EL   // erase in line
    | SM   // set mode
    | RM   // reset mode

  /** The final character of each control function, as the standard assigns it. */
  function Final(c: Control): char
  {
    match c
    case CUU => 'A'
    case CUD => 'B'
    case CUF => 'C'
    case CUB => 'D'
    case CNL => 'E'
    case CPL => 'F'
    case CHA => 'G'
    case CUP => 'H'
    case CPR => 'R'
    case ED => 'J'
    case EL => 'K'
    case SM => 'h'
    case RM => 'l'
  }

  /** The control sequence for `c` with parameters `params`. */
  function ControlSequence(c: Control, params: seq<string>): string
  {
    Escape + Join(params, ";") + [Final(c)]
  }

  /** Up, down, next and preceding line, column and position follow the standard. */
  lemma CursorHelpersFollowStandard(n: int, line: int, col: int)
    ensures Up(n) == ControlSequence(CUU, [IntToString(n)])
    ensures Down(n) == ControlSequence(CUD, [IntToString(n)])
    ensures BegOfNextLine(n) == ControlSequence(CNL, [IntToString(n)])
    ensures EndOfPreviousLine(n) == ControlSequence(CPL, [IntToString(n)])
    ensures GoToColumn(col) == ControlSequence(CHA, [IntToString(col)])
    ensures Goto(line, col) == ControlSequence(CUP, [IntToString(line), IntToString(col)])
    ensures ReportPosition(line, col) == ControlSequence(CPR, [IntToString(line), IntToString(col)])
  {
  }

  /** The erase and mode helpers follow the standard. */
  lemma EraseAndModeHelpersFollowStandard(mode: int)
    ensures ClearScreen() == ControlSequence(ED, ["2"]) && ClearToEOS() == ControlSequence(ED, ["0"]) && ClearFromBOS() == ControlSequence(ED, ["1"])
    ensures ClearLine() == ControlSequence(EL, []) && ClearToEOL() == ControlSequence(EL, ["0"]) && ClearFromBOL() == ControlSequence(EL, ["1"])
    ensures SetMode(mode) == ControlSequence(SM, ["=" + IntToString(mode)])
    ensures CursorOn() == ControlSequence(SM, ["?25"]) && CursorOff() == ControlSequence(RM, ["?25"])
    ensures SaveScreen() == ControlSequence(SM, ["?47"]) && RestoreScreen() == ControlSequence(RM, ["?47"])
  {
  }

  /**
   * `left` and `right` are swapped: `left` is the standard's cursor right
   * and `right` its cursor left.
   */
  lemma LeftRightSwapped(n: int)
    ensures Left(n) == ControlSequence(CUF, [IntToString(n)]) && Left(n) != ControlSequence(CUB, [IntToString(n)])
    ensures Right(n) == ControlSequence(CUB, [IntToString(n)]) && Right(n) != ControlSequence(CUF, [IntToString(n)])
  {
    var l, r := Left(n), Right(n);
    assert l[|l| - 1] == 'C' && ControlSequence(CUB, [IntToString(n)])[|l| - 1] == 'D';
    assert r[|r| - 1] == 'D' && ControlSequence(CUF, [IntToString(n)])[|r| - 1] == 'C';
  }

  /** Cursor left as the standard defines it: CUB, final character 'D'. */
  function CursorLeft(cols: int): (r: string)
    ensures r == ControlSequence(CUB, [IntToString(cols)])
    ensures Parse(r) == Some(Sequence([IntToString(cols)], 'D'))
  {
    NumberParses('D', cols);
    Esc("D", [Num(cols)])
  }

  /** Cursor right as the standard defines it: CUF, final character 'C'. */
  function CursorRight(cols: int): (r: string)
    ensures r == ControlSequence(CUF, [IntToString(cols)])
    ensures Parse(r) == Some(Sequence([IntToString(cols)], 'C'))
  {
    NumberParses('C', cols);
    Esc("C", [Num(cols)])
  }

  /** The cursor movements read back as their final character and their count. */
  lemma CursorMovesParse(n: int)
    ensures Parse(Up(n)) == Some(Sequence([IntToString(n)], 'A'))
    ensures Parse(Down(n)) == Some(Sequence([IntToString(n)], 'B'))
    ensures Parse(Left(n)) == Some(Sequence([IntToString(n)], 'C'))
    ensures Parse(Right(n)) == Some(Sequence([IntToString(n)], 'D'))
    ensures Parse(BegOfNextLine(n)) == Some(Sequence([IntToString(n)], 'E'))
    ensures Parse(EndOfPreviousLine(n)) == Some(Sequence([IntToString(n)], 'F'))
    ensures Parse(GoToColumn(n)) == Some(Sequence([IntToString(n)], 'G'))
  {
    NumberParses('A', n);
    NumberParses('B', n);
    NumberParses('C', n);
    NumberParses('D', n);
    NumberParses('E', n);
    NumberParses('F', n);
    NumberParses('G', n);
  }

  /** The positioning helpers read back as their final character and their numbers, if any. */
  lemma PositionHelpersParse(line: int, col: int)
    ensures Parse(Goto(line, col)) == Some(Sequence([IntToString(line), IntToString(col)], 'H'))
    ensures Parse(ReportPosition(line, col)) == Some(Sequence([IntToString(line), IntToString(col)], 'R'))
    ensures Parse(Home()) == Some(Sequence([], 'H'))
    ensures Parse(SavePosition()) == Some(Sequence([], 's'))
    ensures Parse(RestorePosition()) == Some(Sequence([], 'u'))
  {
    PairParses('H', line, col);
    PairParses('R', line, col);
    EscParses('H', []);
    EscParses('s', []);
    EscParses('u', []);
  }

  /** A sequence with two numbers reads back as those numbers and its code. */
  lemma PairParses(code: char, x: int, y: int)
    ensures Parse(Esc([code], [Num(x), Num(y)])) == Some(Sequence([IntToString(x), IntToString(y)], code))
  {
    NumIsPlain(x);
    NumIsPlain(y);
    EscParses(code, [Num(x), Num(y)]);
    assert Strs([Num(x), Num(y)]) == [IntToString(x), IntToString(y)];
  }
}
