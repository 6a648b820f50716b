/**
 * BItext.py, first half: colouring a string with ANSI select-graphic-rendition
 * sequences (ECMA-48, section 8.3.117), the visible length of a string that
 * may contain such sequences, and colour names.
 */
module Text {
  import opened Runtime
  import opened Strings

  /** The escape character that introduces a control sequence. */
  const ESC: char := '\U{1B}'

  // ---------------------------------------------------------------------
  // Visible length: `len`

  /** What follows an escape run: everything after the first 'm' (nothing if there is none). */
  function AfterRun(s: string): (r: string)
    ensures |r| <= |s| && r == s[|s| - |r|..]
  {
    if |s| == 0 then s else if s[0] == 'm' then s[1..] else AfterRun(s[1..])
  }

  /**
   * The printable characters of `s`, in order: every character outside the
   * escape runs, a run being an ESC and everything after it up to and
   * including the next 'm'.
   */
  function Printable(s: string): (r: string)
    ensures |r| <= |s|
    decreases |s|
  {
    if |s| == 0 then ""
    else if s[0] == ESC then Printable(AfterRun(s[1..]))
    else [s[0]] + Printable(s[1..])
  }

  /** The number of printable characters. */
  function VisibleLength(s: string): nat
  {
    |Printable(s)|
  }

  /** `len(string)`: counts characters while skipping from each ESC through the next 'm'. */
  method Len(s: string) returns (l: nat)
    ensures l == VisibleLength(s)
  {
    l := 0;
    var skip := false;
    var i := 0;
    while i < |s|
      invariant 0 <= i <= |s|
      invariant l + |Printable(if skip then AfterRun(s[i..]) else s[i..])| == VisibleLength(s)
    {
      var c := s[i];
      assert s[i..][1..] == s[i + 1..];
      if skip {
        if c == 'm' {
          skip := false;
        }
      } else {
        if c == ESC {
          skip := true;
        } else {
          l := l + 1;
        }
      }
      i := i + 1;
    }
  }

  /** A run-free prefix is printed as it is. */
  lemma {:induction false} PrintablePlainPrefix(p: string, t: string)
    requires ESC !in p
    ensures Printable(p + t) == p + Printable(t)
  {
    if |p| > 0 {
      assert (p + t)[0] == p[0] != ESC;
      assert (p + t)[1..] == p[1..] + t;
      assert ESC !in p[1..];
      PrintablePlainPrefix(p[1..], t);
      calc {
        Printable(p + t);
        [p[0]] + Printable(p[1..] + t);
        [p[0]] + (p[1..] + Printable(t));
        { assert [p[0]] + p[1..] == p; }
        p + Printable(t);
      }
    } else {
      assert p + t == t;
    }
  }

  /** An escape run stops at the first 'm'. */
  lemma {:induction false} AfterRunStops(p: string, t: string)
    requires 'm' !in p
    ensures AfterRun(p + "m" + t) == t
  {
    if |p| > 0 {
      assert (p + "m" + t)[1..] == p[1..] + "m" + t;
      AfterRunStops(p[1..], t);
    } else {
      assert p + "m" + t == "m" + t;
    }
  }

  // ---------------------------------------------------------------------
  // Colouring: `_color` and the sixteen helpers

  /**
   * `_color(string, cidx, bold)`: `string` between the sequence selecting
   * rendition `bold;cidx` and the sequence resetting all renditions. With a
   * one-digit bold flag and a two-digit colour code it adds 11 characters.
   */
  function Colorize(s: string, cidx: int, bold: int): (r: string)
    ensures 0 <= bold <= 9 && 10 <= cidx <= 99 ==> |r| == |s| + 11
    ensures |r| >= 4 && r[..2] == [ESC, '['] && r[|r| - 4..] == [ESC, '[', '0', 'm']
  {
    [ESC, '['] + IntToString(bold) + ";" + IntToString(cidx) + "m" + s + [ESC, '[', '0', 'm']
  }

  /** The reset sequence shows nothing. */
  lemma ResetShowsNothing()
    ensures Printable([ESC, '[', '0', 'm']) == ""
  {
    var s := [ESC, '[', '0', 'm'];
    assert s[1..] == "[0m" && s[1..][1..] == "0m" && s[1..][1..][1..] == "m";
    assert AfterRun("m") == "";
    assert AfterRun("0m") == "";
    assert AfterRun("[0m") == "";
  }

  /** A coloured run-free string shows exactly its own characters. */
  lemma ColorizeShowsText(s: string, cidx: int, bold: int)
    ensures ESC !in s ==> Printable(Colorize(s, cidx, bold)) == s
  {
    if ESC !in s {
      var a, b := IntToString(bold), IntToString(cidx);
      assert 'm' !in a && 'm' !in b;
      var p := "[" + a + ";" + b;
      var reset := [ESC, '[', '0', 'm'];
      var tail := s + reset;
      var c := Colorize(s, cidx, bold);
      var rest := p + "m" + tail;
      assert c == [ESC] + rest by {
        assert [ESC, '['] == [ESC] + "[";
      }
      assert c[0] == ESC;
      assert c[1..] == rest;
      assert Printable(c) == Printable(AfterRun(c[1..]));
      AfterRunStops(p, tail);
      PrintablePlainPrefix(s, reset);
      ResetShowsNothing();
    }
  }

  /** The eight colours, in the order of their SGR codes 30..37. */
  datatype Color = Black | Red | Green | Yellow | Blue | Purple | Cyan | White

  /** The SGR foreground code of each colour. */
  function Code(c: Color): (n: int)
    ensures 30 <= n <= 37
  {
    match c
    case Black => 30
    case Red => 31
    case Green => 32
    case Yellow => 33
    case Blue => 34
    case Purple => 35
    case Cyan => 36
    case White => 37
  }

  /**
   * The sixteen helpers: `black` ... `white` are `Paint(c, false, _)`
   * (bold flag 0) and `BLACK` ... `WHITE` are `Paint(c, true, _)` (bold
   * flag 1). They add 11 characters and none of them shows.
   */
  function Paint(c: Color, bold: bool, s: string): (r: string)
    ensures |r| == |s| + 11
    ensures ESC !in s ==> VisibleLength(r) == |s|
  {
    ColorizeShowsText(s, Code(c), if bold then 1 else 0);
    Colorize(s, Code(c), if bold then 1 else 0)
  }

  // ---------------------------------------------------------------------
  // Colour names: `_colors`, `_functions`, `isColor`

  /** `_colors`. */
  const ColorNames: seq<string> := ["black", "red", "green", "yellow", "blue", "purple", "cyan", "white"]

  /** `_functions`: each name to its pair of helpers, here the colour they paint. */
  const Functions: map<string, Color> :=
    map["black" := Black, "red" := Red, "green" := Green, "yellow" := Yellow,
        "blue" := Blue, "purple" := Purple, "cyan" := Cyan, "white" := White]

  /** The two tables agree, and the i-th name is painted with code 30 + i. */
  lemma ColorTablesAgree()
    ensures Functions.Keys == set i | 0 <= i < |ColorNames| :: ColorNames[i]
    ensures forall i :: 0 <= i < |ColorNames| ==> Code(Functions[ColorNames[i]]) == 30 + i
  {
    assert ColorNames[0] == "black" && ColorNames[1] == "red" && ColorNames[2] == "green";
    assert ColorNames[3] == "yellow" && ColorNames[4] == "blue" && ColorNames[5] == "purple";
    assert ColorNames[6] == "cyan" && ColorNames[7] == "white";
  }

  /** The number of leading '+' characters. */
  function LeadingPluses(s: string): (n: nat)
    ensures n <= |s|
    ensures forall i :: 0 <= i < n ==> s[i] == '+'
    ensures n == |s| || s[n] != '+'
  {
    if |s| > 0 && s[0] == '+' then 1 + LeadingPluses(s[1..]) else 0
  }

  /**
   * `isColor(s)`: after every leading '+' is stripped, is the rest one of
   * the eight names? A string of '+' only (or the empty string) has no
   * first character left to inspect and raises IndexError.
   */
  function IsColor(s: string): (r: Result<bool>)
    ensures var n := LeadingPluses(s);
            r == if n == |s| then Err(IndexError) else Ok(s[n..] in ColorNames)
  {
    if |s| == 0 then Err(IndexError)
    else if s[0] == '+' then IsColor(s[1..])
    else Ok(s in ColorNames)
  }

  /** A colour token with its bold marker stripped. */
  function StripBold(color: string): string
    requires |color| > 0
  {
    if color[0] == '+' then color[1..] else color
  }

  /** The rendering a `Matcher` applies to its target: `func`. */
  datatype Style = Style(color: Color, bold: bool)

  /** `func(string)`. */
  function Decorate(st: Style, s: string): string
  {
    Paint(st.color, st.bold, s)
  }

  /**
   * How `Matcher.__init__` turns its colour argument into a style: one
   * leading '+' selects the bold helper and the rest is looked up in
   * `_functions`. An empty token raises IndexError, an unknown name KeyError.
   */
  function ParseStyle(color: string): (r: Result<Style>)
    ensures |color| == 0 <==> r == Err(IndexError)
    ensures |color| > 0 ==> (r.Ok? <==> StripBold(color) in ColorNames)
    ensures r.Ok? ==> && r.value.bold == (color[0] == '+')
                      && ColorNames[Code(r.value.color) - 30] == StripBold(color)
  {
    ColorTablesAgree();
    if |color| == 0 then Err(IndexError)
    else
      var name := StripBold(color);
      if name in Functions then Ok(Style(Functions[name], color[0] == '+'))
      else Err(KeyError)
  }

  /** Every token a matcher accepts is a colour name to `isColor`. */
  lemma ParseStyleAcceptsColors(color: string)
    requires ParseStyle(color).Ok?
    ensures IsColor(color) == Ok(true)
  {
    if color[0] == '+' {
      assert color[1..][0] != '+' by {
        assert StripBold(color) in ColorNames;
      }
    }
  }

  /**
   * ... but not conversely: `isColor` strips every leading '+', the
   * matcher only one.
   */
  lemma IsColorAcceptsMore()
    ensures IsColor("++red") == Ok(true)
    ensures ParseStyle("++red") == Err(KeyError)
  {
    assert "++red"[2..] == "red";
    assert StripBold("++red") == "+red";
  }
}
