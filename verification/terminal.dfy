/**
 * The control-sequence writer of Game/Terminal.c. Every routine appends the
 * bytes of one ECMA-48 control sequence to the UART; the UART is modelled as
 * the byte sequence `out` that each call extends.
 */
module Terminal {
  import opened Size
  import opened Point
  import opened Wrappers

  const ESC: U8 := 0x1B

  /** CS_CCI: the Control Sequence Introducer ESC '['. */
  const CSI: seq<U8> := [0x1B, 0x5B]

  /** The bytes of an ASCII string literal. */
  function Ascii(s: string): (r: seq<U8>)
    requires forall i :: 0 <= i < |s| ==> s[i] as int < 256
    ensures |r| == |s| && forall i :: 0 <= i < |s| ==> r[i] == s[i] as int
  {
    if s == [] then [] else [s[0] as int] + Ascii(s[1..])
  }

  /** The ASCII decimal rendering of n, as sprintf's "%u" writes it. */
  function Decimal(n: nat): (r: seq<U8>)
    ensures 1 <= |r| && AllDigits(r)
    ensures n < 10 ==> |r| == 1
    ensures n < 100 ==> |r| <= 2
    ensures n < 1000 ==> |r| <= 3
    ensures n >= 10 ==> r[0] != '0' as int
  {
    if n < 10 then ['0' as int + n] else Decimal(n / 10) + ['0' as int + n % 10]
  }

  /** The number a string of ASCII digits denotes (what sscanf's "%u" reads back). */
  function DigitsValue(s: seq<U8>): nat
    requires AllDigits(s)
  {
    if s == [] then 0 else DigitsValue(s[..|s| - 1]) * 10 + (s[|s| - 1] - '0' as int)
  }

  /** Reading back a rendered decimal gives the number. */
  lemma {:induction false} DecimalRoundTrip(n: nat)
    ensures DigitsValue(Decimal(n)) == n
  {
    var r := Decimal(n);
    if n >= 10 {
      DecimalRoundTrip(n / 10);
      assert r[..|r| - 1] == Decimal(n / 10);
    }
  }

  /** The "%u;%uH" text of TerminalCursorMoveXY: row then column, both 1-based. */
  function CupParameters(x: U8, y: U8): (r: seq<U8>)
    ensures |r| <= 8
  {
    Decimal(y + 1) + [';' as int] + Decimal(x + 1) + ['H' as int]
  }

  /** CUP (section 8.3.21 of ECMA-48): move the cursor to column x, row y (0-based). */
  function CursorPosition(x: U8, y: U8): seq<U8>
  {
    CSI + CupParameters(x, y)
  }

  /** Index of the first b in s, if any. */
  function IndexOf(s: seq<U8>, b: U8): (r: Option<nat>)
    ensures r.Some? ==> r.value < |s| && s[r.value] == b && forall i :: 0 <= i < r.value ==> s[i] != b
    ensures r.None? ==> forall i :: 0 <= i < |s| ==> s[i] != b
  {
    if s == [] then None
    else if s[0] == b then Some(0)
    else match IndexOf(s[1..], b)
      case None => None
      case Some(i) => Some(i + 1)
  }

  /**
   * How a terminal reads the parameters of a CUP sequence: "row;col" then 'H',
   * both 1-based; yields the 0-based (x, y).
   */
  function ParseCupParameters(s: seq<U8>): Option<(int, int)>
  {
    if |s| == 0 || s[|s| - 1] != 'H' as int then None
    else
      var body := s[..|s| - 1];
      match IndexOf(body, ';' as int)
      case None => None
      case Some(k) =>
        if AllDigits(body[..k]) && AllDigits(body[k + 1..])
        then Some((DigitsValue(body[k + 1..]) - 1, DigitsValue(body[..k]) - 1))
        else None
  }

  /** In digits followed by ';', the first ';' is the one after the digits. */
  lemma {:induction false} IndexOfAfterDigits(a: seq<U8>, c: seq<U8>)
    requires AllDigits(a)
    ensures IndexOf(a + [';' as int] + c, ';' as int) == Some(|a|)
  {
    if a != [] {
      assert (a + [';' as int] + c)[1..] == a[1..] + [';' as int] + c;
      IndexOfAfterDigits(a[1..], c);
    }
  }

  /** A terminal reading the CUP parameters lands on the requested cell. */
  lemma CupRoundTrip(x: U8, y: U8)
    ensures ParseCupParameters(CupParameters(x, y)) == Some((x as int, y as int))
  {
    var s := CupParameters(x, y);
    var row, col := Decimal(y + 1), Decimal(x + 1);
    var body := s[..|s| - 1];
    assert body == row + [';' as int] + col;
    IndexOfAfterDigits(row, col);
    assert body[..|row|] == row && body[|row| + 1..] == col;
    ParsedAt(s, |row|);
    DecimalRoundTrip(y + 1);
    DecimalRoundTrip(x + 1);
  }

  /** Where the first ';' of the text before a final 'H' splits two digit runs, those runs are read. */
  lemma ParsedAt(s: seq<U8>, k: nat)
    requires |s| > 0 && s[|s| - 1] == 'H' as int && IndexOf(s[..|s| - 1], ';' as int) == Some(k)
    requires AllDigits(s[..|s| - 1][..k]) && AllDigits(s[..|s| - 1][k + 1..])
    ensures ParseCupParameters(s) == Some((DigitsValue(s[..|s| - 1][k + 1..]) - 1, DigitsValue(s[..|s| - 1][..k]) - 1))
  {
  }

  /** The fixed head of SGR (section 8.3.117 of ECMA-48) with xterm's 38;5;n. */
  const ForegroundIntro: seq<U8> := CSI + Ascii("38;5;")

  /** The fixed head of SGR with xterm's 48;5;n. */
  const BackgroundIntro: seq<U8> := CSI + Ascii("48;5;")

  /** SGR 38;5;n: 256-colour foreground. */
  function SetForeground(color: U8): seq<U8>
  {
    ForegroundIntro + Parameter(color, 'm' as U8)
  }

  /** SGR 48;5;n: 256-colour background. */
  function SetBackground(color: U8): seq<U8>
  {
    BackgroundIntro + Parameter(color, 'm' as U8)
  }

  /**
   * The "%u" text of n followed by the final byte: "%um" in the colour
   * setters, "%u@" in TerminalInsertSpaces. It fits their 5-byte buffers
   * with the NUL.
   */
  function Parameter(n: U8, final: U8): (r: seq<U8>)
    ensures 2 <= |r| <= 4 && r[|r| - 1] == final && AllDigits(r[..|r| - 1])
    ensures DigitsValue(r[..|r| - 1]) == n
  {
    DecimalRoundTrip(n);
    assert (Decimal(n) + [final])[..|Decimal(n)|] == Decimal(n);
    Decimal(n) + [final]
  }

  /** Writing a, then b, leaves what writing a + b at once would. */
  lemma Concatenated(s: seq<U8>, a: seq<U8>, b: seq<U8>)
    ensures s + a + b == s + (a + b)
  {
  }

  class Terminal {
    /** Every byte handed to the UART so far. */
    var out: seq<U8>
    /** The static prevColor of TerminalSetFgColor. */
    var prevFg: U8
    /** The static prevColor of TerminalSetBgColor. */
    var prevBg: U8

    constructor ()
      ensures out == [] && prevFg == 0 && prevBg == 0
    {
      out, prevFg, prevBg := [], 0, 0;
    }

    /** Asks the terminal to report its text-area size (xterm window operation 18). */
    method RequestSize()
      modifies this`out
      ensures out == old(out) + CSI + Ascii("18t")
    {
      out := out + CSI + Ascii("18t");
    }

    /** CUP without parameters: the home position. */
    method CursorHome()
      modifies this`out
      ensures out == old(out) + CSI + Ascii("H")
    {
      out := out + CSI + Ascii("H");
    }

    method CursorMove(p: Point)
      modifies this`out
      ensures out == old(out) + CursorPosition(p.X, p.Y)
    {
      out := out + CSI + CupParameters(p.X, p.Y);
    }

    method CursorMoveXY(x: U8, y: U8)
      modifies this`out
      ensures out == old(out) + CursorPosition(x, y)
    {
      out := out + CSI;
      var buf := Decimal(y + 1) + [';' as int] + Decimal(x + 1) + ['H' as int];
      out := out + buf;
    }

    /** DECTCEM reset: hide the cursor. */
    method CursorHide()
      modifies this`out
      ensures out == old(out) + CSI + Ascii("?25l")
    {
      out := out + CSI + Ascii("?25l");
    }

    /** DECTCEM set: show the cursor. */
    method CursorShow()
      modifies this`out
      ensures out == old(out) + CSI + Ascii("?25h")
    {
      out := out + CSI + Ascii("?25h");
    }

    /** xterm private mode 47: switch to the alternate screen buffer. */
    method UseAlternateBuffer()
      modifies this`out
      ensures out == old(out) + CSI + Ascii("?47h")
    {
      out := out + CSI + Ascii("?47h");
    }

    /** ED (section 8.3.39 of ECMA-48) with parameter 2: erase the whole display. */
    method ClearScreen()
      modifies this`out
      ensures out == old(out) + CSI + Ascii("2J")
    {
      out := out + CSI + Ascii("2J");
    }

    /** Emits an SGR foreground change unless color is the one last sent. */
    method SetFgColor(color: U8)
      modifies this`out, this`prevFg
      ensures prevFg == color && prevBg == old(prevBg)
      ensures out == if color == old(prevFg) then old(out) else old(out) + SetForeground(color)
    {
      if color != prevFg {
        ghost var before := out;
        out := out + ForegroundIntro;
        var buf := Parameter(color, 'm' as U8);
        out := out + buf;
        Concatenated(before, ForegroundIntro, buf);
        prevFg := color;
      }
    }

    /** Emits an SGR background change unless color is the one last sent. */
    method SetBgColor(color: U8)
      modifies this`out, this`prevBg
      ensures prevBg == color && prevFg == old(prevFg)
      ensures out == if color == old(prevBg) then old(out) else old(out) + SetBackground(color)
    {
      if color != prevBg {
        ghost var before := out;
        out := out + BackgroundIntro;
        var buf := Parameter(color, 'm' as U8);
        out := out + buf;
        Concatenated(before, BackgroundIntro, buf);
        prevBg := color;
      }
    }

    /** ICH (section 8.3.64 of ECMA-48): insert count blank characters. */
    method InsertSpaces(count: U8)
      modifies this`out
      ensures out == old(out) + CSI + Parameter(count, '@' as U8)
    {
      out := out + CSI;
      var buf := Parameter(count, '@' as U8);
      out := out + buf;
    }
  }

  /**
   * Repeating a colour change emits nothing the second time, and the two
   * remembered colours are independent of each other.
   */
  method ColorSettersSuppressRepeats(t: Terminal, fg: U8, bg: U8)
    modifies t
    ensures t.out == old(t.out)
      + (if fg == old(t.prevFg) then [] else SetForeground(fg))
      + (if bg == old(t.prevBg) then [] else SetBackground(bg))
  {
    t.SetFgColor(fg);
    t.SetBgColor(bg);
    ghost var mid := t.out;
    t.SetFgColor(fg);
    t.SetBgColor(bg);
    assert t.out == mid;
  }
}
