/** The arithmetic of `drawText` (main.go:88-113): the text is cut into lines at the
    two-byte token backslash-`n` (not at a newline byte), every line gets an x origin from
    the alignment string and its measured width, and the lines stack downward from the
    anchor one line height apart. */
module TextLayout {
  import opened Basics

  const Backslash: byte := 0x5C
  const LetterN: byte := 0x6E

  /** The separator `"\\n"` of main.go:89: a backslash followed by the letter n. */
  const LineBreak: seq<byte> := [Backslash, LetterN]

  /** The separator starts at index `i` of `s`. */
  predicate BreakAt(s: seq<byte>, i: int) {
    0 <= i && i + 1 < |s| && s[i] == Backslash && s[i + 1] == LetterN
  }

  predicate HasBreak(s: seq<byte>) {
    exists i :: 0 <= i < |s| && BreakAt(s, i)
  }

  /** The number of places the separator starts at. */
  function CountBreaks(s: seq<byte>): (n: nat) {
    if |s| < 2 then 0
    else (if BreakAt(s, 0) then 1 else 0) + CountBreaks(s[1..])
  }

  /** `strings.Split(text, "\\n")`: the pieces between successive separators, left to right. */
  function SplitLines(s: seq<byte>): (lines: seq<seq<byte>>)
    ensures |lines| > 0
    decreases |s|
  {
    if |s| < 2 then [s]
    else if BreakAt(s, 0) then [[]] + SplitLines(s[2..])
    else
      var rest := SplitLines(s[1..]);
      [[s[0]] + rest[0]] + rest[1..]
  }

  /** `strings.Join(lines, "\\n")`. */
  function JoinLines(lines: seq<seq<byte>>): (s: seq<byte>) {
    if |lines| == 0 then []
    else if |lines| == 1 then lines[0]
    else lines[0] + LineBreak + JoinLines(lines[1..])
  }

  lemma {:induction false} FirstLineIsPrefix(s: seq<byte>)
    ensures SplitLines(s)[0] <= s
    decreases |s|
  {
    if |s| >= 2 && !BreakAt(s, 0) {
      FirstLineIsPrefix(s[1..]);
    }
  }

  lemma {:induction false} JoinPrepend(x: seq<byte>, rest: seq<seq<byte>>)
    requires |rest| > 0
    ensures JoinLines([x + rest[0]] + rest[1..]) == x + JoinLines(rest)
  {
    var ls := [x + rest[0]] + rest[1..];
    assert ls[0] == x + rest[0];
    if |rest| == 1 {
      assert |ls| == 1;
    } else {
      assert ls[1..] == rest[1..];
      calc {
        JoinLines(ls);
        ls[0] + LineBreak + JoinLines(ls[1..]);
        (x + rest[0]) + LineBreak + JoinLines(rest[1..]);
        x + (rest[0] + LineBreak + JoinLines(rest[1..]));
      }
    }
  }

  /** Joining the lines with the separator rebuilds the text. */
  lemma {:induction false} JoinSplit(s: seq<byte>)
    ensures JoinLines(SplitLines(s)) == s
    decreases |s|
  {
    if |s| < 2 {
    } else if BreakAt(s, 0) {
      JoinSplit(s[2..]);
      var ls := [[]] + SplitLines(s[2..]);
      assert ls[1..] == SplitLines(s[2..]);
      if |ls| == 1 {
        assert false;
      }
      assert s == [] + LineBreak + s[2..];
    } else {
      var rest := SplitLines(s[1..]);
      JoinSplit(s[1..]);
      JoinPrepend([s[0]], rest);
      assert s == [s[0]] + s[1..];
    }
  }

  /** There is one line more than there are separators. */
  lemma {:induction false} SplitCount(s: seq<byte>)
    ensures |SplitLines(s)| == CountBreaks(s) + 1
    decreases |s|
  {
    if |s| < 2 {
    } else if BreakAt(s, 0) {
      SplitCount(s[2..]);
      if |s| >= 3 {
        assert !BreakAt(s[1..], 0);
        assert s[1..][1..] == s[2..];
      }
    } else {
      SplitCount(s[1..]);
    }
  }

  /** No line contains the separator. */
  lemma {:induction false} LinesHaveNoBreak(s: seq<byte>)
    ensures forall k :: 0 <= k < |SplitLines(s)| ==> !HasBreak(SplitLines(s)[k])
    decreases |s|
  {
    if |s| < 2 {
      assert forall i :: !BreakAt(s, i);
    } else if BreakAt(s, 0) {
      LinesHaveNoBreak(s[2..]);
      var ls := [[]] + SplitLines(s[2..]);
      forall k | 0 <= k < |ls| ensures !HasBreak(ls[k]) {
        if k > 0 {
          assert ls[k] == SplitLines(s[2..])[k - 1];
        }
      }
    } else {
      var rest := SplitLines(s[1..]);
      LinesHaveNoBreak(s[1..]);
      FirstLineIsPrefix(s[1..]);
      var first := [s[0]] + rest[0];
      forall i | 0 <= i && i + 1 < |first| ensures !BreakAt(first, i) {
        if i == 0 {
          assert first[0] == s[0] && first[1] == rest[0][0] == s[1];
        } else {
          assert first[i] == rest[0][i - 1] && first[i + 1] == rest[0][i];
          assert !BreakAt(rest[0], i - 1);
        }
      }
      assert !HasBreak(first);
      var ls := [first] + rest[1..];
      forall k | 0 <= k < |ls| ensures !HasBreak(ls[k]) {
        if k > 0 {
          assert ls[k] == rest[k];
        }
      }
    }
  }

  /** A text without the separator is one line: in particular a real newline byte does not
      start a new line. */
  lemma {:induction false} NoBreakOneLine(s: seq<byte>)
    requires !HasBreak(s)
    ensures SplitLines(s) == [s]
    decreases |s|
  {
    if |s| >= 2 {
      assert !BreakAt(s, 0);
      assert !HasBreak(s[1..]) by {
        forall i ensures !BreakAt(s[1..], i) {
          if BreakAt(s[1..], i) {
            assert BreakAt(s, i + 1);
          }
        }
      }
      NoBreakOneLine(s[1..]);
      assert [s[0]] + s[1..] == s;
    }
  }

  /** The text `A\nB\nC` of a configuration file (backslash and n) is three lines; the same
      letters around newline bytes are one. */
  lemma SplitExamples()
    ensures SplitLines(Ascii("A\\nB\\nC")) == [Ascii("A"), Ascii("B"), Ascii("C")]
    ensures SplitLines(Ascii("A\nB")) == [Ascii("A\nB")]
  {
    var a: seq<byte>, b: seq<byte>, c: seq<byte>, e: seq<byte> := [0x41], [0x42], [0x43], [];
    var nc := LineBreak + c;
    var bnc := b + nc;
    var nbnc := LineBreak + bnc;
    var t := a + nbnc;
    assert Ascii("A\\nB\\nC") == t;
    assert Ascii("A") == a && Ascii("B") == b && Ascii("C") == c;
    assert SplitLines(c) == [c];
    assert nc[2..] == c && BreakAt(nc, 0);
    assert SplitLines(nc) == [e, c];
    assert bnc[1..] == nc && !BreakAt(bnc, 0) && b + e == b;
    assert SplitLines(bnc) == [b, c];
    assert nbnc[2..] == bnc && BreakAt(nbnc, 0);
    assert SplitLines(nbnc) == [e, b, c];
    assert t[1..] == nbnc && !BreakAt(t, 0) && a + e == a;
    assert SplitLines(t) == [a, b, c];
    var lf: seq<byte> := [0x0A];
    var u := a + lf + b;
    assert Ascii("A\nB") == u;
    assert u[1..] == lf + b && !BreakAt(u, 0);
    assert (lf + b)[1..] == b && !BreakAt(lf + b, 0);
    assert SplitLines(lf + b) == [lf + b];
    assert a + (lf + b) == u;
    assert SplitLines(u) == [u];
  }

  // ---------------------------------------------------------------------------
  // Origins of the lines
  // ---------------------------------------------------------------------------

  datatype Align = Left | Center | Right

  /** The `switch align` of main.go:93-100: the exact, case-sensitive strings "center" and
      "right"; everything else, "" and "left" among them, is left-aligned. */
  function AlignOf(align: seq<byte>): (a: Align)
    ensures a == Center <==> align == Ascii("center")
    ensures a == Right <==> align == Ascii("right")
  {
    if align == Ascii("center") then Center
    else if align == Ascii("right") then Right
    else Left
  }

  /** The x origin of a line of measured width `width`. Center puts the anchor at the middle
      of the line (rounded toward the start for an odd width), right puts it at the end of
      the line, and any other string at its start. */
  function LineX(anchorX: int, align: seq<byte>, width: int): (x: int)
    ensures align == Ascii("center") && 0 <= width ==> 0 <= 2 * (anchorX - x) <= width < 2 * (anchorX - x) + 2
    ensures align == Ascii("right") ==> x + width == anchorX
    ensures align != Ascii("center") && align != Ascii("right") ==> x == anchorX
  {
    match AlignOf(align)
    case Center => anchorX - Quo(width, 2)
    case Right => anchorX - width
    case Left => anchorX
  }

  /** The y origin (the baseline) of line `i`: the first line sits on the anchor, and with a
      non-negative line height no line sits above it. */
  function LineY(anchorY: int, i: nat, lineHeight: int): (y: int)
    ensures i == 0 ==> y == anchorY
    ensures 0 <= lineHeight ==> anchorY <= y
  {
    anchorY + i * lineHeight
  }

  /** Line 0 sits at the anchor and each later line is one line height lower, so with a
      positive line height the lines are strictly ordered downward. */
  lemma {:induction false} LinesStackDownward(anchorY: int, i: nat, j: nat, lineHeight: int)
    requires lineHeight > 0 && i < j
    ensures LineY(anchorY, 0, lineHeight) == anchorY
    ensures LineY(anchorY, i + 1, lineHeight) == LineY(anchorY, i, lineHeight) + lineHeight
    ensures LineY(anchorY, i, lineHeight) < LineY(anchorY, j, lineHeight)
    decreases j
  {
    assert (i + 1) * lineHeight == i * lineHeight + lineHeight;
    assert j * lineHeight == (j - 1) * lineHeight + lineHeight;
    if i < j - 1 {
      LinesStackDownward(anchorY, i, j - 1, lineHeight);
    }
  }

  /** Worked examples: anchor x 300 and width 60 put the line at 300, 270 and
      240; anchor y 100 and line height 20 put three lines at 100, 120 and 140. */
  lemma LayoutExamples()
    ensures LineX(300, Ascii("left"), 60) == 300
    ensures LineX(300, Ascii("center"), 60) == 270
    ensures LineX(300, Ascii("right"), 60) == 240
    ensures LineX(300, Ascii(""), 60) == 300
    ensures LineX(300, Ascii("Center"), 60) == 300
    ensures [LineY(100, 0, 20), LineY(100, 1, 20), LineY(100, 2, 20)] == [100, 120, 140]
  {
    assert Ascii("left") != Ascii("center") && Ascii("left") != Ascii("right") by {
      assert Ascii("left")[0] == 0x6C;
    }
    assert Ascii("Center") != Ascii("center") by {
      assert Ascii("Center")[0] == 0x43;
    }
    assert Ascii("Center") != Ascii("right") by {
      assert Ascii("Center")[0] == 0x43;
    }
    assert Ascii("center") != Ascii("right") by {
      assert Ascii("center")[0] == 0x63;
    }
  }
}
