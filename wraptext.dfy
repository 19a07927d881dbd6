/** `wrap_text`: greedy line breaking of a stripped text by display width.
    The width of one character (`wcwidth.wcwidth`) is the parameter `w`. */
module TextWrap {
  import opened PyStr

  /** The display width of a string: the sum of its characters' widths. */
  function Width(w: char -> nat, s: string): nat {
    if s == [] then 0 else Width(w, s[..|s| - 1]) + w(s[|s| - 1])
  }

  /** The loop's variables: the finished lines, the line being built and
      its width. */
  datatype WrapState = WrapState(lines: seq<string>, current: string, currentWidth: nat)

  /** One character: start a new line with it when it would push the
      current line past `limit`, otherwise extend the current line. */
  function WrapStep(w: char -> nat, limit: int, st: WrapState, c: char): WrapState {
    if st.currentWidth + w(c) > limit then WrapState(st.lines + [st.current], [c], w(c))
    else WrapState(st.lines, st.current + [c], st.currentWidth + w(c))
  }

  /** The loop's state after the characters of `s`. */
  function WrapFold(w: char -> nat, limit: int, s: string): WrapState {
    if s == [] then WrapState([], "", 0)
    else WrapStep(w, limit, WrapFold(w, limit, s[..|s| - 1]), s[|s| - 1])
  }

  /** The line still being built is kept only when it is not empty. */
  function Finish(st: WrapState): seq<string> {
    if st.current != [] then st.lines + [st.current] else st.lines
  }

  /** The lines `wrap_text` joins. */
  function WrapLines(w: char -> nat, limit: int, text: string): seq<string> {
    Finish(WrapFold(w, limit, Strip(text)))
  }

  /** What makes a list of lines a greedy wrap at `limit`, independently of
      how it is computed:
      - no line after the first is empty, and the last one is not empty;
      - a non-empty first line fits;
      - a line wider than the limit is a single character;
      - every break was forced: the next line's first character would not
        have fitted on the line before. */
  predicate WellWrapped(w: char -> nat, limit: int, lines: seq<string>) {
    && LaterLinesNonEmpty(lines)
    && (lines != [] ==> lines[|lines| - 1] != "")
    && (lines != [] && lines[0] != "" ==> Width(w, lines[0]) <= limit)
    && WideLinesSingle(w, limit, lines)
    && BreaksForced(w, limit, lines)
  }

  predicate LaterLinesNonEmpty(lines: seq<string>) {
    forall i :: 0 < i < |lines| ==> lines[i] != ""
  }

  predicate WideLinesSingle(w: char -> nat, limit: int, lines: seq<string>) {
    forall i :: 0 <= i < |lines| && |lines[i]| >= 2 ==> Width(w, lines[i]) <= limit
  }

  predicate BreaksForced(w: char -> nat, limit: int, lines: seq<string>) {
    forall i :: 0 < i < |lines| ==> lines[i] != "" && Width(w, lines[i - 1]) + w(lines[i][0]) > limit
  }

  lemma WidthSnoc(w: char -> nat, s: string, c: char)
    ensures Width(w, s + [c]) == Width(w, s) + w(c)
  {
    assert (s + [c])[..|s|] == s;
  }

  lemma ConcatSnoc(lines: seq<string>, line: string)
    ensures Concat(lines + [line]) == Concat(lines) + line
  {
    ConcatAppend(lines, [line]);
    assert Concat([line]) == line + Concat([]);
  }

  /** What the loop keeps after reading `s`: the lines so far and the
      current line spell `s`, the recorded width is the current line's
      width, and once a character has been read the current line is not
      empty and the lines with it form a greedy wrap. */
  predicate WrapInvariant(w: char -> nat, limit: int, s: string, st: WrapState) {
    && Concat(st.lines) + st.current == s
    && st.currentWidth == Width(w, st.current)
    && (s == [] ==> st.lines == [] && st.current == "")
    && (s != [] ==> st.current != "" && WellWrapped(w, limit, st.lines + [st.current]))
  }

  lemma {:induction false} WrapFoldInvariant(w: char -> nat, limit: int, s: string)
    ensures WrapInvariant(w, limit, s, WrapFold(w, limit, s))
  {
    if s != [] {
      var p, c := s[..|s| - 1], s[|s| - 1];
      assert s == p + [c];
      WrapFoldInvariant(w, limit, p);
      WrapStepKeeps(w, limit, p, WrapFold(w, limit, p), c);
    }
  }

  /** One more character keeps the invariant. */
  lemma WrapStepKeeps(w: char -> nat, limit: int, p: string, st0: WrapState, c: char)
    requires WrapInvariant(w, limit, p, st0)
    ensures WrapInvariant(w, limit, p + [c], WrapStep(w, limit, st0, c))
  {
    if st0.currentWidth + w(c) > limit {
      WrapStepBreaks(w, limit, p, st0, c);
    } else {
      WrapStepExtends(w, limit, p, st0, c);
    }
  }

  lemma WrapStepBreaks(w: char -> nat, limit: int, p: string, st0: WrapState, c: char)
    requires WrapInvariant(w, limit, p, st0)
    requires st0.currentWidth + w(c) > limit
    ensures WrapInvariant(w, limit, p + [c], WrapState(st0.lines + [st0.current], [c], w(c)))
  {
    var l0 := st0.lines + [st0.current];
    ConcatSnoc(st0.lines, st0.current);
    WidthSnoc(w, [], c);
    if p != [] {
      WrapBreakKeeps(w, limit, l0, c);
    } else {
      var l := l0 + [[c]];
      assert l == ["", [c]];
      assert BreaksForced(w, limit, l) by {
        forall i | 0 < i < |l| ensures l[i] != "" && Width(w, l[i - 1]) + w(l[i][0]) > limit {
          assert i == 1;
        }
      }
    }
  }

  lemma WrapStepExtends(w: char -> nat, limit: int, p: string, st0: WrapState, c: char)
    requires WrapInvariant(w, limit, p, st0)
    requires st0.currentWidth + w(c) <= limit
    ensures WrapInvariant(w, limit, p + [c], WrapState(st0.lines, st0.current + [c], st0.currentWidth + w(c)))
  {
    WidthSnoc(w, st0.current, c);
    assert Concat(st0.lines) + (st0.current + [c]) == (Concat(st0.lines) + st0.current) + [c];
    if p != [] {
      WrapExtendKeeps(w, limit, st0.lines, st0.current, c);
    } else {
      WidthSnoc(w, [], c);
      assert st0.lines + [st0.current + [c]] == [[c]];
    }
  }

  /** Breaking before `c` keeps a greedy wrap when the break is forced. */
  lemma WrapBreakKeeps(w: char -> nat, limit: int, lines: seq<string>, c: char)
    requires lines != [] && WellWrapped(w, limit, lines)
    requires Width(w, lines[|lines| - 1]) + w(c) > limit
    ensures WellWrapped(w, limit, lines + [[c]])
  {
    var l := lines + [[c]];
    assert l[0] == lines[0];
    assert LaterLinesNonEmpty(l) by {
      forall i | 0 < i < |l| ensures l[i] != "" {
        if i < |lines| { assert l[i] == lines[i]; }
      }
    }
    assert WideLinesSingle(w, limit, l) by {
      forall i | 0 <= i < |l| && |l[i]| >= 2 ensures Width(w, l[i]) <= limit {
        assert l[i] == lines[i];
      }
    }
    assert BreaksForced(w, limit, l) by {
      forall i | 0 < i < |l| ensures l[i] != "" && Width(w, l[i - 1]) + w(l[i][0]) > limit {
        if i < |lines| {
          assert l[i] == lines[i] && l[i - 1] == lines[i - 1];
        }
      }
    }
  }

  /** Extending the last line with `c` keeps a greedy wrap when `c` fits. */
  lemma WrapExtendKeeps(w: char -> nat, limit: int, lines: seq<string>, current: string, c: char)
    requires current != "" && WellWrapped(w, limit, lines + [current])
    requires Width(w, current) + w(c) <= limit
    ensures WellWrapped(w, limit, lines + [current + [c]])
  {
    var l0 := lines + [current];
    var l := lines + [current + [c]];
    WidthSnoc(w, current, c);
    assert forall i :: 0 <= i < |lines| ==> l[i] == l0[i];
    assert l[|lines|] == current + [c] && l0[|lines|] == current;
    assert LaterLinesNonEmpty(l) by {
      forall i | 0 < i < |l| ensures l[i] != "" {
        if i < |lines| { assert l[i] == l0[i]; }
      }
    }
    assert WideLinesSingle(w, limit, l) by {
      forall i | 0 <= i < |l| && |l[i]| >= 2 ensures Width(w, l[i]) <= limit {
        if i < |lines| { assert l[i] == l0[i]; }
      }
    }
    assert BreaksForced(w, limit, l) by {
      forall i | 0 < i < |l| ensures l[i] != "" && Width(w, l[i - 1]) + w(l[i][0]) > limit {
        assert l0[i] != "" && Width(w, l0[i - 1]) + w(l0[i][0]) > limit;
        assert l[i - 1] == l0[i - 1] && l[i][0] == l0[i][0];
      }
    }
    if lines == [] {
      assert l == [current + [c]];
    }
  }

  /** The wrapped lines spell the stripped text; they form a greedy wrap;
      there are none exactly when the stripped text is empty; and the first
      line is empty exactly when the first character alone is wider than
      the limit. */
  lemma WrapLinesProperties(w: char -> nat, limit: int, text: string)
    ensures var lines := WrapLines(w, limit, text);
            && Concat(lines) == Strip(text)
            && WellWrapped(w, limit, lines)
            && (lines == [] <==> Strip(text) == "")
            && (lines != [] ==> (lines[0] == "" <==> w(Strip(text)[0]) > limit))
  {
    var s := Strip(text);
    var st := WrapFold(w, limit, s);
    WrapFoldInvariant(w, limit, s);
    if s != [] {
      var lines := st.lines + [st.current];
      ConcatSnoc(st.lines, st.current);
      assert WrapLines(w, limit, text) == lines;
      if lines[0] == "" {
        assert |lines| > 1;
        assert lines[1][0] == s[0] by {
          assert Concat(lines) == lines[0] + lines[1] + Concat(lines[2..]);
        }
      } else {
        assert lines[0][0] == s[0];
        WidthFirst(w, lines[0]);
      }
    }
  }

  /** A string is at least as wide as its first character. */
  lemma {:induction false} WidthFirst(w: char -> nat, s: string)
    requires s != ""
    ensures Width(w, s) >= w(s[0])
  {
    if |s| > 1 {
      WidthFirst(w, s[..|s| - 1]);
    }
  }

  /** The greedy wrap is the only one: any list of lines that spells the
      stripped text and is a greedy wrap at the limit is the list
      `wrap_text` produces. */
  lemma WrapLinesUnique(w: char -> nat, limit: int, text: string, lines: seq<string>)
    requires WellWrapped(w, limit, lines) && Concat(lines) == Strip(text)
    ensures lines == WrapLines(w, limit, text)
  {
    var s := Strip(text);
    WrapFoldInvariant(w, limit, s);
    NoLinesSpellNothing(w, limit, lines);
    if s != [] {
      GreedyWrapIsFold(w, limit, s, lines);
    }
  }

  /** A greedy wrap spells nothing only when it has no lines. */
  lemma NoLinesSpellNothing(w: char -> nat, limit: int, lines: seq<string>)
    requires WellWrapped(w, limit, lines)
    ensures Concat(lines) == "" ==> lines == []
  {
    if lines != [] {
      ConcatSnoc(lines[..|lines| - 1], lines[|lines| - 1]);
      assert lines == lines[..|lines| - 1] + [lines[|lines| - 1]];
    }
  }

  /** The loop's lines after `p`, plus its current line. */
  function Built(w: char -> nat, limit: int, p: string): seq<string> {
    WrapFold(w, limit, p).lines + [WrapFold(w, limit, p).current]
  }

  /** A greedy wrap of a non-empty text is what the loop has built after
      reading it, the current line included. */
  lemma {:induction false} GreedyWrapIsFold(w: char -> nat, limit: int, s: string, lines: seq<string>)
    requires s != [] && WellWrapped(w, limit, lines) && Concat(lines) == s
    ensures lines == Built(w, limit, s)
    decreases |s|, 1
  {
    var p, c, init, q := SplitLastChar(w, limit, s, lines);
    if q == "" {
      assert lines == init + [[c]] by {
        assert q + [c] == [c];
      }
      GreedyWrapBreak(w, limit, p, c, init);
    } else {
      GreedyWrapExtend(w, limit, p, c, init, q);
    }
  }

  /** The case where the last line is the single character `c`. */
  lemma {:induction false} GreedyWrapBreak(w: char -> nat, limit: int, p: string, c: char, init: seq<string>)
    requires WellWrapped(w, limit, init + [[c]]) && Concat(init) == p
    ensures init + [[c]] == Built(w, limit, p + [c])
    decreases |p| + 1, 0
  {
    if init == [] {
      assert Width(w, (init + [[c]])[0]) <= limit;
      WidthSnoc(w, [], c);
      FoldFirstFits(w, limit, c);
    } else if p == "" {
      BreakPremises(w, limit, init, c);
      OnlyEmptyLine(init);
      FoldFirstBreaks(w, limit, c);
    } else {
      BreakPremises(w, limit, init, c);
      GreedyWrapIsFold(w, limit, p, init);
      FoldBreaks(w, limit, p, c);
    }
  }

  /** The case where the last line is `q + [c]` with `q` not empty. */
  lemma {:induction false} GreedyWrapExtend(w: char -> nat, limit: int, p: string, c: char, init: seq<string>, q: string)
    requires q != "" && WellWrapped(w, limit, init + [q + [c]]) && Concat(init) + q == p
    ensures init + [q + [c]] == Built(w, limit, p + [c])
    decreases |p| + 1, 0
  {
    ExtendPremises(w, limit, init, q, c);
    GreedyWrapIsFold(w, limit, p, init + [q]);
    FoldExtends(w, limit, p, c, init, q);
  }

  /** The last line of a wrap of `p + [c]` ends with `c`. */
  lemma SplitLastChar(w: char -> nat, limit: int, s: string, lines: seq<string>)
    returns (p: string, c: char, init: seq<string>, q: string)
    requires s != [] && Concat(lines) == s && (lines != [] ==> lines[|lines| - 1] != "")
    ensures s == p + [c] && lines == init + [q + [c]] && Concat(init) + q == p
    ensures |p| < |s|
  {
    p, c := s[..|s| - 1], s[|s| - 1];
    assert s == p + [c];
    assert lines != [];
    var last;
    init, last := lines[..|lines| - 1], lines[|lines| - 1];
    assert lines == init + [last];
    assert Concat(init) + last == s by {
      ConcatSnoc(init, last);
    }
    q := last[..|last| - 1];
    assert last == q + [c] by {
      assert last[|last| - 1] == s[|s| - 1];
    }
    SnocCancel(Concat(init) + q, p, c);
  }

  lemma SnocCancel(a: string, b: string, c: char)
    requires (a + [c]) == b + [c]
    ensures a == b
  {
    assert a == (a + [c])[..|a|];
  }

  /** A wrap whose last line is the single character `c`: the break before
      `c` was forced, and without that line the lines are still a wrap when
      they spell something. */
  lemma BreakPremises(w: char -> nat, limit: int, init: seq<string>, c: char)
    requires init != [] && WellWrapped(w, limit, init + [[c]])
    ensures Width(w, init[|init| - 1]) + w(c) > limit
    ensures LaterLinesNonEmpty(init)
    ensures Concat(init) != "" ==> WellWrapped(w, limit, init)
  {
    var l := init + [[c]];
    assert BreaksForced(w, limit, l);
    assert l[|l| - 2] == init[|init| - 1] && l[|l| - 1][0] == c;
    assert LaterLinesNonEmpty(init) by {
      forall i | 0 < i < |init| ensures init[i] != "" {
        assert init[i] == l[i];
      }
    }
    if |init| == 1 {
      assert Concat(init) == init[0] + Concat(init[1..]);
      assert init[1..] == [];
    }
    if Concat(init) != "" {
      assert init[0] == l[0];
      assert WideLinesSingle(w, limit, init) by {
        forall i | 0 <= i < |init| && |init[i]| >= 2 ensures Width(w, init[i]) <= limit {
          assert init[i] == l[i];
        }
      }
      assert BreaksForced(w, limit, init) by {
        forall i | 0 < i < |init| ensures init[i] != "" && Width(w, init[i - 1]) + w(init[i][0]) > limit {
          assert init[i] == l[i] && init[i - 1] == l[i - 1];
        }
      }
    }
  }

  /** A wrap whose last line has two or more characters: the last one fit,
      and without it the lines are still a wrap. */
  lemma ExtendPremises(w: char -> nat, limit: int, init: seq<string>, q: string, c: char)
    requires q != "" && WellWrapped(w, limit, init + [q + [c]])
    ensures Width(w, q) + w(c) <= limit
    ensures WellWrapped(w, limit, init + [q])
    ensures Concat(init + [q]) == Concat(init) + q
  {
    var l := init + [q + [c]];
    WidthSnoc(w, q, c);
    assert WideLinesSingle(w, limit, l);
    assert l[|l| - 1] == q + [c];
    WellWrappedTrimLast(w, limit, init, q, c);
    ConcatSnoc(init, q);
  }

  lemma FoldFirstFits(w: char -> nat, limit: int, c: char)
    requires w(c) <= limit
    ensures Built(w, limit, [c]) == [[c]]
  {
    WrapFoldSnoc(w, limit, [], c);
    assert [] + [c] == [c] && "" + [c] == [c];
  }

  lemma FoldFirstBreaks(w: char -> nat, limit: int, c: char)
    requires w(c) > limit
    ensures Built(w, limit, [c]) == ["", [c]]
  {
    WrapFoldSnoc(w, limit, [], c);
    assert [] + [c] == [c];
  }

  lemma WrapFoldSnoc(w: char -> nat, limit: int, p: string, c: char)
    ensures WrapFold(w, limit, p + [c]) == WrapStep(w, limit, WrapFold(w, limit, p), c)
  {
    assert (p + [c])[..|p|] == p;
  }

  /** When the loop's current line cannot take `c`, `c` starts a line. */
  lemma FoldBreaks(w: char -> nat, limit: int, p: string, c: char)
    requires p != []
    requires Width(w, Built(w, limit, p)[|Built(w, limit, p)| - 1]) + w(c) > limit
    ensures Built(w, limit, p + [c]) == Built(w, limit, p) + [[c]]
  {
    WrapFoldInvariant(w, limit, p);
    var st0 := WrapFold(w, limit, p);
    assert (p + [c])[..|p|] == p;
    assert WrapFold(w, limit, p + [c]) == WrapStep(w, limit, st0, c);
  }

  /** When it can, `c` extends the current line. */
  lemma FoldExtends(w: char -> nat, limit: int, p: string, c: char, init: seq<string>, q: string)
    requires p != [] && Built(w, limit, p) == init + [q]
    requires Width(w, q) + w(c) <= limit
    ensures Built(w, limit, p + [c]) == init + [q + [c]]
  {
    WrapFoldInvariant(w, limit, p);
    var st0 := WrapFold(w, limit, p);
    assert (p + [c])[..|p|] == p;
    assert WrapFold(w, limit, p + [c]) == WrapStep(w, limit, st0, c);
    var b := Built(w, limit, p);
    assert b[..|b| - 1] == st0.lines && b[|b| - 1] == st0.current;
    assert (init + [q])[..|init|] == init;
  }

  /** Lines that spell nothing, none empty after the first, are one empty
      line. */
  lemma OnlyEmptyLine(lines: seq<string>)
    requires lines != [] && LaterLinesNonEmpty(lines) && Concat(lines) == ""
    ensures lines == [""]
  {
  }

  /** Removing the last character of a last line that has two or more
      keeps a greedy wrap. */
  lemma WellWrappedTrimLast(w: char -> nat, limit: int, init: seq<string>, q: string, c: char)
    requires WellWrapped(w, limit, init + [q + [c]]) && q != ""
    ensures WellWrapped(w, limit, init + [q])
  {
    var l0 := init + [q + [c]];
    var l := init + [q];
    WidthSnoc(w, q, c);
    assert forall i :: 0 <= i < |init| ==> l[i] == l0[i];
    assert l[|init|] == q && l0[|init|] == q + [c];
    assert Width(w, q + [c]) <= limit by {
      assert WideLinesSingle(w, limit, l0);
      assert |l0[|init|]| >= 2;
    }
    assert LaterLinesNonEmpty(l) by {
      forall i | 0 < i < |l| ensures l[i] != "" {
        if i < |init| { assert l[i] == l0[i]; }
      }
    }
    assert WideLinesSingle(w, limit, l) by {
      forall i | 0 <= i < |l| && |l[i]| >= 2 ensures Width(w, l[i]) <= limit {
        if i < |init| { assert l[i] == l0[i]; }
      }
    }
    assert BreaksForced(w, limit, l) by {
      forall i | 0 < i < |l| ensures l[i] != "" && Width(w, l[i - 1]) + w(l[i][0]) > limit {
        assert l0[i] != "" && Width(w, l0[i - 1]) + w(l0[i][0]) > limit;
        assert l[i - 1] == l0[i - 1] && l[i][0] == l0[i][0];
      }
    }
    if init == [] {
      assert l == [q];
    }
  }

  /** `wrap_text(text, width)`: strip, then walk the characters keeping the
      current line and its width; the lines are joined with newlines. */
  method WrapText(w: char -> nat, width: int, text: string) returns (r: string)
    ensures r == JoinWith(WrapLines(w, width, text), "\n")
  {
    var s := Strip(text);
    var lines: seq<string> := [];
    var current: string := "";
    var currentWidth: nat := 0;
    for i := 0 to |s|
      invariant WrapState(lines, current, currentWidth) == WrapFold(w, width, s[..i])
    {
      assert s[..i + 1][..i] == s[..i];
      var charWidth := w(s[i]);
      if currentWidth + charWidth > width {
        lines := lines + [current];
        current := [s[i]];
        currentWidth := charWidth;
      } else {
        current := current + [s[i]];
        currentWidth := currentWidth + charWidth;
      }
    }
    assert s[..|s|] == s;
    if current != [] {
      lines := lines + [current];
    }
    r := JoinWith(lines, "\n");
  }
}
