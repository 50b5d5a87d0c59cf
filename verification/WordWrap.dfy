// EdifyGenerator._WordWrap (releasetools/edify_generator.py): a command whose parameters are
// separated by NULs is laid out over lines.
module WordWrap {
  import opened Strings

  const NUL: char := '\0'

  datatype Result = Ok(text: string) | ValueError

  lemma FindMember(s: string, c: char)
    ensures c in s <==> Find(s, c) < |s|
  {
  }

  // Where ^(.{,n})\0 ends its group on a newline-free string: the last NUL at or before
  // index n, or |s| if there is none.
  function LastNul(s: string, n: int): (i: nat)
    requires n < |s|
    ensures i <= |s|
    ensures i < |s| ==> i <= n && s[i] == NUL && forall k :: i < k <= n ==> s[k] != NUL
    ensures i == |s| ==> forall k :: 0 <= k <= n ==> s[k] != NUL
    decreases if n < 0 then 0 else n + 1
  {
    if n < 0 then |s| else if s[n] == NUL then n else LastNul(s, n - 1)
  }

  function Match(s: string, n: nat): nat { LastNul(s, if n < |s| then n else |s| - 1) }

  // The end of the first line: the longest match, or failing that the first NUL, or all of it.
  function BreakAt(s: string, n: nat): (i: nat)
    ensures i <= |s| && (i < |s| ==> s[i] == NUL) && (i == |s| ==> NUL !in s)
  {
    var j := Match(s, n);
    if j < |s| then j else Find(s, NUL)
  }

  function Lines(s: string, n: nat): (lines: seq<string>)
    ensures lines != []
    decreases |s|
  {
    var j := BreakAt(s, n);
    if j < |s| then [s[..j]] + Lines(s[j + 1..], n) else [s]
  }

  // ----- What the layout keeps -----

  function Join(lines: seq<string>): string
    requires lines != []
  {
    if |lines| == 1 then lines[0] else lines[0] + [NUL] + Join(lines[1..])
  }

  lemma JoinCons(line: string, tail: seq<string>)
    requires tail != []
    ensures Join([line] + tail) == line + [NUL] + Join(tail)
  {
    assert ([line] + tail)[1..] == tail;
  }

  lemma JoinOne(line: string)
    ensures Join([line]) == line
  {
  }

  // The lines, joined by NULs, are the command: every segment, in order, nothing else.
  lemma {:induction false} LinesKeepSegments(s: string, n: nat)
    ensures Join(Lines(s, n)) == s
    decreases |s|
  {
    hide Join, BreakAt;
    var j := BreakAt(s, n);
    if j < |s| {
      LinesKeepSegments(s[j + 1..], n);
      JoinCons(s[..j], Lines(s[j + 1..], n));
      assert s == s[..j] + [NUL] + s[j + 1..];
    } else {
      JoinOne(s);
    }
  }

  // A line wider than n is a single segment; the last line always is one, however short.
  lemma {:induction false} LineWidths(s: string, n: nat)
    ensures forall i :: 0 <= i < |Lines(s, n)| ==> |Lines(s, n)[i]| <= n || NUL !in Lines(s, n)[i]
    ensures NUL !in Lines(s, n)[|Lines(s, n)| - 1]
    decreases |s|
  {
    var j := BreakAt(s, n);
    if j < |s| {
      LineWidths(s[j + 1..], n);
      var rest := Lines(s[j + 1..], n);
      assert forall i :: 1 <= i < |Lines(s, n)| ==> Lines(s, n)[i] == rest[i - 1];
    }
  }

  // Greedy packing: a line followed by another ends only because the next segment that has a
  // successor would not fit behind it.
  ghost predicate Greedy(lines: seq<string>, n: nat) {
    forall i :: 0 <= i < |lines| - 1 ==> FullLine(lines, i, n)
  }

  ghost predicate FullLine(lines: seq<string>, i: nat, n: nat)
    requires i < |lines| - 1
  {
    var rest := Join(lines[i..]);
    forall k :: |lines[i]| < k <= n && k < |rest| ==> rest[k] != NUL
  }

  lemma {:induction false} LinesGreedy(s: string, n: nat)
    ensures Greedy(Lines(s, n), n)
    decreases |s|
  {
    var j := BreakAt(s, n);
    if j < |s| {
      var lines, rest := Lines(s, n), Lines(s[j + 1..], n);
      LinesGreedy(s[j + 1..], n);
      LinesKeepSegments(s, n);
      forall i | 0 <= i < |lines| - 1 ensures FullLine(lines, i, n) {
        if i == 0 {
          assert lines[0..] == lines;
        } else {
          assert lines[i..] == rest[i - 1..];
          assert FullLine(rest, i - 1, n);
        }
      }
    }
  }

  // ----- The text -----

  function Spaces(k: nat): string { seq(k, _ => ' ') }

  function Replaced(s: string): string { seq(|s|, i requires 0 <= i < |s| => if s[i] == NUL then ' ' else s[i]) }

  // The pieces appended by the loop: indentation except on the first line, the line, a newline.
  function Emit(lines: seq<string>, indent: nat, first: bool): string {
    if lines == [] then ""
    else (if first then "" else Spaces(indent)) + lines[0] + "\n" + Emit(lines[1..], indent, false)
  }

  function RStripNewlines(s: string): string {
    if s != [] && s[|s| - 1] == '\n' then RStripNewlines(s[..|s| - 1]) else s
  }

  // Lines separated by a newline and the indentation, NULs inside a line shown as spaces.
  function Render(lines: seq<string>, indent: nat): string
    requires lines != []
  {
    if |lines| == 1 then Replaced(lines[0])
    else Replaced(lines[0]) + "\n" + Spaces(indent) + Render(lines[1..], indent)
  }

  lemma ReplacedConcat(a: string, b: string)
    ensures Replaced(a + b) == Replaced(a) + Replaced(b)
  {
  }

  lemma ReplacedPlain(k: nat)
    ensures Replaced(Spaces(k)) == Spaces(k) && Replaced("\n") == "\n" && Replaced("") == ""
  {
  }

  lemma {:induction false} EmitIsRender(lines: seq<string>, indent: nat, first: bool)
    requires lines != []
    ensures Replaced(Emit(lines, indent, first))
         == (if first then "" else Spaces(indent)) + Render(lines, indent) + "\n"
    decreases |lines|
  {
    var lead := if first then "" else Spaces(indent);
    var tail := Emit(lines[1..], indent, false);
    var line := Replaced(lines[0]);
    ReplacedPlain(indent);
    ReplacedConcat(lead, lines[0]);
    ReplacedConcat(lead + lines[0], "\n");
    ReplacedConcat(lead + lines[0] + "\n", tail);
    assert Replaced(Emit(lines, indent, first)) == lead + line + "\n" + Replaced(tail);
    if |lines| == 1 {
      assert tail == "";
    } else {
      EmitIsRender(lines[1..], indent, false);
      IndentedLine(lead, line, Spaces(indent), Render(lines[1..], indent));
    }
  }

  lemma IndentedLine(lead: string, line: string, gap: string, text: string)
    ensures lead + line + "\n" + (gap + text + "\n") == lead + (line + "\n" + gap + text) + "\n"
  {
  }

  // The rendered text does not end in a newline, so only the final one is stripped.
  lemma {:induction false} RenderEnd(lines: seq<string>, indent: nat)
    requires lines != [] && indent > 0 && (|lines| == 1 ==> lines[0] != [])
    requires forall i :: 0 <= i < |lines| ==> '\n' !in lines[i]
    ensures Render(lines, indent) != [] && Render(lines, indent)[|Render(lines, indent)| - 1] != '\n'
    decreases |lines|
  {
    if |lines| > 1 {
      var rest := lines[1..];
      assert forall i :: 0 <= i < |rest| ==> rest[i] == lines[i + 1];
      if rest == [[]] {
        assert Render(rest, indent) == [];
      } else {
        RenderEnd(rest, indent);
      }
    }
  }

  lemma {:induction false} LinesNewlineFree(s: string, n: nat)
    requires '\n' !in s
    ensures forall i :: 0 <= i < |Lines(s, n)| ==> '\n' !in Lines(s, n)[i]
    decreases |s|
  {
    var j := BreakAt(s, n);
    if j < |s| {
      LinesNewlineFree(s[j + 1..], n);
    }
  }

  // Characters that do not separate tokens.
  function Tokens(s: string): string {
    if s == [] then []
    else (if s[0] == ' ' || s[0] == '\n' || s[0] == NUL then [] else [s[0]]) + Tokens(s[1..])
  }

  lemma {:induction false} TokensConcat(a: string, b: string)
    ensures Tokens(a + b) == Tokens(a) + Tokens(b)
    decreases |a|
  {
    if a == [] {
      assert a + b == b;
    } else {
      assert (a + b)[1..] == a[1..] + b;
      TokensConcat(a[1..], b);
    }
  }

  lemma {:induction false} TokensBlank(s: string)
    requires forall i :: 0 <= i < |s| ==> s[i] == ' ' || s[i] == '\n' || s[i] == NUL
    ensures Tokens(s) == []
  {
    if s != [] {
      TokensBlank(s[1..]);
    }
  }

  lemma {:induction false} TokensReplaced(s: string)
    ensures Tokens(Replaced(s)) == Tokens(s)
  {
    if s != [] {
      TokensReplaced(s[1..]);
      assert Replaced(s)[1..] == Replaced(s[1..]);
    }
  }

  // Laid out or not, the command reads the same: only white space differs.
  lemma {:induction false} RenderKeepsTokens(lines: seq<string>, indent: nat)
    requires lines != []
    ensures Tokens(Render(lines, indent)) == Tokens(Join(lines))
    decreases |lines|
  {
    TokensReplaced(lines[0]);
    if |lines| > 1 {
      var tail := Render(lines[1..], indent);
      RenderKeepsTokens(lines[1..], indent);
      assert Render(lines, indent) == Replaced(lines[0]) + ("\n" + Spaces(indent) + tail);
      TokensConcat(Replaced(lines[0]), "\n" + Spaces(indent) + tail);
      TokensConcat("\n" + Spaces(indent), tail);
      TokensBlank("\n" + Spaces(indent));
      TokensConcat(lines[0], [NUL] + Join(lines[1..]));
      TokensConcat([NUL], Join(lines[1..]));
      TokensBlank([NUL]);
      assert Join(lines) == lines[0] + ([NUL] + Join(lines[1..]));
    }
  }

  // ----- Reading the text -----

  // The text with every newline, and the indentation behind it, as one space.
  function Unwrapped(text: string, indent: nat): string
    decreases |text|
  {
    if text == [] then []
    else if text[0] == '\n' then
      [' '] + Unwrapped(if 1 + indent <= |text| then text[1 + indent..] else [], indent)
    else [text[0]] + Unwrapped(text[1..], indent)
  }

  // Every newline is followed by the indentation.
  ghost predicate Indented(text: string, indent: nat) {
    forall k :: 0 <= k < |text| && text[k] == '\n' ==> GapAt(text, indent, k)
  }

  ghost predicate GapAt(text: string, indent: nat, k: nat) {
    k + indent < |text| && forall j :: k < j <= k + indent ==> text[j] == ' '
  }

  // u is s with a space for each NUL.
  ghost predicate SpacesForNuls(u: string, s: string) {
    |u| == |s| && forall i :: 0 <= i < |s| ==> u[i] == if s[i] == NUL then ' ' else s[i]
  }

  // The text cut at its newlines.
  function Physical(text: string): (lines: seq<string>)
    ensures lines != []
    decreases |text|
  {
    var j := Find(text, '\n');
    if j < |text| then [text[..j]] + Physical(text[j + 1..]) else [text]
  }

  lemma {:induction false} UnwrapPlain(a: string, rest: string, indent: nat)
    requires '\n' !in a
    ensures Unwrapped(a + rest, indent) == a + Unwrapped(rest, indent)
    decreases |a|
  {
    if a == [] {
      assert a + rest == rest;
    } else {
      assert (a + rest)[1..] == a[1..] + rest;
      UnwrapPlain(a[1..], rest, indent);
    }
  }

  lemma UnwrapBreak(rest: string, indent: nat)
    ensures Unwrapped("\n" + Spaces(indent) + rest, indent) == " " + Unwrapped(rest, indent)
  {
    var text := "\n" + Spaces(indent) + rest;
    assert text[1 + indent..] == rest;
  }

  lemma ReplacedMeans(s: string)
    ensures SpacesForNuls(Replaced(s), s) && NUL !in Replaced(s) && ('\n' !in s ==> '\n' !in Replaced(s))
  {
  }

  lemma Split(lines: seq<string>, indent: nat)
    requires lines != []
    ensures |lines| == 1 ==> Render(lines, indent) == Replaced(lines[0]) && Join(lines) == lines[0]
    ensures |lines| > 1 ==>
      && Render(lines, indent) == Replaced(lines[0]) + ("\n" + Spaces(indent) + Render(lines[1..], indent))
      && Join(lines) == lines[0] + ([NUL] + Join(lines[1..]))
  {
    hide Replaced;
    if |lines| > 1 {
      var line, gap, tail := Replaced(lines[0]), Spaces(indent), Render(lines[1..], indent);
      assert line + "\n" + gap + tail == line + ("\n" + gap + tail);
    }
  }

  lemma UnwrapLine(line: string, indent: nat)
    requires '\n' !in line
    ensures Unwrapped(line, indent) == line
  {
    UnwrapPlain(line, [], indent);
    assert line + [] == line;
  }

  lemma {:induction false} RenderUnwraps(lines: seq<string>, indent: nat)
    requires lines != [] && forall i :: 0 <= i < |lines| ==> '\n' !in lines[i]
    ensures SpacesForNuls(Unwrapped(Render(lines, indent), indent), Join(lines))
    decreases |lines|
  {
    hide Replaced, Render, Join, Unwrapped, SpacesForNuls;
    ReplacedMeans(lines[0]);
    Split(lines, indent);
    var line := Replaced(lines[0]);
    if |lines| == 1 {
      UnwrapLine(line, indent);
    } else {
      var rest := lines[1..];
      RenderUnwraps(rest, indent);
      var tail := Render(rest, indent);
      UnwrapPlain(line, "\n" + Spaces(indent) + tail, indent);
      UnwrapBreak(tail, indent);
      SpaceForNul(Unwrapped(tail, indent), Join(rest));
      SpacesConcat(line, lines[0], " " + Unwrapped(tail, indent), [NUL] + Join(rest));
    }
  }

  lemma SpaceForNul(u: string, s: string)
    requires SpacesForNuls(u, s)
    ensures SpacesForNuls(" " + u, [NUL] + s)
  {
  }

  lemma {:induction false} RenderNoNul(lines: seq<string>, indent: nat)
    requires lines != []
    ensures NUL !in Render(lines, indent)
    decreases |lines|
  {
    hide Replaced, Render, Join;
    ReplacedMeans(lines[0]);
    Split(lines, indent);
    if |lines| > 1 {
      RenderNoNul(lines[1..], indent);
    }
  }

  lemma SpacesConcat(u: string, s: string, v: string, t: string)
    requires SpacesForNuls(u, s) && SpacesForNuls(v, t)
    ensures SpacesForNuls(u + v, s + t)
  {
  }

  lemma {:induction false} RenderIndented(lines: seq<string>, indent: nat)
    requires lines != [] && forall i :: 0 <= i < |lines| ==> '\n' !in lines[i]
    ensures Indented(Render(lines, indent), indent)
    decreases |lines|
  {
    hide Replaced, Render, Join;
    ReplacedMeans(lines[0]);
    Split(lines, indent);
    if |lines| > 1 {
      RenderIndented(lines[1..], indent);
      IndentedConcat(Replaced(lines[0]), Render(lines[1..], indent), indent);
    }
  }

  lemma IndentedConcat(a: string, tail: string, indent: nat)
    requires '\n' !in a && Indented(tail, indent)
    ensures Indented(a + ("\n" + Spaces(indent) + tail), indent)
  {
    var text, start := a + ("\n" + Spaces(indent) + tail), |a| + 1 + indent;
    assert text[start..] == tail;
    forall k | 0 <= k < |text| && text[k] == '\n' ensures GapAt(text, indent, k) {
      if k >= start {
        assert tail[k - start] == '\n' && GapAt(tail, indent, k - start);
        assert forall j :: k < j <= k + indent ==> text[j] == tail[j - start];
      } else {
        assert k == |a|;
      }
    }
  }

  lemma FindBreak(a: string, rest: string)
    requires '\n' !in a
    ensures Find(a + "\n" + rest, '\n') == |a| && Find(a, '\n') == |a|
  {
    var s := a + "\n" + rest;
    assert s[|a|] == '\n';
  }

  // Each line of the layout is one line of the text, behind the indentation from the second on.
  lemma {:induction false} RenderPhysical(lines: seq<string>, indent: nat, lead: string)
    requires lines != [] && '\n' !in lead && forall i :: 0 <= i < |lines| ==> '\n' !in lines[i]
    ensures var p := Physical(lead + Render(lines, indent));
      && |p| == |lines|
      && forall k :: 0 <= k < |lines| ==> |p[k]| == (if k == 0 then |lead| else indent) + |lines[k]|
    decreases |lines|
  {
    hide Replaced, Render, Join, Physical;
    ReplacedMeans(lines[0]);
    Split(lines, indent);
    var line := lead + Replaced(lines[0]);
    if |lines| == 1 {
      PhysicalLine(line);
    } else {
      var rest := lines[1..];
      RenderPhysical(rest, indent, Spaces(indent));
      var tail := Spaces(indent) + Render(rest, indent);
      PhysicalBreak(line, tail);
      assert lead + Render(lines, indent) == line + "\n" + tail;
    }
  }

  lemma PhysicalLine(line: string)
    requires '\n' !in line
    ensures Physical(line) == [line]
  {
    FindBreak(line, "");
  }

  lemma PhysicalBreak(line: string, tail: string)
    requires '\n' !in line
    ensures Physical(line + "\n" + tail) == [line] + Physical(tail)
  {
    FindBreak(line, tail);
    var text := line + "\n" + tail;
    assert text[..|line|] == line && text[|line| + 1..] == tail;
  }

  // What a reader of the text sees: no NUL; every line after the first indented; the lines of
  // the layout; and, unwrapped, the command with a space for each NUL.
  ghost predicate Reads(text: string, cmd: string, lines: seq<string>, indent: nat) {
    && NUL !in text && Indented(text, indent) && SpacesForNuls(Unwrapped(text, indent), cmd)
    && |Physical(text)| == |lines|
    && forall k :: 0 <= k < |lines| ==> |Physical(text)[k]| == (if k == 0 then 0 else indent) + |lines[k]|
  }

  lemma RenderReads(cmd: string, n: nat, indent: nat)
    requires '\n' !in cmd
    ensures Reads(Render(Lines(cmd, n), indent), cmd, Lines(cmd, n), indent)
  {
    hide Render, Lines, Indented, Unwrapped, Physical, SpacesForNuls;
    var lines := Lines(cmd, n);
    LinesKeepSegments(cmd, n);
    LinesNewlineFree(cmd, n);
    RenderUnwraps(lines, indent);
    RenderNoNul(lines, indent);
    RenderIndented(lines, indent);
    RenderPhysical(lines, indent, "");
    assert "" + Render(lines, indent) == Render(lines, indent);
  }

  // No line of the text is longer than linelen, except one that holds a single segment.
  lemma TextWidths(text: string, cmd: string, linelen: nat, indent: nat)
    requires indent <= linelen && Reads(text, cmd, Lines(cmd, linelen - indent), indent)
    ensures forall k :: 0 <= k < |Physical(text)| ==>
              |Physical(text)[k]| <= linelen || NUL !in Lines(cmd, linelen - indent)[k]
  {
    hide Physical, Lines;
    LineWidths(cmd, linelen - indent);
  }

  // ----- The method -----

  // One turn of the loop.
  lemma EmitStep(rest: string, n: nat, indent: nat, first: bool)
    ensures var j := BreakAt(rest, n);
      Emit(Lines(rest, n), indent, first) ==
        (if first then "" else Spaces(indent)) + rest[..j] + "\n" +
        if j < |rest| then Emit(Lines(rest[j + 1..], n), indent, false) else ""
  {
    var j, lines := BreakAt(rest, n), Lines(rest, n);
    if j < |rest| {
      assert lines[1..] == Lines(rest[j + 1..], n);
    } else {
      assert lines[1..] == [] && rest[..j] == rest;
    }
  }

  method WordWrap(cmd: string, linelen: int) returns (r: Result)
    requires '\n' !in cmd && ('(' in cmd ==> Find(cmd, '(') + 1 <= linelen)
    ensures r.ValueError? <==> '(' !in cmd
    ensures '(' in cmd ==>
      var indent := Find(cmd, '(') + 1;
      && r.text == Render(Lines(cmd, linelen - indent), indent)
      && Tokens(r.text) == Tokens(cmd)
      && Reads(r.text, cmd, Lines(cmd, linelen - indent), indent)
  {
    hide *;
    FindMember(cmd, '(');
    var paren := Find(cmd, '(');
    if paren == |cmd| {
      return ValueError;
    }
    var indent := paren + 1;
    var out := Layout(cmd, linelen - indent, indent);
    WrapMeaning(cmd, linelen - indent, indent);
    RenderReads(cmd, linelen - indent, indent);
    r := Ok(RStripNewlines(Replaced(out)));
  }

  // The loop.
  method Layout(cmd: string, n: nat, indent: nat) returns (out: string)
    ensures out == Emit(Lines(cmd, n), indent, true)
  {
    hide *;
    out := "";
    var rest, first, more := cmd, true, true;
    ghost var tail := Emit(Lines(cmd, n), indent, true);
    while more
      invariant tail == if more then Emit(Lines(rest, n), indent, first) else ""
      invariant out + tail == Emit(Lines(cmd, n), indent, true)
      decreases |rest|, more
    {
      EmitStep(rest, n, indent, first);
      ghost var out0, lead := out, if first then "" else Spaces(indent);
      if !first {
        out := out + Spaces(indent);
      }
      first := false;
      var j := NextBreak(rest, n);
      out := out + rest[..j] + "\n";
      ghost var piece := rest[..j];
      if j == |rest| {
        more, tail := false, "";
      } else {
        rest := rest[j + 1..];
        tail := Emit(Lines(rest, n), indent, false);
      }
      Regroup(out0, lead, piece, tail);
    }
    assert out + "" == out;
  }

  // The regular expression, and the split it falls back on.
  method NextBreak(rest: string, n: nat) returns (j: nat)
    ensures j == BreakAt(rest, n)
  {
    j := Match(rest, n);
    if j == |rest| {
      j := Find(rest, NUL);
    }
  }

  lemma Regroup(out: string, lead: string, piece: string, tail: string)
    ensures out + (lead + piece + "\n" + tail) == (out + lead + piece + "\n") + tail
    ensures out + "" + piece == out + piece
  {
  }

  // From the pieces to the text, and from the text to its tokens.
  lemma WrapMeaning(cmd: string, n: nat, indent: nat)
    requires '\n' !in cmd && cmd != [] && indent > 0
    ensures RStripNewlines(Replaced(Emit(Lines(cmd, n), indent, true))) == Render(Lines(cmd, n), indent)
    ensures Tokens(Render(Lines(cmd, n), indent)) == Tokens(cmd)
  {
    var lines := Lines(cmd, n);
    LinesKeepSegments(cmd, n);
    LinesNewlineFree(cmd, n);
    EmitIsRender(lines, indent, true);
    RenderEnd(lines, indent);
    StripOne(Render(lines, indent));
    RenderKeepsTokens(lines, indent);
    hide Lines, Emit, Render, Tokens, Replaced, RStripNewlines;
    assert "" + Render(lines, indent) == Render(lines, indent);
  }

  lemma StripOne(s: string)
    requires s != [] && s[|s| - 1] != '\n'
    ensures RStripNewlines(s + "\n") == s
  {
    assert (s + "\n")[..|s|] == s;
  }
}
