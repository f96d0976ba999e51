/**
 Translation phases 2 and 3 of section 5.2 of ISO/IEC 14882:2017, as far as a header of comments
 and directives needs them: a backslash at the end of a line splices the next line onto it, a `//`
 comment goes up to the end of its line, and a block comment becomes one space wherever it ends.
 Text with quotes outside comments is not read.
 */
module TranslationPhases {
  import opened CodeUnits
  import opened Wrappers

  const SLASH: Unit := 47
  const STAR: Unit := 42
  const APOSTROPHE: Unit := 39
  const COMMENT: Str := [SLASH, SLASH]

  // ----- phase 2 -----

  predicate Continued(line: Str) {
    line != [] && line[|line| - 1] == BACKSLASH
  }

  /** A line that ends in a backslash is joined with the next one. */
  function Splice(lines: seq<Str>): (r: seq<Str>)
    ensures lines != [] ==> r != []
  {
    if lines == [] then []
    else if Continued(lines[0]) && |lines| > 1 then
      var rest := Splice(lines[1..]);
      [lines[0][..|lines[0]| - 1] + rest[0]] + rest[1..]
    else [lines[0]] + Splice(lines[1..])
  }

  predicate CleanLines(lines: seq<Str>) {
    forall i :: 0 <= i < |lines| ==> NoNewline(lines[i])
  }

  lemma {:induction false} SpliceClean(lines: seq<Str>)
    requires CleanLines(lines)
    ensures CleanLines(Splice(lines))
  {
    if lines != [] {
      SpliceClean(lines[1..]);
    }
  }

  /** A line without a backslash at its end stays as it is. */
  lemma SpliceLine(line: Str, rest: seq<Str>)
    requires !Continued(line)
    ensures Splice([line] + rest) == [line] + Splice(rest)
  {
    assert ([line] + rest)[1..] == rest;
  }

  // ----- phase 3 -----

  predicate IsComment(line: Str) {
    IsPrefix(COMMENT, line)
  }

  predicate OpensBlock(text: Str) {
    |text| >= 2 && text[0] == SLASH && text[1] == STAR
  }

  predicate IsQuoteMark(u: Unit) {
    u == QUOTE || u == APOSTROPHE
  }

  /** From the end of the line on. */
  function AfterLine(text: Str): (r: Str)
    ensures |r| <= |text|
    ensures text != [] && text[0] != LF ==> |r| < |text|
  {
    if text == [] || text[0] == LF then text else AfterLine(text[1..])
  }

  /** What follows the end of a block comment. */
  function AfterBlock(text: Str): (r: Option<Str>)
    ensures r.Some? ==> |r.value| < |text|
  {
    if |text| < 2 then None
    else if text[0] == STAR && text[1] == SLASH then Some(text[2..])
    else AfterBlock(text[1..])
  }

  function Prepend(text: Str, r: Option<Str>): Option<Str> {
    match r
    case None => None
    case Some(rest) => Some(text + rest)
  }

  /** The text without its comments; none for a block comment without an end, and for quotes. */
  function Strip(text: Str): Option<Str>
    decreases |text|
  {
    if text == [] then Some([])
    else if IsComment(text) then Strip(AfterLine(text))
    else if OpensBlock(text) then
      match AfterBlock(text[2..])
      case None => None
      case Some(rest) => Prepend([SPACE], Strip(rest))
    else if IsQuoteMark(text[0]) then None
    else Prepend([text[0]], Strip(text[1..]))
  }

  predicate Blank(line: Str) {
    forall i :: 0 <= i < |line| ==> IsWhite(line[i])
  }

  function NonBlank(lines: seq<Str>): seq<Str> {
    if lines == [] then [] else (if Blank(lines[0]) then [] else [lines[0]]) + NonBlank(lines[1..])
  }

  /** The lines of code, of lines that have been spliced. */
  function Code(lines: seq<Str>): Option<seq<Str>> {
    match Strip(JoinLines(lines))
    case None => None
    case Some(text) => Some(NonBlank(SplitLines(text)))
  }

  /** The lines, then the code that follows. */
  function Ahead(lines: seq<Str>, r: Option<seq<Str>>): Option<seq<Str>> {
    match r
    case None => None
    case Some(rest) => Some(lines + rest)
  }

  lemma JoinCons(line: Str, rest: seq<Str>)
    requires rest != []
    ensures JoinLines([line] + rest) == line + [LF] + JoinLines(rest)
  {
    assert ([line] + rest)[1..] == rest;
  }

  lemma {:induction false} AfterLineIs(line: Str, rest: Str)
    requires NoNewline(line)
    ensures AfterLine(line + [LF] + rest) == [LF] + rest
  {
    var text := line + [LF] + rest;
    if line == [] {
      assert text == [LF] + rest;
    } else {
      AfterLineIs(line[1..], rest);
      assert text[1..] == line[1..] + [LF] + rest;
    }
  }

  lemma StripNewline(rest: Str)
    ensures Strip([LF] + rest) == Prepend([LF], Strip(rest))
  {
    assert ([LF] + rest)[1..] == rest;
    StripFirst([LF] + rest);
  }

  /** A comment line is gone. */
  lemma CommentLine(line: Str, rest: seq<Str>)
    requires IsComment(line) && NoNewline(line) && rest != []
    ensures Code([line] + rest) == Code(rest)
  {
    hide AfterLine, JoinLines;
    var tail := JoinLines(rest);
    var text := line + [LF] + tail;
    JoinCons(line, rest);
    assert IsComment(text) by { assert text[..2] == line[..2]; }
    AfterLineIs(line, tail);
    StripNewline(tail);
    assert Strip(text) == Prepend([LF], Strip(tail));
    if Strip(tail).Some? {
      var t := Strip(tail).value;
      SplitPiece([], t);
      assert [] + [LF] + t == [LF] + t;
      NonBlankCons([], SplitLines(t));
      assert [] + NonBlank(SplitLines(t)) == NonBlank(SplitLines(t));
    }
  }

  lemma NonBlankCons(line: Str, rest: seq<Str>)
    ensures NonBlank([line] + rest) == (if Blank(line) then [] else [line]) + NonBlank(rest)
  {
    assert ([line] + rest)[1..] == rest;
  }

  // ----- lines of code -----

  /** A comment opens at position `i`. */
  predicate OpensAt(s: Str, i: int) {
    0 <= i < |s| - 1 && s[i] == SLASH && (s[i + 1] == SLASH || s[i + 1] == STAR)
  }

  predicate NoOpener(s: Str) {
    forall i :: 0 <= i < |s| ==> !OpensAt(s, i)
  }

  predicate NoQuotes(s: Str) {
    QUOTE !in s && APOSTROPHE !in s
  }

  /** Phase 3 leaves the text before the first comment alone. */
  lemma {:induction false} StripPlain(plain: Str, rest: Str)
    requires NoQuotes(plain)
    requires forall i :: 0 <= i < |plain| ==> !OpensAt(plain + rest, i)
    ensures Strip(plain + rest) == Prepend(plain, Strip(rest))
    decreases |plain|
  {
    var text := plain + rest;
    if plain == [] {
      assert text == rest;
      assert Strip(rest).Some? ==> [] + Strip(rest).value == Strip(rest).value;
    } else {
      var tail := plain[1..] + rest;
      assert text[1..] == tail;
      forall i | 0 <= i < |plain| - 1
        ensures !OpensAt(tail, i)
      {
        assert !OpensAt(text, i + 1);
      }
      StripPlain(plain[1..], rest);
      StripFirst(text);
      PrependTwice(plain[0], plain[1..], Strip(rest));
      assert [plain[0]] + plain[1..] == plain;
    }
  }

  lemma StripFirst(text: Str)
    requires text != [] && !OpensAt(text, 0) && !IsQuoteMark(text[0])
    ensures Strip(text) == Prepend([text[0]], Strip(text[1..]))
  {
    assert |text| >= 2 ==> text[..2][0] == text[0] && text[..2][1] == text[1];
  }

  lemma PrependTwice(u: Unit, text: Str, r: Option<Str>)
    ensures Prepend([u], Prepend(text, r)) == Prepend([u] + text, r)
  {
    if r.Some? {
      assert [u] + (text + r.value) == [u] + text + r.value;
    }
  }

  /** A line of code without comments and quotes stays. */
  lemma CodeLine(line: Str, rest: seq<Str>)
    requires NoNewline(line) && NoOpener(line) && NoQuotes(line) && rest != []
    ensures Code([line] + rest) == Ahead(if Blank(line) then [] else [line], Code(rest))
  {
    hide Strip, JoinLines, Blank;
    var tail := JoinLines(rest);
    JoinCons(line, rest);
    assert line + [LF] + tail == line + ([LF] + tail);
    forall i | 0 <= i < |line|
      ensures !OpensAt(line + ([LF] + tail), i)
    {
      assert !OpensAt(line, i);
    }
    StripPlain(line, [LF] + tail);
    StripNewline(tail);
    if Strip(tail).Some? {
      var t := Strip(tail).value;
      SplitPiece(line, t);
      assert line + ([LF] + t) == line + [LF] + t;
      NonBlankCons(line, SplitLines(t));
    }
  }

  lemma EmptyLine(rest: seq<Str>)
    requires rest != []
    ensures Code([[]] + rest) == Code(rest)
  {
    hide Code;
    CodeLine([], rest);
    assert Code(rest).Some? ==> [] + Code(rest).value == Code(rest).value;
  }

  lemma {:induction false} SplitPrefix(piece: Str, rest: Str)
    requires NoNewline(piece)
    ensures SplitLines(piece + rest) == [piece + SplitLines(rest)[0]] + SplitLines(rest)[1..]
  {
    if piece == [] {
      assert piece + rest == rest && [] + SplitLines(rest)[0] == SplitLines(rest)[0];
      assert SplitLines(rest) == [SplitLines(rest)[0]] + SplitLines(rest)[1..];
    } else {
      SplitPrefix(piece[1..], rest);
      assert (piece + rest)[1..] == piece[1..] + rest;
      var first := SplitLines(rest)[0];
      assert [piece[0]] + (piece[1..] + first) == piece + first;
    }
  }

  /** A line in which a comment opens does not come out as it was, whatever follows. */
  lemma SpoiltLine(line: Str, rest: seq<Str>)
    requires NoNewline(line) && NoQuotes(line) && rest != []
    requires line != [] && !IsWhite(line[0]) && line[0] != SLASH && !NoOpener(line)
    ensures var r := Code([line] + rest);
            r.None? || r.value == [] || (r.value[0] != line && !(line[..FirstOpener(line) + 1] <= r.value[0]))
  {
    hide Strip, JoinLines, SplitLines, Blank;
    var j := FirstOpener(line);
    var plain, tail := line[..j], line[j..] + [LF] + JoinLines(rest);
    JoinCons(line, rest);
    assert line + [LF] + JoinLines(rest) == plain + tail;
    forall i | 0 <= i < j
      ensures !OpensAt(plain + tail, i)
    {
      assert !OpensAt(line, i);
    }
    StripPlain(plain, tail);
    if Strip(tail).Some? {
      var t := Strip(tail).value;
      OpenerLeaves(line[j..], JoinLines(rest));
      SplitPrefix(plain, t);
      FirstLine(t);
      var first := plain + SplitLines(t)[0];
      assert first[0] == line[0];
      assert !Blank(first) by { NotBlank(first); }
      NonBlankCons(first, SplitLines(t)[1..]);
      assert |first| > j ==> first[j] == SPACE;
      assert line[..j + 1][j] == SLASH;
    }
  }

  lemma NotBlank(line: Str)
    requires line != [] && !IsWhite(line[0])
    ensures !Blank(line)
  {
  }

  function FirstOpener(s: Str): (j: nat)
    requires !NoOpener(s)
    ensures OpensAt(s, j) && forall i :: 0 <= i < j ==> !OpensAt(s, i)
  {
    if OpensAt(s, 0) then 0
    else
      assert forall i :: OpensAt(s, i + 1) ==> OpensAt(s[1..], i);
      assert !NoOpener(s[1..]) by { LaterOpener(s); }
      var k := FirstOpener(s[1..]);
      assert forall i :: 1 <= i < k + 1 ==> (OpensAt(s, i) ==> OpensAt(s[1..], i - 1));
      k + 1
  }

  lemma LaterOpener(s: Str)
    requires !NoOpener(s) && !OpensAt(s, 0)
    ensures s != [] && !NoOpener(s[1..])
  {
    var i :| 0 <= i < |s| && OpensAt(s, i);
    assert OpensAt(s[1..], i - 1);
  }

  /** Where a comment start, a newline or a space comes next. */
  lemma OpenerLeaves(start: Str, rest: Str)
    requires NoNewline(start) && OpensAt(start, 0) && Strip(start + [LF] + rest).Some?
    ensures var t := Strip(start + [LF] + rest).value; t != [] && (t[0] == LF || t[0] == SPACE)
  {
    hide AfterLine;
    var text := start + [LF] + rest;
    if start[1] == SLASH {
      assert IsComment(text) by { assert text[..2] == [SLASH, SLASH]; }
      AfterLineIs(start, rest);
      StripNewline(rest);
    } else {
      assert text[0] == SLASH && text[1] == STAR;
      assert !IsComment(text) by {
        assert text[..2][1] == STAR;
      }
    }
  }

  lemma FirstLine(t: Str)
    requires t != [] && (t[0] == LF || t[0] == SPACE)
    ensures var first := SplitLines(t)[0]; first == [] || first[0] == SPACE
  {
  }

  // ----- runs of comments -----

  lemma MergedComment(head: Str, next: Str)
    requires IsComment(head) && Continued(head)
    ensures IsComment(head[..|head| - 1] + next)
  {
    assert |head| >= 3 by {
      assert head[1] == head[..2][1];
    }
    assert (head[..|head| - 1] + next)[..2] == head[..2];
  }

  /** A comment that is closed by a line without a backslash hides itself and nothing else. */
  lemma {:induction false} CommentsVanish(run: seq<Str>, rest: seq<Str>)
    requires run != [] && forall i :: 0 <= i < |run| ==> IsComment(run[i])
    requires !Continued(run[|run| - 1]) && CleanLines(run) && CleanLines(rest) && rest != []
    ensures var r := Splice(run + rest); |r| > 1 && IsComment(r[0]) && Code(r) == Code(Splice(rest))
    decreases |run|
  {
    hide Code, IsComment;
    var head, all := run[0], run + rest;
    var tail := run[1..] + rest;
    assert all[0] == head && all[1..] == tail;
    if |run| == 1 {
      assert tail == rest;
      assert Splice(all) == [head] + Splice(rest);
      CommentLine(head, Splice(rest));
    } else {
      CommentsVanish(run[1..], rest);
      var r := Splice(tail);
      assert CleanLines(r) by { SpliceClean(tail); }
      assert r == [r[0]] + r[1..];
      CommentLine(r[0], r[1..]);
      if Continued(head) {
        MergedComment(head, r[0]);
        assert Splice(all) == [head[..|head| - 1] + r[0]] + r[1..];
        CommentLine(head[..|head| - 1] + r[0], r[1..]);
      } else {
        assert Splice(all) == [head] + r;
        CommentLine(head, r);
      }
    }
  }
}
