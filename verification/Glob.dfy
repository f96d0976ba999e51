/**
 The glob matcher behind `--filter`: an iterative loop with one backtracking point
 (integration-tests/src/Framework/ScenarioRegistry.cxx), proved against the
 declarative meaning of `*` and `?`.

 The loop tests literal equality before it tests for `*`, so a `*` in the text facing a
 `*` in the pattern is consumed as an ordinary character.  The matcher is therefore
 sound on every text and complete exactly on the texts without a `*`.
 */
module Glob {

  /** The declarative meaning of a glob: `*` stands for any text, `?` for any one character. */
  ghost predicate Matches(pattern: string, text: string) {
    if pattern == "" then text == ""
    else if pattern[0] == '*' then exists k :: 0 <= k <= |text| && Matches(pattern[1..], text[k..])
    else text != "" && (pattern[0] == '?' || pattern[0] == text[0]) && Matches(pattern[1..], text[1..])
  }

  /** The backtracking point: where in the pattern the last star is, and where in the text it was tried last. */
  datatype Star = NoStar | Star(pattern: nat, text: nat)

  /** Lexicographic termination measure: the last star moves right, then its retry position, then the cursors. */
  function Measure0(pattern: string, star: Star): nat {
    if star.NoStar? || star.pattern > |pattern| then |pattern| + 1 else |pattern| - star.pattern
  }

  function Measure1(text: string, star: Star): nat {
    if star.NoStar? || star.text > |text| then |text| + 1 else |text| - star.text
  }

  predicate InRange(pattern: string, text: string, p: nat, t: nat, star: Star) {
    && p <= |pattern| && t <= |text|
    && (star.Star? ==> star.pattern < p && star.text <= t && pattern[star.pattern] == '*')
  }

  /** The loop of the matcher, as a function of its cursors and its backtracking point. */
  predicate Scan(pattern: string, text: string, p: nat, t: nat, star: Star)
    requires InRange(pattern, text, p, t, star)
    decreases Measure0(pattern, star), Measure1(text, star), |text| - t + |pattern| - p
  {
    if t == |text| then OnlyStars(pattern[p..])
    else if p < |pattern| && (pattern[p] == '?' || pattern[p] == text[t]) then
      Scan(pattern, text, p + 1, t + 1, star)
    else if p < |pattern| && pattern[p] == '*' then
      Scan(pattern, text, p + 1, t, Star(p, t))
    else if star.Star? then
      Scan(pattern, text, star.pattern + 1, star.text + 1, Star(star.pattern, star.text + 1))
    else false
  }

  predicate OnlyStars(s: string) {
    forall i :: 0 <= i < |s| ==> s[i] == '*'
  }

  /** What the matcher answers, as a function of its inputs. */
  predicate Accepts(pattern: string, text: string) {
    pattern == "" || Scan(pattern, text, 0, 0, NoStar)
  }

  method MatchesGlob(pattern: string, text: string) returns (matched: bool)
    ensures matched == Accepts(pattern, text)
    ensures matched ==> pattern == "" || Matches(pattern, text)
    ensures '*' !in text && pattern != "" ==> (matched <==> Matches(pattern, text))
  {
    Sound(pattern, text);
    if '*' !in text {
      Complete(pattern, text);
    }
    if |pattern| == 0 {
      return true;
    }
    var patternIndex: nat, textIndex: nat := 0, 0;
    var star := NoStar;
    while textIndex < |text|
      invariant InRange(pattern, text, patternIndex, textIndex, star)
      invariant Scan(pattern, text, patternIndex, textIndex, star) == Scan(pattern, text, 0, 0, NoStar)
      decreases Measure0(pattern, star), Measure1(text, star), |text| - textIndex + |pattern| - patternIndex
    {
      if patternIndex < |pattern| && (pattern[patternIndex] == '?' || pattern[patternIndex] == text[textIndex]) {
        patternIndex := patternIndex + 1;
        textIndex := textIndex + 1;
      } else if patternIndex < |pattern| && pattern[patternIndex] == '*' {
        star := Star(patternIndex, textIndex);
        patternIndex := patternIndex + 1;
      } else if star.Star? {
        patternIndex := star.pattern + 1;
        star := Star(star.pattern, star.text + 1);
        textIndex := star.text;
      } else {
        return false;
      }
    }
    ghost var from := patternIndex;
    while patternIndex < |pattern| && pattern[patternIndex] == '*'
      invariant from <= patternIndex <= |pattern|
      invariant forall i :: from <= i < patternIndex ==> pattern[i] == '*'
    {
      patternIndex := patternIndex + 1;
    }
    StarsDecide(pattern, from, patternIndex);
    return patternIndex == |pattern|;
  }

  lemma StarsDecide(pattern: string, from: nat, to: nat)
    requires from <= to <= |pattern| && forall i :: from <= i < to ==> pattern[i] == '*'
    requires to < |pattern| ==> pattern[to] != '*'
    ensures OnlyStars(pattern[from..]) <==> to == |pattern|
  {
    if to < |pattern| {
      assert pattern[from..][to - from] != '*';
    }
  }

  // ----- declarative matching -----

  lemma {:induction false} OnlyStarsMatchEmpty(pattern: string)
    ensures OnlyStars(pattern) <==> Matches(pattern, "")
  {
    if pattern != "" {
      OnlyStarsMatchEmpty(pattern[1..]);
      assert pattern == [pattern[0]] + pattern[1..];
      if pattern[0] == '*' {
        assert ""[0..] == "";
      }
    }
  }

  /** A leading star may absorb one more character. */
  lemma StarExtends(rest: string, text: string, k: nat)
    requires k <= |text|
    requires Matches(['*'] + rest, text[k..])
    ensures Matches(['*'] + rest, text)
  {
    assert (['*'] + rest)[1..] == rest;
    var j :| 0 <= j <= |text[k..]| && Matches(rest, text[k..][j..]);
    assert text[k..][j..] == text[k + j..];
  }

  /** Unfolding of a leading star: it absorbs nothing, or one character and remains. */
  lemma StarStep(rest: string, text: string)
    ensures Matches(['*'] + rest, text) <==>
            Matches(rest, text) || (text != "" && Matches(['*'] + rest, text[1..]))
  {
    assert (['*'] + rest)[1..] == rest;
    assert text[0..] == text;
    if Matches(['*'] + rest, text) {
      var k :| 0 <= k <= |text| && Matches(rest, text[k..]);
      if k > 0 {
        assert text[1..][k - 1..] == text[k..];
      }
    }
    if text != "" && Matches(['*'] + rest, text[1..]) {
      StarExtends(rest, text, 1);
    }
  }

  // ----- soundness, on every text -----

  /** What is still possible from a loop state: go on from the cursors, or retry after the last star. */
  ghost predicate Alive(pattern: string, text: string, p: nat, t: nat, star: Star)
    requires InRange(pattern, text, p, t, star)
  {
    || Matches(pattern[p..], text[t..])
    || (star.Star? && star.text < |text| && Matches(pattern[star.pattern..], text[star.text + 1..]))
  }

  lemma {:induction false} ScanSound(pattern: string, text: string, p: nat, t: nat, star: Star)
    requires InRange(pattern, text, p, t, star)
    requires Scan(pattern, text, p, t, star)
    ensures Alive(pattern, text, p, t, star)
    decreases Measure0(pattern, star), Measure1(text, star), |text| - t + |pattern| - p
  {
    if t == |text| {
      assert text[t..] == "";
      OnlyStarsMatchEmpty(pattern[p..]);
    } else if p < |pattern| && (pattern[p] == '?' || pattern[p] == text[t]) {
      ScanSound(pattern, text, p + 1, t + 1, star);
      assert pattern[p..] == [pattern[p]] + pattern[p + 1..];
      assert text[t..][1..] == text[t + 1..] && pattern[p..][1..] == pattern[p + 1..];
      if pattern[p] == '*' && Matches(pattern[p + 1..], text[t + 1..]) {
        assert text[t..][1..] == text[t + 1..];
      }
    } else if p < |pattern| && pattern[p] == '*' {
      ScanSound(pattern, text, p + 1, t, Star(p, t));
      assert pattern[p..] == ['*'] + pattern[p + 1..];
      StarStep(pattern[p + 1..], text[t..]);
      assert text[t..][1..] == text[t + 1..];
    } else if star.Star? {
      ScanSound(pattern, text, star.pattern + 1, star.text + 1, Star(star.pattern, star.text + 1));
      assert pattern[star.pattern..] == ['*'] + pattern[star.pattern + 1..];
      StarStep(pattern[star.pattern + 1..], text[star.text + 1..]);
      if star.text + 1 < |text| {
        assert text[star.text + 1..][1..] == text[star.text + 2..];
      }
    }
  }

  lemma Sound(pattern: string, text: string)
    ensures Accepts(pattern, text) ==> pattern == "" || Matches(pattern, text)
  {
    if Accepts(pattern, text) && pattern != "" {
      ScanSound(pattern, text, 0, 0, NoStar);
      assert pattern[0..] == pattern && text[0..] == text;
    }
  }

  // ----- completeness, on texts without a star -----

  /**
   Only the last star has to be retried: when the pattern between two stars has been
   matched as early as possible, a match that would retry an earlier star can be turned
   into one that lets the later star absorb more.
   Here `w` is the star-free stretch between the stars, matched at `t - |w| .. t`.
   */
  lemma {:induction false} LaterStarSuffices(rest: string, text: string, w: string, t: nat)
    requires |w| <= t <= |text|
    requires '*' !in w
    requires Matches(['*'] + w + ['*'] + rest, text[t - |w|..])
    ensures Matches(['*'] + rest, text[t..])
  {
    var whole := ['*'] + w + ['*'] + rest;
    assert whole[1..] == w + (['*'] + rest);
    var from := t - |w|;
    var k :| 0 <= k <= |text[from..]| && Matches(whole[1..], text[from..][k..]);
    assert text[from..][k..] == text[from + k..];
    StarFreePrefix(w, ['*'] + rest, text[from + k..]);
    assert text[from + k..][|w|..] == text[t + k..];
    assert text[t..][k..] == text[t + k..];
    StarExtends(rest, text[t..], k);
  }

  /** A star-free prefix of a pattern takes exactly its own length of text. */
  lemma {:induction false} StarFreePrefix(w: string, rest: string, text: string)
    requires '*' !in w
    requires Matches(w + rest, text)
    ensures |w| <= |text| && Matches(rest, text[|w|..])
  {
    if w == "" {
      assert w + rest == rest && text[0..] == text;
    } else {
      assert (w + rest)[1..] == w[1..] + rest && (w + rest)[0] == w[0];
      StarFreePrefix(w[1..], rest, text[1..]);
      assert text[1..][|w| - 1..] == text[|w|..];
    }
  }

  /** Everything a run over a star-free text maintains: since the last star the pattern is star-free. */
  ghost predicate Segment(pattern: string, text: string, p: nat, t: nat, star: Star) {
    && InRange(pattern, text, p, t, star)
    && (star.Star? ==> p - star.pattern - 1 == t - star.text && '*' !in pattern[star.pattern + 1..p])
  }

  lemma {:induction false} ScanComplete(pattern: string, text: string, p: nat, t: nat, star: Star)
    requires '*' !in text
    requires Segment(pattern, text, p, t, star)
    requires Alive(pattern, text, p, t, star)
    ensures Scan(pattern, text, p, t, star)
    decreases Measure0(pattern, star), Measure1(text, star), |text| - t + |pattern| - p
  {
    if t == |text| {
      EndOfText(pattern, text, p, star);
    } else if p < |pattern| && (pattern[p] == '?' || pattern[p] == text[t]) {
      assert pattern[p] != '*';
      assert pattern[p..][1..] == pattern[p + 1..] && text[t..][1..] == text[t + 1..];
      if star.Star? {
        assert pattern[star.pattern + 1..p + 1] == pattern[star.pattern + 1..p] + [pattern[p]];
      }
      ScanComplete(pattern, text, p + 1, t + 1, star);
    } else if p < |pattern| && pattern[p] == '*' {
      NewStar(pattern, text, p, t, star);
      ScanComplete(pattern, text, p + 1, t, Star(p, t));
    } else if star.Star? {
      Retry(pattern, text, p, t, star);
      assert pattern[star.pattern + 1..star.pattern + 1] == "";
      ScanComplete(pattern, text, star.pattern + 1, star.text + 1, Star(star.pattern, star.text + 1));
    }
  }

  /** When the pattern reaches a star, the star takes over from the one before it. */
  lemma NewStar(pattern: string, text: string, p: nat, t: nat, star: Star)
    requires Segment(pattern, text, p, t, star)
    requires Alive(pattern, text, p, t, star)
    requires p < |pattern| && t < |text| && pattern[p] == '*'
    ensures Segment(pattern, text, p + 1, t, Star(p, t)) && Alive(pattern, text, p + 1, t, Star(p, t))
  {
    hide Matches;
    var rest := pattern[p + 1..];
    assert pattern[p..] == ['*'] + rest;
    if !Matches(pattern[p..], text[t..]) {
      var w := pattern[star.pattern + 1..p];
      assert pattern[star.pattern..] == ['*'] + w + ['*'] + rest;
      assert ['*'] + (w + ['*'] + rest) == pattern[star.pattern..];
      assert text[star.text..][1..] == text[star.text + 1..];
      StarExtends(w + ['*'] + rest, text[star.text..], 1);
      LaterStarSuffices(rest, text, w, t);
    }
    StarStep(rest, text[t..]);
    assert text[t..][1..] == text[t + 1..];
    assert pattern[p + 1..p + 1] == "";
  }

  lemma EndOfText(pattern: string, text: string, p: nat, star: Star)
    requires Segment(pattern, text, p, |text|, star)
    requires Alive(pattern, text, p, |text|, star)
    ensures OnlyStars(pattern[p..])
  {
    assert text[|text|..] == "";
    OnlyStarsMatchEmpty(pattern[p..]);
    if !Matches(pattern[p..], "") {
      // A retry would have to fit the stretch after the star into less text than it needs.
      var w := pattern[star.pattern + 1..p];
      assert pattern[star.pattern..][1..] == w + pattern[p..];
      var k :| 0 <= k <= |text[star.text + 1..]| && Matches(pattern[star.pattern..][1..], text[star.text + 1..][k..]);
      StarFreePrefix(w, pattern[p..], text[star.text + 1..][k..]);
      assert false;
    }
  }

  /** When the cursors are stuck, the only way on is to let the last star absorb one more character. */
  lemma Retry(pattern: string, text: string, p: nat, t: nat, star: Star)
    requires Segment(pattern, text, p, t, star)
    requires Alive(pattern, text, p, t, star)
    requires star.Star? && t < |text|
    requires p == |pattern| || (pattern[p] != '?' && pattern[p] != text[t] && pattern[p] != '*')
    ensures Alive(pattern, text, star.pattern + 1, star.text + 1, Star(star.pattern, star.text + 1))
  {
    assert pattern[star.pattern..] == ['*'] + pattern[star.pattern + 1..];
    StarStep(pattern[star.pattern + 1..], text[star.text + 1..]);
    if star.text + 1 < |text| {
      assert text[star.text + 1..][1..] == text[star.text + 2..];
    }
  }

  lemma Complete(pattern: string, text: string)
    requires '*' !in text
    ensures Matches(pattern, text) ==> Accepts(pattern, text)
  {
    if Matches(pattern, text) && pattern != "" {
      assert pattern[0..] == pattern && text[0..] == text;
      ScanComplete(pattern, text, 0, 0, NoStar);
    }
  }

  // ----- where completeness ends -----

  function Repeat(c: char, n: nat): (s: string)
    ensures |s| == n && forall i :: 0 <= i < n ==> s[i] == c
  {
    seq(n, i => c)
  }

  /** `?`s take exactly their own number of characters. */
  lemma {:induction false} AnyCharacters(text: string)
    ensures Matches(Repeat('?', |text|), text)
  {
    if text != "" {
      AnyCharacters(text[1..]);
      assert Repeat('?', |text|)[1..] == Repeat('?', |text[1..]|);
    }
  }

  lemma {:induction false} AnyThen(n: nat, rest: string, text: string)
    requires n <= |text|
    requires Matches(rest, text[n..])
    ensures Matches(Repeat('?', n) + rest, text)
  {
    var pattern := Repeat('?', n) + rest;
    if n == 0 {
      assert pattern == rest && text[0..] == text;
    } else {
      assert text[1..][n - 1..] == text[n..];
      AnyThen(n - 1, rest, text[1..]);
      assert pattern[1..] == Repeat('?', n - 1) + rest;
    }
  }

  /** The loop steps over a run of `?`. */
  lemma {:induction false} ScanAny(pattern: string, text: string, p: nat, t: nat, n: nat)
    requires p + n <= |pattern| && t + n <= |text|
    requires forall i :: p <= i < p + n ==> pattern[i] == '?'
    ensures Scan(pattern, text, p, t, NoStar) == Scan(pattern, text, p + n, t + n, NoStar)
    decreases n
  {
    if n > 0 {
      ScanAny(pattern, text, p + 1, t + 1, n - 1);
    }
  }

  /** A pattern that names the text's first `*` by position, then asks for that `*` and all that follows. */
  function Witness(text: string, at: nat): string
    requires at < |text|
  {
    Repeat('?', at) + ['*'] + Repeat('?', |text| - at)
  }

  lemma WitnessMatches(text: string, at: nat)
    requires at < |text|
    ensures Matches(Witness(text, at), text)
  {
    hide Matches, Repeat;
    var tail := Repeat('?', |text| - at);
    assert Witness(text, at) == Repeat('?', at) + (['*'] + tail);
    AnyCharacters(text[at..]);
    StarStep(tail, text[at..]);
    AnyThen(at, ['*'] + tail, text);
  }

  /** The loop spends the pattern's `*` on the text's, and then lacks one character of text. */
  lemma WitnessRejected(text: string, at: nat)
    requires at < |text| && text[at] == '*'
    ensures !Accepts(Witness(text, at), text)
  {
    hide Repeat;
    var pattern := Witness(text, at);
    var n := |text|;
    assert |pattern| == n + 1 && pattern[at] == '*' && pattern[n] == '?';
    ScanAny(pattern, text, 0, 0, at);
    assert Scan(pattern, text, at, at, NoStar) == Scan(pattern, text, at + 1, at + 1, NoStar);
    ScanAny(pattern, text, at + 1, at + 1, n - at - 1);
    assert !Scan(pattern, text, n, n, NoStar) by {
      assert pattern[n..][0] == '?';
    }
  }

  /**
   The exact boundary: the matcher agrees with the declarative meaning on every non-empty
   pattern if and only if the text has no `*`.
   */
  lemma AgreesOnEveryPatternIffStarFree(text: string)
    ensures '*' !in text <==> forall pattern: string :: pattern != "" ==> (Accepts(pattern, text) <==> Matches(pattern, text))
  {
    if '*' in text {
      var at :| 0 <= at < |text| && text[at] == '*';
      WitnessMatches(text, at);
      WitnessRejected(text, at);
      assert Witness(text, at) != "";
    } else {
      forall pattern: string | pattern != ""
        ensures Accepts(pattern, text) <==> Matches(pattern, text)
      {
        Sound(pattern, text);
        Complete(pattern, text);
      }
    }
  }
}
