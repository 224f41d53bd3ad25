/** Matching a typed word against the name of a pod, and marking the letters that matched
    (operator/internal/ui/web/app.js). */
module Fuzzy {
  import opened Options

  // ----------------------------------------------------------------- matches --

  /** The letters of a word, found in a text from left to right. */
  predicate Spells(word: string, text: string, hits: seq<nat>) {
    && |hits| == |word|
    && (forall i :: 0 <= i < |hits| ==> hits[i] < |text| && text[hits[i]] == word[i])
    && forall i, j :: 0 <= i < j < |hits| ==> hits[i] < hits[j]
  }

  ghost predicate IsSubsequence(word: string, text: string) {
    exists hits :: Spells(word, text, hits)
  }

  /** Where a letter is next, or the end. */
  function IndexOf(text: string, letter: char, from: nat): (at: nat)
    requires from <= |text|
    ensures from <= at <= |text| && (at < |text| ==> text[at] == letter)
    ensures forall i :: from <= i < at ==> text[i] != letter
    decreases |text| - from
  {
    if from == |text| || text[from] == letter then from else IndexOf(text, letter, from + 1)
  }

  // ------------------------------------------------------------------ scores --

  /** How many hits before this one it follows without a gap. */
  function RunBefore(hits: seq<nat>, i: nat): nat
    requires i < |hits|
  {
    if i > 0 && hits[i] == hits[i - 1] + 1 then RunBefore(hits, i - 1) + 1 else 0
  }

  predicate StartsWord(text: string, at: nat)
    requires at < |text|
  {
    at == 0 || text[at - 1] in "-_./=:"
  }

  function Gap(hits: seq<nat>, i: nat): int
    requires i < |hits|
  {
    if i == 0 then hits[0] as int else hits[i] as int - hits[i - 1] as int - 1
  }

  function Capped(n: int): int {
    if n < 12 then n else 12
  }

  /** What one hit is worth: more in a run and at the start of a word, less after a gap. */
  function Worth(text: string, hits: seq<nat>, i: nat): int
    requires i < |hits| && hits[i] < |text|
  {
    10 + 6 * RunBefore(hits, i) - Capped(Gap(hits, i)) + (if StartsWord(text, hits[i]) then 8 else 0)
  }

  function Score(text: string, hits: seq<nat>): int
    requires forall i :: 0 <= i < |hits| ==> hits[i] < |text|
  {
    if hits == [] then 0
    else Score(text, hits[..|hits| - 1]) + Worth(text, hits, |hits| - 1)
  }

  lemma {:induction false} RunOfPrefix(hits: seq<nat>, n: nat, i: nat)
    requires i < n <= |hits|
    ensures RunBefore(hits[..n], i) == RunBefore(hits, i)
  {
    if i > 0 {
      RunOfPrefix(hits, n, i - 1);
    }
  }

  /** So many letters side by side, from a place on. */
  function SideBySide(at: nat, n: nat): (hits: seq<nat>)
    ensures |hits| == n && forall i :: 0 <= i < n ==> hits[i] == at + i
  {
    seq(n, i requires 0 <= i < n => at + i)
  }

  /** How many of so many places from one on begin a word: the first of all, and those after
      a dash, an underscore, a dot, a slash, an equals sign or a colon. */
  function WordStarts(text: string, at: nat, n: nat): nat
    requires at + n <= |text|
  {
    if n == 0 then 0
    else
      var last := at + n - 1;
      WordStarts(text, at, n - 1)
      + (if last == 0 || text[last - 1] == '-' || text[last - 1] == '_' || text[last - 1] == '.'
            || text[last - 1] == '/' || text[last - 1] == '=' || text[last - 1] == ':' then 1 else 0)
  }

  /** How many pairs there are among so many. */
  function Pairs(n: nat): nat {
    if n == 0 then 0 else Pairs(n - 1) + n - 1
  }

  lemma {:induction false} PairsAre(n: nat)
    ensures 2 * Pairs(n) == n * (n - 1)
  {
    if n > 0 {
      PairsAre(n - 1);
    }
  }

  /** A run of letters after a gap is worth ten for each, six more for each two of them, and
      eight for each that begins a word; less the gap, up to twelve. */
  lemma {:induction false} RunScores(text: string, before: seq<nat>, at: nat, n: nat)
    requires n > 0 && at + n <= |text| && forall i :: 0 <= i < |before| ==> before[i] < |text|
    requires before != [] ==> before[|before| - 1] + 1 < at
    ensures var gap := if before == [] then at else at - before[|before| - 1] - 1;
      Score(text, before + SideBySide(at, n))
        == Score(text, before) + 10 * n + 6 * Pairs(n) - (if gap <= 12 then gap else 12) + 8 * WordStarts(text, at, n)
    decreases n
  {
    if n == 1 {
      RunOfOne(text, before, at);
    } else {
      RunScores(text, before, at, n - 1);
      RunGrows(text, before, at, n);
    }
  }

  lemma RunOfOne(text: string, before: seq<nat>, at: nat)
    requires at < |text| && forall i :: 0 <= i < |before| ==> before[i] < |text|
    requires before != [] ==> before[|before| - 1] + 1 < at
    ensures var gap := if before == [] then at else at - before[|before| - 1] - 1;
      Score(text, before + SideBySide(at, 1))
        == Score(text, before) + 10 + 6 * Pairs(1) - (if gap <= 12 then gap else 12) + 8 * WordStarts(text, at, 1)
  {
    InText(text, before, at, 1);
    LastWorth(text, before, at, 1);
    AllButLast(before, at, 1);
    ScoreOfLast(text, before + SideBySide(at, 1), before, |before|);
  }

  lemma RunGrows(text: string, before: seq<nat>, at: nat, n: nat)
    requires n > 1 && at + n <= |text| && forall i :: 0 <= i < |before| ==> before[i] < |text|
    requires before != [] ==> before[|before| - 1] + 1 < at
    ensures Score(text, before + SideBySide(at, n)) == Score(text, before + SideBySide(at, n - 1))
      + 10 + 6 * (n - 1) + 8 * (WordStarts(text, at, n) - WordStarts(text, at, n - 1))
    ensures Pairs(n) == Pairs(n - 1) + n - 1
  {
    InText(text, before, at, n);
    LastWorth(text, before, at, n);
    AllButLast(before, at, n);
    ScoreOfLast(text, before + SideBySide(at, n), before + SideBySide(at, n - 1), |before| + n - 1);
  }

  lemma InText(text: string, before: seq<nat>, at: nat, n: nat)
    requires at + n <= |text| && forall i :: 0 <= i < |before| ==> before[i] < |text|
    ensures var hits := before + SideBySide(at, n); forall i :: 0 <= i < |hits| ==> hits[i] < |text|
  {
  }

  lemma AllButLast(before: seq<nat>, at: nat, n: nat)
    requires n > 0
    ensures (before + SideBySide(at, n))[..|before| + n - 1] == before + SideBySide(at, n - 1)
    ensures before + SideBySide(at, 0) == before
  {
  }

  lemma ScoreOfLast(text: string, hits: seq<nat>, shorter: seq<nat>, m: nat)
    requires m == |hits| - 1 && shorter == hits[..m] && forall i :: 0 <= i < |hits| ==> hits[i] < |text|
    ensures Score(text, hits) == Score(text, shorter) + Worth(text, hits, m)
  {
  }

  /** What the last letter of a run is worth. */
  lemma LastWorth(text: string, before: seq<nat>, at: nat, n: nat)
    requires n > 0 && at + n <= |text| && forall i :: 0 <= i < |before| ==> before[i] < |text|
    requires before != [] ==> before[|before| - 1] + 1 < at
    ensures var gap := if n > 1 then 0 else if before == [] then at else at - before[|before| - 1] - 1;
      Worth(text, before + SideBySide(at, n), |before| + n - 1)
        == 10 + 6 * (n - 1) - (if gap <= 12 then gap else 12) + 8 * (WordStarts(text, at, n) - WordStarts(text, at, n - 1))
  {
    var hits, m := before + SideBySide(at, n), |before| + n - 1;
    InRun(before, at, n, n - 1);
    StartsOne(text, at, n);
    LastGap(before, at, n);
  }

  lemma LastGap(before: seq<nat>, at: nat, n: nat)
    requires n > 0
    ensures var hits, m := before + SideBySide(at, n), |before| + n - 1;
      hits[m] == at + n - 1
      && Gap(hits, m) == if n > 1 then 0 else if before == [] then at else at - before[|before| - 1] - 1
  {
  }

  lemma StartsOne(text: string, at: nat, n: nat)
    requires n > 0 && at + n <= |text|
    ensures WordStarts(text, at, n) == WordStarts(text, at, n - 1) + (if StartsWord(text, at + n - 1) then 1 else 0)
  {
  }

  lemma {:induction false} InRun(before: seq<nat>, at: nat, n: nat, i: nat)
    requires i < n && (before != [] ==> before[|before| - 1] + 1 < at)
    ensures RunBefore(before + SideBySide(at, n), |before| + i) == i
    decreases i
  {
    if i > 0 {
      InRun(before, at, n, i - 1);
    }
  }

  // --------------------------------------------------------------- alignment --

  datatype Match = Match(score: int, hits: seq<nat>)

  /** A spelling that, once begun, never passes over a place where its next letter is. */
  predicate Leftmost(word: string, text: string, hits: seq<nat>) {
    Spells(word, text, hits) && forall i, j :: 0 < i < |hits| && hits[i - 1] < j < hits[i] ==> text[j] != word[i]
  }

  /** No other way of spelling the word from there gets to any letter sooner. */
  lemma {:induction false} LeftmostIsSoonest(word: string, text: string, hits: seq<nat>, other: seq<nat>, i: nat)
    requires Leftmost(word, text, hits) && Spells(word, text, other) && i < |word| && hits[0] <= other[0]
    ensures hits[i] <= other[i]
  {
    if i > 0 {
      LeftmostIsSoonest(word, text, hits, other, i - 1);
      assert other[i - 1] < other[i] && text[other[i]] == word[i];
    }
  }

  lemma LeftmostIsUnique(word: string, text: string, a: seq<nat>, b: seq<nat>)
    requires Leftmost(word, text, a) && Leftmost(word, text, b) && word != "" && a[0] == b[0]
    ensures a == b
  {
    forall i | 0 <= i < |word| ensures a[i] == b[i] {
      LeftmostIsSoonest(word, text, a, b, i);
      LeftmostIsSoonest(word, text, b, a, i);
    }
  }

  /** There is no spelling of the word from a place on. */
  ghost predicate NoneFrom(word: string, text: string, start: nat) {
    forall other :: Spells(word, text, other) && other != [] ==> other[0] < start
  }

  /** So far into the word, with its score so far. */
  predicate Aligned(word: string, text: string, start: nat, hits: seq<nat>, score: int, from: nat, run: nat) {
    var i := |hits|;
    && i <= |word| && Leftmost(word[..i], text, hits) && score == Score(text, hits)
    && from == (if i == 0 then 0 else hits[i - 1] + 1) && from <= |text|
    && (i > 0 ==> hits[0] == start && run == RunBefore(hits, i - 1))
    && (i == 0 ==> run == 0)
  }

  method Align(word: string, text: string, start: nat) returns (m: Option<Match>)
    requires word != "" && start < |text| && text[start] == word[0]
    ensures m.Some? ==> Leftmost(word, text, m.value.hits) && m.value.hits[0] == start
    ensures m.Some? ==> m.value.score == Score(text, m.value.hits)
    ensures m.None? ==> NoneFrom(word, text, start)
  {
    var score: int, from: nat, run: nat := 0, 0, 0;
    var hits: seq<nat> := [];
    for i := 0 to |word|
      invariant |hits| == i && Aligned(word, text, start, hits, score, from, run)
    {
      var at := if i > 0 then IndexOf(text, word[i], from) else start;
      if at == |text| {
        RunsOut(word, text, hits, i);
        return None;
      }
      OneMore(word, text, start, hits, score, from, run, at);
      run := if at == from && from > 0 then run + 1 else 0;
      score := score + 10 + 6 * run - Capped(at - from);
      if StartsWord(text, at) {
        score := score + 8;
      }
      hits := hits + [at];
      from := at + 1;
    }
    assert word[..|word|] == word;
    return Some(Match(score, hits));
  }

  /** One letter more keeps a spelling leftmost, and adds its worth. */
  lemma OneMore(word: string, text: string, start: nat, hits: seq<nat>, score: int, from: nat, run: nat, at: nat)
    requires Aligned(word, text, start, hits, score, from, run) && |hits| < |word|
    requires at < |text| && text[at] == word[|hits|] && (|hits| == 0 ==> at == start)
    requires |hits| > 0 ==> from <= at && forall j :: from <= j < at ==> text[j] != word[|hits|]
    ensures var on := if at == from && from > 0 then run + 1 else 0;
      Aligned(word, text, start, hits + [at],
              score + 10 + 6 * on - Capped(at - from) + (if StartsWord(text, at) then 8 else 0), at + 1, on)
  {
    MoreLeftmost(word, text, hits, at);
    MoreScore(text, hits, from, run, at);
  }

  lemma MoreScore(text: string, hits: seq<nat>, from: nat, run: nat, at: nat)
    requires at < |text| && forall i :: 0 <= i < |hits| ==> hits[i] < |text|
    requires if hits == [] then from == run == 0
             else from == hits[|hits| - 1] + 1 <= at && run == RunBefore(hits, |hits| - 1)
    ensures var on := if at == from && from > 0 then run + 1 else 0;
      && RunBefore(hits + [at], |hits|) == on
      && Score(text, hits + [at])
         == Score(text, hits) + 10 + 6 * on - Capped(at - from) + (if StartsWord(text, at) then 8 else 0)
  {
    var i, more := |hits|, hits + [at];
    assert more[..i] == hits;
    if i > 0 {
      RunOfPrefix(more, i, i - 1);
    }
    ScoreOfLast(text, more, hits, i);
  }

  lemma MoreLeftmost(word: string, text: string, hits: seq<nat>, at: nat)
    requires |hits| < |word| && Leftmost(word[..|hits|], text, hits) && at < |text| && text[at] == word[|hits|]
    requires var i := |hits|; i > 0 ==> hits[i - 1] < at && forall j :: hits[i - 1] < j < at ==> text[j] != word[i]
    ensures Leftmost(word[..|hits| + 1], text, hits + [at])
  {
  }

  lemma RunsOut(word: string, text: string, hits: seq<nat>, i: nat)
    requires 0 < i < |word| && |hits| == i && Leftmost(word[..i], text, hits)
    requires forall j :: hits[i - 1] < j < |text| ==> text[j] != word[i]
    ensures NoneFrom(word, text, hits[0])
  {
    forall other | Spells(word, text, other) ensures other[0] < hits[0] {
      var begun := other[..i];
      assert Spells(word[..i], text, begun);
      assert text[other[i]] == word[i] && begun[i - 1] < other[i];
      if hits[0] <= other[0] {
        LeftmostIsSoonest(word[..i], text, hits, begun, i - 1);
      }
    }
  }

  // ----------------------------------------------------------------- matcher --

  /** The best of the leftmost spellings from any starting place before `end`, the first
      of them where several are as good. */
  ghost predicate BestBefore(word: string, text: string, end: nat, best: Option<Match>) {
    && (best.Some? ==>
          && Leftmost(word, text, best.value.hits) && best.value.score == Score(text, best.value.hits)
          && best.value.hits != [] && best.value.hits[0] < end)
    && forall hits :: Leftmost(word, text, hits) && hits != [] && hits[0] < end ==> BeatenBy(text, hits, best)
  }

  predicate BeatenBy(text: string, hits: seq<nat>, best: Option<Match>)
    requires hits != [] && forall i :: 0 <= i < |hits| ==> hits[i] < |text|
  {
    && best.Some? && best.value.hits != [] && Score(text, hits) <= best.value.score
    && (Score(text, hits) == best.value.score ==> best.value.hits[0] <= hits[0])
  }

  ghost predicate NoneBefore(word: string, text: string, end: nat) {
    forall other :: Spells(word, text, other) && other != [] ==> end <= other[0]
  }

  /** The word matches exactly when its letters are in the text in order; and then the
      match is the best there is, starting where it may. */
  method FuzzyMatch(word: string, text: string) returns (best: Option<Match>)
    requires word != ""
    ensures BestBefore(word, text, |text|, best)
    ensures best.Some? <==> IsSubsequence(word, text)
  {
    best := None;
    var at := IndexOf(text, word[0], 0);
    Skips(word, text, 0, at, best);
    while at < |text|
      invariant at <= |text| && (at < |text| ==> text[at] == word[0])
      invariant BestBefore(word, text, at, best) && (best.None? ==> NoneBefore(word, text, at))
      decreases |text| - at
    {
      var m := Align(word, text, at);
      Better(word, text, at, best, m);
      if m.Some? && (best.None? || m.value.score > best.value.score) {
        best := m;
      }
      var next := IndexOf(text, word[0], at + 1);
      Skips(word, text, at + 1, next, best);
      at := next;
    }
    Conclude(word, text, best);
  }

  lemma Conclude(word: string, text: string, best: Option<Match>)
    requires word != "" && BestBefore(word, text, |text|, best) && (best.None? ==> NoneBefore(word, text, |text|))
    ensures best.Some? <==> IsSubsequence(word, text)
  {
    assert forall other :: Spells(word, text, other) ==> other != [] && other[0] < |text|;
    if best.Some? {
      assert Spells(word, text, best.value.hits);
    }
  }

  function BestOf(best: Option<Match>, m: Option<Match>): Option<Match> {
    if m.Some? && (best.None? || m.value.score > best.value.score) then m else best
  }

  lemma Better(word: string, text: string, at: nat, best: Option<Match>, m: Option<Match>)
    requires word != "" && at < |text| && text[at] == word[0] && BestBefore(word, text, at, best)
    requires best.None? ==> NoneBefore(word, text, at)
    requires m.Some? ==> Leftmost(word, text, m.value.hits) && m.value.hits[0] == at
    requires m.Some? ==> m.value.score == Score(text, m.value.hits)
    requires m.None? ==> NoneFrom(word, text, at)
    ensures BestBefore(word, text, at + 1, BestOf(best, m))
    ensures BestOf(best, m).None? ==> NoneBefore(word, text, at + 1)
  {
    var now := BestOf(best, m);
    forall hits | Leftmost(word, text, hits) && hits != [] && hits[0] < at + 1 ensures BeatenBy(text, hits, now) {
      if hits[0] == at {
        assert Spells(word, text, hits);
        LeftmostIsUnique(word, text, hits, m.value.hits);
      } else {
        assert BeatenBy(text, hits, best);
      }
    }
  }

  lemma Skips(word: string, text: string, at: nat, next: nat, best: Option<Match>)
    requires word != "" && at <= next <= |text| && BestBefore(word, text, at, best)
    requires best.None? ==> NoneBefore(word, text, at)
    requires forall i :: at <= i < next ==> text[i] != word[0]
    ensures BestBefore(word, text, next, best)
    ensures best.None? ==> NoneBefore(word, text, next)
  {
    forall hits | Spells(word, text, hits) && hits != [] ensures hits[0] < at || next <= hits[0] {
      assert text[hits[0]] == word[0];
    }
  }

  // ------------------------------------------------------------------- marks --

  datatype Run = Run(lit: bool, text: string)

  function Joined(runs: seq<Run>): string {
    if runs == [] then "" else Joined(runs[..|runs| - 1]) + runs[|runs| - 1].text
  }

  /** For each letter of the runs, whether it is lit. */
  function Lights(runs: seq<Run>): (r: seq<bool>)
    ensures |r| == |Joined(runs)|
  {
    if runs == [] then []
    else
      var last := runs[|runs| - 1];
      Lights(runs[..|runs| - 1]) + seq(|last.text|, i => last.lit)
  }

  /** The text comes back from its runs, with just the hits lit, and no run could be
      joined with the next. */
  method Mark(text: string, hits: seq<nat>) returns (out: seq<Run>)
    ensures Marked(text, hits, out)
  {
    if |hits| == 0 {
      MarkNone(text, hits);
      return [Run(false, text)];
    }
    out := [];
    var run, lit := "", 0 in hits;
    for i := 0 to |text|
      invariant MarkedTo(text, hits, i, out, run, lit)
    {
      out, run, lit := MarkLetter(text, hits, i, out, run, lit);
    }
    Finish(text, hits, out, run, lit);
    out := out + [Run(lit, run)];
  }

  /** One letter more: it ends the run there is, or goes on with it. */
  method MarkLetter(text: string, hits: seq<nat>, i: nat, out: seq<Run>, run: string, lit: bool)
      returns (more: seq<Run>, on: string, now: bool)
    requires i < |text| && MarkedTo(text, hits, i, out, run, lit)
    ensures MarkedTo(text, hits, i + 1, more, on, now)
  {
    more, on, now := out, run, lit;
    if (i in hits) != lit {
      EndRun(text, hits, i, out, run, lit);
      more := out + [Run(lit, run)];
      on := "";
      now := !lit;
    }
    AddLetter(text, hits, i, more, on, now);
    on := on + [text[i]];
  }

  lemma MarkNone(text: string, hits: seq<nat>)
    requires hits == []
    ensures Marked(text, hits, [Run(false, text)])
  {
    OneRun([], Run(false, text));
  }

  lemma AddLetter(text: string, hits: seq<nat>, i: nat, out: seq<Run>, run: string, lit: bool)
    requires i < |text| && MarkedTo(text, hits, i, out, run, lit) && (i in hits) == lit
    ensures MarkedTo(text, hits, i + 1, out, run + [text[i]], lit)
  {
    assert text[..i + 1] == text[..i] + [text[i]];
    assert Joined(out) + (run + [text[i]]) == Joined(out) + run + [text[i]];
  }

  predicate Marked(text: string, hits: seq<nat>, out: seq<Run>) {
    && Joined(out) == text && |Lights(out)| == |text|
    && (forall i :: 0 <= i < |text| ==> (Lights(out)[i] <==> i in hits))
    && (forall i :: 0 <= i < |out| - 1 ==> out[i].lit != out[i + 1].lit)
    && (text != "" ==> forall i :: 0 <= i < |out| ==> out[i].text != "")
  }

  lemma Finish(text: string, hits: seq<nat>, out: seq<Run>, run: string, lit: bool)
    requires MarkedTo(text, hits, |text|, out, run, lit)
    ensures Marked(text, hits, out + [Run(lit, run)])
  {
    OneRun(out, Run(lit, run));
    assert text[..|text|] == text;
  }

  /** The runs so far, and the one that has been begun. */
  predicate MarkedTo(text: string, hits: seq<nat>, i: nat, out: seq<Run>, run: string, lit: bool)
    requires i <= |text|
  {
    && Joined(out) + run == text[..i]
    && (forall j :: 0 <= j < |Lights(out)| ==> (Lights(out)[j] <==> j in hits))
    && (forall j :: |Lights(out)| <= j < i ==> (lit <==> j in hits))
    && (forall j :: 0 <= j < |out| - 1 ==> out[j].lit != out[j + 1].lit)
    && (out != [] ==> out[|out| - 1].lit != lit)
    && (forall j :: 0 <= j < |out| ==> out[j].text != "")
    && (if i == 0 then out == [] && (lit <==> 0 in hits)
        else run != "" || (i < |text| && (lit <==> i in hits)))
  }

  lemma EndRun(text: string, hits: seq<nat>, i: nat, out: seq<Run>, run: string, lit: bool)
    requires i < |text| && MarkedTo(text, hits, i, out, run, lit) && (i in hits) != lit
    ensures MarkedTo(text, hits, i, out + [Run(lit, run)], "", !lit)
  {
    OneRun(out, Run(lit, run));
  }

  lemma OneRun(runs: seq<Run>, run: Run)
    ensures Joined(runs + [run]) == Joined(runs) + run.text
    ensures Lights(runs + [run]) == Lights(runs) + seq(|run.text|, i => run.lit)
  {
    assert (runs + [run])[..|runs|] == runs;
  }
}
