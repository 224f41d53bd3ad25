/** Wireshark's lexer in miniature (src/web/app.js): the pieces of a display filter and
    what is between them. */
module FilterLexer {
  import opened Options

  predicate IsSpace(c: char) {
    || c in " \t\n\r" || c == '\U{000B}' || c == '\U{000C}' || c == '\U{00A0}' || c == '\U{1680}'
    || '\U{2000}' <= c <= '\U{200A}' || c == '\U{2028}' || c == '\U{2029}' || c == '\U{202F}'
    || c == '\U{205F}' || c == '\U{3000}' || c == '\U{FEFF}'
  }

  predicate IsLineEnd(c: char) {
    c == '\n' || c == '\r' || c == '\U{2028}' || c == '\U{2029}'
  }

  predicate IsMark(c: char) {
    c in "(){}[],<>~!="
  }

  predicate Opens(c: char) {
    c == '\"' || c == '\'' || c == '/'
  }

  predicate IsBare(c: char) {
    !IsSpace(c) && !IsMark(c) && !Opens(c) && c != '&' && c != '|'
  }

  /** Where a quoted piece ends, if it does. */
  function QuotedEnd(s: string, i: nat, quote: char): (r: Option<nat>)
    requires i <= |s|
    ensures r.Some? ==> i < r.value <= |s|
    decreases |s| - i
  {
    if i == |s| then None
    else if s[i] == quote then Some(i + 1)
    else if s[i] == '\\' then
      if i + 1 < |s| && !IsLineEnd(s[i + 1]) then QuotedEnd(s, i + 2, quote) else None
    else QuotedEnd(s, i + 1, quote)
  }

  function BareEnd(s: string, i: nat): (n: nat)
    requires i <= |s|
    ensures i <= n <= |s| && (n < |s| ==> !IsBare(s[n])) && forall j :: i <= j < n ==> IsBare(s[j])
    decreases |s| - i
  {
    if i < |s| && IsBare(s[i]) then BareEnd(s, i + 1) else i
  }

  predicate IsPair(a: char, b: char) {
    (a == '&' && b == '&') || (a == '|' && b == '|') || (a in "=!<>" && b == '=')
  }

  /** How long a piece the text begins with, or zero. */
  function Match(s: string): (n: nat)
    ensures n <= |s|
  {
    if s == "" then 0
    else if Opens(s[0]) then
      var end := QuotedEnd(s, 1, s[0]);
      if end.Some? then end.value else 0
    else if |s| > 1 && IsPair(s[0], s[1]) then 2
    else if IsMark(s[0]) then 1
    else BareEnd(s, 0)
  }

  /** A text as its pieces and what is before, between and after them. */
  datatype Lexing = Lexing(gaps: seq<string>, texts: seq<string>)

  function Lex(s: string): (r: Lexing)
    ensures |r.gaps| == |r.texts| + 1
    decreases |s|
  {
    var n := Match(s);
    if s == "" then Lexing([""], [])
    else if n == 0 then
      var rest := Lex(s[1..]);
      Lexing([[s[0]] + rest.gaps[0]] + rest.gaps[1..], rest.texts)
    else
      var rest := Lex(s[n..]);
      Lexing([""] + rest.gaps, [s[..n]] + rest.texts)
  }

  function Weave(gaps: seq<string>, texts: seq<string>): string
    requires |gaps| == |texts| + 1
  {
    if texts == [] then gaps[0] else gaps[0] + (texts[0] + Weave(gaps[1..], texts[1..]))
  }

  lemma WeaveLonger(c: char, gap: string, gaps: seq<string>, texts: seq<string>)
    requires |gaps| == |texts|
    ensures Weave([[c] + gap] + gaps, texts) == [c] + Weave([gap] + gaps, texts)
  {
    assert ([[c] + gap] + gaps)[1..] == gaps && ([gap] + gaps)[1..] == gaps;
  }

  lemma WeaveCons(gap: string, gaps: seq<string>, text: string, texts: seq<string>)
    requires |gaps| == |texts| + 1
    ensures Weave([gap] + gaps, [text] + texts) == gap + (text + Weave(gaps, texts))
  {
    assert ([gap] + gaps)[1..] == gaps && ([text] + texts)[1..] == texts;
  }

  /** Nothing of a text is lost. */
  lemma {:induction false} LexWeaves(s: string)
    ensures Weave(Lex(s).gaps, Lex(s).texts) == s
    decreases |s|
  {
    var n := Match(s);
    if s != "" {
      if n == 0 {
        LexWeaves(s[1..]);
        var rest := Lex(s[1..]);
        WeaveLonger(s[0], rest.gaps[0], rest.gaps[1..], rest.texts);
        assert [rest.gaps[0]] + rest.gaps[1..] == rest.gaps;
      } else {
        LexWeaves(s[n..]);
        var rest := Lex(s[n..]);
        WeaveCons("", rest.gaps, s[..n], rest.texts);
        assert s[..n] + s[n..] == s;
      }
    }
  }

  // ----------------------------------------------------------------- quoting --

  function Escaped(t: string): string {
    if t == "" then ""
    else (if t[0] == '\"' || t[0] == '\\' then ['\\', t[0]] else [t[0]]) + Escaped(t[1..])
  }

  function Quoted(t: string): string {
    "\"" + Escaped(t) + "\""
  }

  /** An escaped value goes on up to the quote after it. */
  lemma {:induction false} EscapedEnds(s: string, i: nat, t: string, rest: string)
    requires i <= |s| && s[i..] == Escaped(t) + "\"" + rest
    ensures QuotedEnd(s, i, '\"') == Some(i + |Escaped(t)| + 1)
    decreases |t|
  {
    if t == "" {
      assert s[i] == s[i..][0];
    } else {
      var k := if t[0] == '\"' || t[0] == '\\' then 2 else 1;
      var tail := Escaped(t[1..]) + "\"" + rest;
      assert Escaped(t) + "\"" + rest == Escaped(t)[..k] + tail;
      assert s[i] == s[i..][0] && (k == 2 ==> s[i + 1] == s[i..][1]);
      assert s[i + k..] == s[i..][k..] == tail;
      EscapedEnds(s, i + k, t[1..], rest);
    }
  }

  lemma QuotedMatches(t: string, rest: string)
    ensures Match(Quoted(t) + rest) == |Quoted(t)|
  {
    var s := Quoted(t) + rest;
    assert s[1..] == Escaped(t) + "\"" + rest;
    EscapedEnds(s, 1, t, rest);
  }

  // ---------------------------------------------------------------- re-lexing --

  /** What may come after a piece in place of what did: something that begins alike, or a
      quote where a bare value began. */
  predicate Follows(r: string, w: string) {
    && (r == "" <==> w == "")
    && (r != "" && w != "" ==> w[0] == r[0] || (w[0] == '\"' && IsBare(r[0])))
  }

  lemma {:induction false} QuotedKeeps(p: string, r: string, w: string, i: nat, quote: char)
    requires i <= |p| && QuotedEnd(p + r, i, quote) == Some(|p|)
    ensures QuotedEnd(p + w, i, quote) == Some(|p|)
    decreases |p| - i
  {
    if i < |p| {
      assert (p + r)[i] == p[i] == (p + w)[i];
      if p[i] != quote {
        if p[i] == '\\' {
          assert i + 2 < |p| && (p + r)[i + 1] == p[i + 1] == (p + w)[i + 1];
          QuotedKeeps(p, r, w, i + 2, quote);
        } else {
          QuotedKeeps(p, r, w, i + 1, quote);
        }
      }
    }
  }

  lemma {:induction false} BareKeeps(p: string, r: string, w: string, i: nat)
    requires i <= |p| && BareEnd(p + r, i) == |p| && Follows(r, w) && forall j :: i <= j < |p| ==> IsBare(p[j])
    ensures BareEnd(p + w, i) == |p|
    decreases |p| - i
  {
    if i < |p| {
      assert (p + r)[i] == p[i] == (p + w)[i];
      BareKeeps(p, r, w, i + 1);
    } else {
      assert r != "" ==> (p + r)[i] == r[0];
      assert w != "" ==> (p + w)[i] == w[0];
    }
  }

  /** A piece is still one with something else after it. */
  lemma MatchKeeps(p: string, r: string, w: string)
    requires p != "" && Match(p + r) == |p| && Follows(r, w)
    ensures Match(p + w) == |p|
  {
    var s, z := p + r, p + w;
    assert s[0] == p[0] == z[0];
    assert |p| > 1 ==> s[1] == p[1] == z[1];
    assert |p| == 1 && r != "" ==> s[1] == r[0];
    assert |p| == 1 && w != "" ==> z[1] == w[0];
    if Opens(p[0]) {
      QuotedKeeps(p, r, w, 1, p[0]);
    } else if |s| > 1 && IsPair(s[0], s[1]) {
      assert |p| == 2;
    } else if !IsMark(p[0]) {
      assert forall j :: 0 <= j < |p| ==> p[j] == s[j];
      BareKeeps(p, r, w, 0);
      NoPair(p, r, w);
    }
  }

  lemma NoPair(p: string, r: string, w: string)
    requires p != "" && IsBare(p[0])
    ensures |p + w| > 1 ==> !IsPair((p + w)[0], (p + w)[1])
  {
    assert (p + w)[0] == p[0];
  }

  /** The pieces of a text, some of the bare ones quoted. */
  ghost predicate Requoted(texts: seq<string>, others: seq<string>) {
    |others| == |texts| && forall i :: 0 <= i < |texts| ==>
      others[i] == texts[i] || (texts[i] != "" && IsBare(texts[i][0]) && others[i] == Quoted(texts[i]))
  }

  lemma RequotedTail(texts: seq<string>, others: seq<string>)
    requires Requoted(texts, others) && texts != []
    ensures Requoted(texts[1..], others[1..])
  {
  }

  /** Whatever is quoted of it, a text begins as before, or with a quote. */
  lemma WeaveFollows(gaps: seq<string>, texts: seq<string>, others: seq<string>)
    requires |gaps| == |texts| + 1 && Requoted(texts, others) && forall i :: 0 <= i < |texts| ==> texts[i] != ""
    ensures Follows(Weave(gaps, texts), Weave(gaps, others))
  {
    if texts != [] && gaps[0] == "" {
      var r, w := Weave(gaps, texts), Weave(gaps, others);
      assert r[0] == texts[0][0];
      assert w[0] == others[0][0];
    } else if texts != [] {
      assert Weave(gaps, texts)[0] == gaps[0][0] && Weave(gaps, others)[0] == gaps[0][0];
    }
  }

  lemma {:induction false} TextsNotEmpty(s: string)
    ensures forall i :: 0 <= i < |Lex(s).texts| ==> Lex(s).texts[i] != ""
    decreases |s|
  {
    if s != "" {
      TextsNotEmpty(if Match(s) == 0 then s[1..] else s[Match(s)..]);
    }
  }

  // ------------------------------------------------------------ stray quotes --

  /** Whether a quote that is open where a text begins is closed in it. */
  predicate Closes(s: string, quote: char) {
    if s == "" then false
    else if s[0] == quote then true
    else if s[0] == '\\' then |s| > 1 && !IsLineEnd(s[1]) && Closes(s[2..], quote)
    else Closes(s[1..], quote)
  }

  lemma {:induction false} QuotedEndCloses(s: string, i: nat, quote: char)
    requires i <= |s|
    ensures QuotedEnd(s, i, quote).Some? <==> Closes(s[i..], quote)
    decreases |s| - i
  {
    if i < |s| && s[i] != quote {
      var rest := s[i..];
      if s[i] == '\\' {
        if i + 1 < |s| && !IsLineEnd(s[i + 1]) {
          assert rest[2..] == s[i + 2..];
          QuotedEndCloses(s, i + 2, quote);
        }
      } else {
        assert rest[1..] == s[i + 1..];
        QuotedEndCloses(s, i + 1, quote);
      }
    }
  }

  lemma MatchCloses(c: char, rest: string)
    requires Opens(c)
    ensures Match([c] + rest) > 0 <==> Closes(rest, c)
  {
    var s := [c] + rest;
    assert s[1..] == rest && s[0] == c;
    QuotedEndCloses(s, 1, c);
  }

  /** Every quote in a gap stays open. */
  predicate Quiet(gap: string, rest: string) {
    gap == "" || ((Opens(gap[0]) ==> !Closes(gap[1..] + rest, gap[0])) && Quiet(gap[1..], rest))
  }

  /** Every quote in the gaps of a text stays open. */
  predicate StayOpen(gaps: seq<string>, texts: seq<string>)
    requires |gaps| == |texts| + 1
  {
    if texts == [] then Quiet(gaps[0], "")
    else Quiet(gaps[0], texts[0] + Weave(gaps[1..], texts[1..])) && StayOpen(gaps[1..], texts[1..])
  }

  lemma QuietLonger(c: char, gap: string, rest: string)
    ensures Quiet([c] + gap, rest) <==> (Opens(c) ==> !Closes(gap + rest, c)) && Quiet(gap, rest)
  {
    assert ([c] + gap)[1..] == gap;
  }

  lemma OpenLonger(c: char, gap: string, gaps: seq<string>, texts: seq<string>)
    requires |gaps| == |texts|
    ensures StayOpen([[c] + gap] + gaps, texts) <==>
      (Opens(c) ==> !Closes(Weave([gap] + gaps, texts), c)) && StayOpen([gap] + gaps, texts)
  {
    var rest := if texts == [] then "" else texts[0] + Weave(gaps, texts[1..]);
    assert ([[c] + gap] + gaps)[1..] == gaps && ([gap] + gaps)[1..] == gaps;
    assert Weave([gap] + gaps, texts) == gap + rest;
    QuietLonger(c, gap, rest);
  }

  lemma OpenCons(gaps: seq<string>, text: string, texts: seq<string>)
    requires |gaps| == |texts| + 1
    ensures StayOpen([""] + gaps, [text] + texts) <==> StayOpen(gaps, texts)
  {
    assert ([""] + gaps)[1..] == gaps && ([text] + texts)[1..] == texts;
  }

  /** The first character of a gap is no piece with something else after it either, unless
      it is a quote that now closes. */
  lemma GapKeeps(c: char, r: string, w: string)
    requires Match([c] + r) == 0 && Follows(r, w)
    ensures !IsBare(c) && (Match([c] + w) == 0 <==> Opens(c) ==> !Closes(w, c))
  {
    var s, z := [c] + r, [c] + w;
    assert s[0] == c == z[0];
    assert |s| > 1 ==> s[1] == r[0];
    assert |z| > 1 ==> z[1] == w[0];
    if Opens(c) {
      MatchCloses(c, w);
    } else {
      assert BareEnd(s, 0) == 0;
    }
  }

  lemma LongerSame(c: char, a: Lexing, gaps: seq<string>, texts: seq<string>)
    requires |a.gaps| == |a.texts| + 1 && |gaps| == |texts| + 1
    ensures Lexing([[c] + a.gaps[0]] + a.gaps[1..], a.texts) == Lexing([[c] + gaps[0]] + gaps[1..], texts)
      <==> a == Lexing(gaps, texts)
  {
    var x, y := [[c] + a.gaps[0]] + a.gaps[1..], [[c] + gaps[0]] + gaps[1..];
    if x == y {
      assert x[0][1..] == a.gaps[0] && y[0][1..] == gaps[0];
      assert x[1..] == a.gaps[1..] && y[1..] == gaps[1..];
      assert a.gaps == [a.gaps[0]] + a.gaps[1..] && gaps == [gaps[0]] + gaps[1..];
    }
  }

  lemma ConsSame(a: Lexing, gaps: seq<string>, text: string, texts: seq<string>)
    requires |a.gaps| == |a.texts| + 1 && |gaps| == |texts| + 1
    ensures Lexing([""] + a.gaps, [text] + a.texts) == Lexing([""] + gaps, [text] + texts) <==> a == Lexing(gaps, texts)
  {
    assert ([""] + a.gaps)[1..] == a.gaps && ([""] + gaps)[1..] == gaps;
    assert ([text] + a.texts)[1..] == a.texts && ([text] + texts)[1..] == texts;
  }

  /** With some of its bare pieces quoted, a text comes apart just as it was put together if
      and only if no quote that was left open between its pieces is closed by that. */
  lemma {:induction false} RelexExactly(s: string, others: seq<string>)
    requires Requoted(Lex(s).texts, others)
    ensures Lex(Weave(Lex(s).gaps, others)) == Lexing(Lex(s).gaps, others) <==> StayOpen(Lex(s).gaps, others)
    decreases |s|
  {
    var n := Match(s);
    if s != "" {
      if n == 0 {
        RelexExactly(s[1..], others);
        RelexGap(s, others);
      } else {
        TailOf(s[..n], Lex(s[n..]).texts, others);
        RelexExactly(s[n..], others[1..]);
        RelexPiece(s, n, others);
      }
    }
  }

  lemma RelexGap(s: string, others: seq<string>)
    requires s != "" && Match(s) == 0 && Requoted(Lex(s[1..]).texts, others)
    requires Lex(Weave(Lex(s[1..]).gaps, others)) == Lexing(Lex(s[1..]).gaps, others)
      <==> StayOpen(Lex(s[1..]).gaps, others)
    ensures Lex(Weave(Lex(s).gaps, others)) == Lexing(Lex(s).gaps, others) <==> StayOpen(Lex(s).gaps, others)
  {
    var c, rest := s[0], Lex(s[1..]);
    var w := Weave(rest.gaps, others);
    assert s == [c] + s[1..] && [rest.gaps[0]] + rest.gaps[1..] == rest.gaps;
    WeaveLonger(c, rest.gaps[0], rest.gaps[1..], others);
    OpenLonger(c, rest.gaps[0], rest.gaps[1..], others);
    LexWeaves(s[1..]);
    TextsNotEmpty(s[1..]);
    WeaveFollows(rest.gaps, rest.texts, others);
    GapKeeps(c, s[1..], w);
    LexSkip(c, s[1..], s);
    if Match([c] + w) == 0 {
      LexSkip(c, w, [c] + w);
      LongerSame(c, Lex(w), rest.gaps, others);
    } else {
      PieceFirst([c] + w);
    }
  }

  lemma PieceFirst(s: string)
    requires Match(s) > 0
    ensures Lex(s).gaps[0] == ""
  {
  }

  lemma RelexPiece(s: string, n: nat, others: seq<string>)
    requires s != "" && n == Match(s) > 0 && Requoted(Lex(s).texts, others) && others != []
    requires Requoted(Lex(s[n..]).texts, others[1..])
    requires Lex(Weave(Lex(s[n..]).gaps, others[1..])) == Lexing(Lex(s[n..]).gaps, others[1..])
      <==> StayOpen(Lex(s[n..]).gaps, others[1..])
    ensures Lex(Weave(Lex(s).gaps, others)) == Lexing(Lex(s).gaps, others) <==> StayOpen(Lex(s).gaps, others)
  {
    var rest, p, q, tail := Lex(s[n..]), s[..n], others[0], others[1..];
    assert p + s[n..] == s && others == [q] + tail;
    LexPiece(p, s[n..], s);
    TailOf(p, rest.texts, others);
    var w := Weave(rest.gaps, tail);
    LexWeaves(s[n..]);
    TextsNotEmpty(s[n..]);
    WeaveFollows(rest.gaps, rest.texts, tail);
    PieceKeeps(p, s[n..], w, q);
    WeaveCons("", rest.gaps, q, tail);
    OpenCons(rest.gaps, q, tail);
    LexPiece(q, w, "" + (q + w));
    ConsSame(Lex(w), rest.gaps, q, tail);
  }

  // -------------------------------------------------------------- white space --

  predicate AllSpace(s: string) {
    forall i :: 0 <= i < |s| ==> IsSpace(s[i])
  }

  ghost predicate SpaceBetween(gaps: seq<string>) {
    forall i :: 0 <= i < |gaps| ==> AllSpace(gaps[i])
  }

  lemma {:induction false} SpaceIsQuiet(gap: string, rest: string)
    requires AllSpace(gap)
    ensures Quiet(gap, rest)
  {
    if gap != "" {
      SpaceIsQuiet(gap[1..], rest);
    }
  }

  lemma {:induction false} SpaceStaysOpen(gaps: seq<string>, texts: seq<string>)
    requires |gaps| == |texts| + 1 && SpaceBetween(gaps)
    ensures StayOpen(gaps, texts)
  {
    assert AllSpace(gaps[0]);
    if texts == [] {
      SpaceIsQuiet(gaps[0], "");
    } else {
      SpaceIsQuiet(gaps[0], texts[0] + Weave(gaps[1..], texts[1..]));
      assert forall i :: 0 <= i < |gaps| - 1 ==> gaps[1..][i] == gaps[i + 1];
      SpaceStaysOpen(gaps[1..], texts[1..]);
    }
  }

  /** Where all there is between the pieces is white space, quoting bare pieces changes
      those pieces and nothing else. */
  lemma Relex(s: string, others: seq<string>)
    requires SpaceBetween(Lex(s).gaps) && Requoted(Lex(s).texts, others)
    ensures Lex(Weave(Lex(s).gaps, others)) == Lexing(Lex(s).gaps, others)
  {
    SpaceStaysOpen(Lex(s).gaps, others);
    RelexExactly(s, others);
  }

  lemma LexPiece(p: string, rest: string, s: string)
    requires s == p + rest && p != "" && Match(s) == |p|
    ensures Lex(s) == Lexing([""] + Lex(rest).gaps, [p] + Lex(rest).texts)
  {
    assert s[..|p|] == p && s[|p|..] == rest;
  }

  lemma LexSkip(c: char, rest: string, s: string)
    requires s == [c] + rest && Match(s) == 0
    ensures Lex(s) == Lexing([[c] + Lex(rest).gaps[0]] + Lex(rest).gaps[1..], Lex(rest).texts)
  {
    assert s[1..] == rest;
  }

  lemma TailOf(text: string, texts: seq<string>, others: seq<string>)
    requires Requoted([text] + texts, others)
    ensures Requoted(texts, others[1..])
    ensures others[0] == text || others[0] == Quoted(text)
  {
    assert ([text] + texts)[1..] == texts;
    RequotedTail([text] + texts, others);
  }

  lemma PieceKeeps(p: string, r: string, w: string, q: string)
    requires p != "" && Match(p + r) == |p| && Follows(r, w) && (q == p || q == Quoted(p))
    ensures q != "" && Match(q + w) == |q|
  {
    if q == p {
      MatchKeeps(p, r, w);
    } else {
      QuotedMatches(p, w);
    }
  }
}
