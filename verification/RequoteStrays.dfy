/** What requoting does to a filter with a quote that is never closed (src/web/app.js). */
module RequoteStrays {
  import opened Basics
  import opened Options
  import opened FilterLexer
  import opened Requote

  /** The pieces, with the values that are to be quoted left blank. */
  function Blanks(texts: seq<string>, takes: string -> bool): (r: seq<string>)
    ensures |r| == |texts|
  {
    seq(|texts|, k requires 0 <= k < |texts| => if Cut(texts, takes, k) then "\"\"" else texts[k])
  }

  /** Pieces of which some values are quoted in one list and blank in the other. */
  ghost predicate Blanked(texts: seq<string>, others: seq<string>, blanks: seq<string>) {
    |others| == |blanks| == |texts| && forall k :: 0 <= k < |texts| ==> BlankedAt(texts[k], others[k], blanks[k])
  }

  predicate BlankedAt(text: string, other: string, blank: string) {
    other == text == blank || (text != "" && IsBare(text[0]) && other == Quoted(text) && blank == "\"\"")
  }

  lemma CutsAreBlanked(s: string, takes: string -> bool)
    ensures Blanked(Lex(s).texts, NewTexts(Lex(s).texts, takes), Blanks(Lex(s).texts, takes))
  {
    PiecesBegin(s);
  }

  lemma BlankedTail(text: string, texts: seq<string>, others: seq<string>, blanks: seq<string>)
    requires Blanked([text] + texts, others, blanks)
    ensures BlankedAt(text, others[0], blanks[0]) && Blanked(texts, others[1..], blanks[1..])
    ensures others == [others[0]] + others[1..] && blanks == [blanks[0]] + blanks[1..]
  {
    var all := [text] + texts;
    assert all[0] == text && all[1..] == texts;
    BlankedRest(all, others, blanks);
  }

  lemma BlankedRest(texts: seq<string>, others: seq<string>, blanks: seq<string>)
    requires Blanked(texts, others, blanks) && texts != []
    ensures BlankedAt(texts[0], others[0], blanks[0]) && Blanked(texts[1..], others[1..], blanks[1..])
  {
    forall k | 0 <= k < |texts| - 1 ensures BlankedAt(texts[1..][k], others[1..][k], blanks[1..][k]) {
      assert BlankedAt(texts[k + 1], others[k + 1], blanks[k + 1]);
    }
  }

  // --------------------------------------------------- what closes a quote --

  lemma ClosesCons(c: char, rest: string, quote: char)
    ensures c != '\\' ==> (Closes([c] + rest, quote) <==> c == quote || Closes(rest, quote))
    ensures c == '\\' != quote ==> (Closes([c] + rest, quote) <==>
      rest != "" && !IsLineEnd(rest[0]) && Closes(rest[1..], quote))
  {
    var s := [c] + rest;
    assert s[1..] == rest;
    assert rest != "" ==> s[1] == rest[0] && s[2..] == rest[1..];
  }

  predicate AllBare(t: string) {
    forall i :: 0 <= i < |t| ==> IsBare(t[i])
  }

  /** An escaped value closes nothing, and leaves nothing open to what comes after it. */
  lemma {:induction false} EscapedIsInert(t: string, rest: string, quote: char)
    requires AllBare(t) && Opens(quote)
    ensures Closes(Escaped(t) + rest, quote) <==> Closes(rest, quote)
  {
    if t == "" {
      assert Escaped(t) + rest == rest;
    } else {
      EscapedIsInert(t[1..], rest, quote);
      EscapedFirst(t, rest);
      FirstIsInert(t[0], Escaped(t[1..]) + rest, quote);
    }
  }

  lemma EscapedFirst(t: string, rest: string)
    requires t != ""
    ensures Escaped(t) + rest ==
      (if t[0] == '\"' || t[0] == '\\' then ['\\', t[0]] else [t[0]]) + (Escaped(t[1..]) + rest)
  {
  }

  lemma FirstIsInert(c: char, more: string, quote: char)
    requires IsBare(c) && Opens(quote)
    ensures Closes((if c == '\"' || c == '\\' then ['\\', c] else [c]) + more, quote) <==> Closes(more, quote)
  {
    if c == '\\' {
      assert ['\\', c] + more == ['\\'] + ([c] + more);
      AfterBackslash(c, more, quote);
    } else {
      ClosesCons(c, more, quote);
    }
  }

  /** To a quote left open before it, a quoted value is like an empty one. */
  lemma QuotedIsBlank(t: string, a: string, b: string, quote: char)
    requires AllBare(t) && Opens(quote) && (Closes(a, quote) <==> Closes(b, quote))
    ensures Closes(Quoted(t) + a, quote) <==> Closes("\"\"" + b, quote)
  {
    var tail := "\"" + a;
    assert Quoted(t) + a == ['\"'] + (Escaped(t) + tail);
    ClosesCons('\"', Escaped(t) + tail, quote);
    EscapedIsInert(t, tail, quote);
    assert tail == ['\"'] + a;
    ClosesCons('\"', a, quote);
    assert "\"\"" + b == ['\"'] + (['\"'] + b);
    ClosesCons('\"', ['\"'] + b, quote);
    ClosesCons('\"', b, quote);
  }

  /** So is whatever comes before it, if no backslash at its end reaches over. */
  lemma {:induction false} SameAfter(p: string, a: string, b: string, quote: char)
    requires Opens(quote) && (Closes(a, quote) <==> Closes(b, quote))
    requires p != "" && p[|p| - 1] == '\\' ==> (Closes("\\" + a, quote) <==> Closes("\\" + b, quote))
    ensures Closes(p + a, quote) <==> Closes(p + b, quote)
    decreases |p|
  {
    if p == "" {
      assert p + a == a && p + b == b;
    } else {
      var rest := p[1..];
      assert p == [p[0]] + rest && p + a == [p[0]] + (rest + a) && p + b == [p[0]] + (rest + b);
      ClosesCons(p[0], rest + a, quote);
      ClosesCons(p[0], rest + b, quote);
      if p[0] != '\\' {
        SameAfter(rest, a, b, quote);
      } else if rest == "" {
        assert p == "\\";
      } else {
        var more := rest[1..];
        assert (rest + a)[0] == rest[0] == (rest + b)[0];
        assert (rest + a)[1..] == more + a && (rest + b)[1..] == more + b;
        SameAfter(more, a, b, quote);
      }
    }
  }

  /** The end of a piece: a backslash is there only in a bare one, which goes on to
      something that no bare value begins with. */
  lemma PieceEnds(s: string, n: nat)
    requires n == Match(s) > 0
    ensures IsBare(s[0]) ==> AllBare(s[..n])
    ensures s[n - 1] == '\\' ==> n == |s| || !IsBare(s[n])
  {
    if Opens(s[0]) {
      EndsInQuote(s, 1, s[0]);
    }
  }

  lemma {:induction false} EndsInQuote(s: string, i: nat, quote: char)
    requires i <= |s|
    ensures QuotedEnd(s, i, quote).Some? ==> s[QuotedEnd(s, i, quote).value - 1] == quote
    decreases |s| - i
  {
    if i < |s| && s[i] != quote {
      if s[i] != '\\' {
        EndsInQuote(s, i + 1, quote);
      } else if i + 1 < |s| {
        EndsInQuote(s, i + 2, quote);
      }
    }
  }

  /** Whether a quote left open before a text closes in it is the same with its values
      quoted and with them blank, and after a backslash too where no bare value begins it. */
  lemma {:induction false} ClosesSame(s: string, others: seq<string>, blanks: seq<string>, quote: char)
    requires Blanked(Lex(s).texts, others, blanks) && Opens(quote)
    ensures var a, b := Weave(Lex(s).gaps, others), Weave(Lex(s).gaps, blanks);
      && (Closes(a, quote) <==> Closes(b, quote))
      && (s == "" || !IsBare(s[0]) ==> (Closes("\\" + a, quote) <==> Closes("\\" + b, quote)))
    decreases |s|
  {
    var n := Match(s);
    if s != "" {
      if n == 0 {
        ClosesSame(s[1..], others, blanks, quote);
        SameGap(s, others, blanks, quote);
      } else {
        LexPiece(s[..n], s[n..], s);
        BlankedTail(s[..n], Lex(s[n..]).texts, others, blanks);
        ClosesSame(s[n..], others[1..], blanks[1..], quote);
        SamePiece(s, n, others, blanks, quote);
      }
    }
  }

  lemma SameGap(s: string, others: seq<string>, blanks: seq<string>, quote: char)
    requires s != "" && Match(s) == 0 && Opens(quote)
    requires |others| == |blanks| == |Lex(s[1..]).texts|
    requires Closes(Weave(Lex(s[1..]).gaps, others), quote) <==> Closes(Weave(Lex(s[1..]).gaps, blanks), quote)
    ensures var a, b := Weave(Lex(s).gaps, others), Weave(Lex(s).gaps, blanks);
      && (Closes(a, quote) <==> Closes(b, quote)) && (Closes("\\" + a, quote) <==> Closes("\\" + b, quote))
  {
    var c, gaps := s[0], Lex(s[1..]).gaps;
    assert s == [c] + s[1..] && [gaps[0]] + gaps[1..] == gaps;
    LexSkip(c, s[1..], s);
    WeaveLonger(c, gaps[0], gaps[1..], others);
    WeaveLonger(c, gaps[0], gaps[1..], blanks);
    GapIsNotBare(c, s[1..]);
    var a, b := Weave(gaps, others), Weave(gaps, blanks);
    ClosesCons(c, a, quote);
    ClosesCons(c, b, quote);
    AfterBackslash(c, a, quote);
    AfterBackslash(c, b, quote);
  }

  lemma GapIsNotBare(c: char, r: string)
    requires Match([c] + r) == 0
    ensures !IsBare(c) && c != '\\'
  {
    GapKeeps(c, r, r);
  }

  lemma AfterBackslash(c: char, rest: string, quote: char)
    requires Opens(quote)
    ensures Closes("\\" + ([c] + rest), quote) <==> !IsLineEnd(c) && Closes(rest, quote)
  {
    ClosesCons('\\', [c] + rest, quote);
    assert ([c] + rest)[1..] == rest;
  }

  lemma PieceWeaves(s: string, n: nat, texts: seq<string>)
    requires s != "" && n == Match(s) > 0 && |texts| == |Lex(s).texts|
    ensures |texts| == |Lex(s[n..]).texts| + 1
    ensures Weave(Lex(s).gaps, texts) == texts[0] + Weave(Lex(s[n..]).gaps, texts[1..])
  {
    assert s[..n] + s[n..] == s && |Lex(s).texts| == |Lex(s[n..]).texts| + 1;
    LexPiece(s[..n], s[n..], s);
    assert texts == [texts[0]] + texts[1..];
    WeaveCons("", Lex(s[n..]).gaps, texts[0], texts[1..]);
  }

  lemma SamePiece(s: string, n: nat, others: seq<string>, blanks: seq<string>, quote: char)
    requires s != "" && n == Match(s) > 0 && Opens(quote) && others != [] && blanks != []
    requires |others| == |blanks| == |Lex(s).texts| == |Lex(s[n..]).texts| + 1
    requires BlankedAt(s[..n], others[0], blanks[0])
    requires var a, b := Weave(Lex(s[n..]).gaps, others[1..]), Weave(Lex(s[n..]).gaps, blanks[1..]);
      && (Closes(a, quote) <==> Closes(b, quote))
      && (s[n..] == "" || !IsBare(s[n..][0]) ==> (Closes("\\" + a, quote) <==> Closes("\\" + b, quote)))
    ensures var a, b := Weave(Lex(s).gaps, others), Weave(Lex(s).gaps, blanks);
      && (Closes(a, quote) <==> Closes(b, quote))
      && (!IsBare(s[0]) ==> (Closes("\\" + a, quote) <==> Closes("\\" + b, quote)))
  {
    var p, gaps := s[..n], Lex(s[n..]).gaps;
    var a, b := Weave(gaps, others[1..]), Weave(gaps, blanks[1..]);
    PieceWeaves(s, n, others);
    PieceWeaves(s, n, blanks);
    PieceEnds(s, n);
    if others[0] == p == blanks[0] {
      SameAfter(p, a, b, quote);
      SameAfterFirst(p, a, b, quote);
    } else {
      QuotedIsBlank(p, a, b, quote);
    }
  }

  lemma SameAfterFirst(p: string, a: string, b: string, quote: char)
    requires p != "" && Opens(quote) && (Closes(a, quote) <==> Closes(b, quote))
    requires p[|p| - 1] == '\\' ==> (Closes("\\" + a, quote) <==> Closes("\\" + b, quote))
    ensures Closes("\\" + (p + a), quote) <==> Closes("\\" + (p + b), quote)
  {
    assert p + a == [p[0]] + (p[1..] + a) && p + b == [p[0]] + (p[1..] + b);
    AfterBackslash(p[0], p[1..] + a, quote);
    AfterBackslash(p[0], p[1..] + b, quote);
    SameAfter(p[1..], a, b, quote);
  }

  // ------------------------------------------------------ the exact condition --

  /** So the quotes between the pieces stay open with the values quoted exactly if they do
      with the values blank. */
  lemma {:induction false} OpenSame(s: string, others: seq<string>, blanks: seq<string>)
    requires Blanked(Lex(s).texts, others, blanks)
    ensures StayOpen(Lex(s).gaps, others) <==> StayOpen(Lex(s).gaps, blanks)
    decreases |s|
  {
    var n := Match(s);
    if s != "" {
      if n == 0 {
        var c, rest := s[0], Lex(s[1..]);
        OpenSame(s[1..], others, blanks);
        if Opens(c) {
          ClosesSame(s[1..], others, blanks, c);
        }
        assert [rest.gaps[0]] + rest.gaps[1..] == rest.gaps;
        OpenLonger(c, rest.gaps[0], rest.gaps[1..], others);
        OpenLonger(c, rest.gaps[0], rest.gaps[1..], blanks);
      } else {
        var rest := Lex(s[n..]);
        assert s[..n] + s[n..] == s;
        LexPiece(s[..n], s[n..], s);
        BlankedTail(s[..n], rest.texts, others, blanks);
        OpenSame(s[n..], others[1..], blanks[1..]);
        OpenCons(rest.gaps, others[0], others[1..]);
        OpenCons(rest.gaps, blanks[0], blanks[1..]);
      }
    }
  }

  /** The result comes apart into the pieces of the text, its values now quoted, if and only
      if no stray quote of the text would be closed were those values blank. */
  lemma RequotedPiecesExactly(text: string, takes: string -> bool)
    ensures Lex(Result(text, takes)) == Lexing(Lex(text).gaps, NewTexts(Lex(text).texts, takes))
      <==> StayOpen(Lex(text).gaps, Blanks(Lex(text).texts, takes))
  {
    CutsAreBare(text, takes);
    CutsAreBlanked(text, takes);
    RelexExactly(text, NewTexts(Lex(text).texts, takes));
    OpenSame(text, NewTexts(Lex(text).texts, takes), Blanks(Lex(text).texts, takes));
  }

  /** And wherever it does, requoting it again changes nothing. */
  lemma RequotedAgain(text: string, takes: string -> bool)
    requires StayOpen(Lex(text).gaps, Blanks(Lex(text).texts, takes))
    ensures Result(Result(text, takes), takes) == Result(text, takes)
  {
    RequotedPiecesExactly(text, takes);
    NothingMoreToCut(Lex(text).texts, takes);
  }

  // ---------------------------------------------- texts without a backslash --

  const Backslash := '\\'

  /** Without backslashes, what closes a quote is another one. */
  lemma {:induction false} ClosesPlain(s: string, quote: char)
    requires Backslash !in s
    ensures Closes(s, quote) <==> quote in s
  {
    if s != "" {
      ClosesPlain(s[1..], quote);
      assert s == [s[0]] + s[1..];
    }
  }

  ghost predicate InSome(x: char, parts: seq<string>) {
    exists i :: 0 <= i < |parts| && x in parts[i]
  }

  lemma InSomeCons(x: char, part: string, parts: seq<string>)
    ensures InSome(x, [part] + parts) <==> x in part || InSome(x, parts)
  {
    var all := [part] + parts;
    assert all[0] == part && forall i :: 0 <= i < |parts| ==> all[i + 1] == parts[i];
    if InSome(x, parts) {
      var i :| 0 <= i < |parts| && x in parts[i];
      assert x in all[i + 1];
    }
  }

  lemma {:induction false} WeaveHas(x: char, gaps: seq<string>, texts: seq<string>)
    requires |gaps| == |texts| + 1
    ensures x in Weave(gaps, texts) <==> InSome(x, gaps) || InSome(x, texts)
    decreases |texts|
  {
    if texts == [] {
      assert gaps == [gaps[0]] + [];
      InSomeCons(x, gaps[0], []);
    } else {
      WeaveHas(x, gaps[1..], texts[1..]);
      assert gaps == [gaps[0]] + gaps[1..] && texts == [texts[0]] + texts[1..];
      InSomeCons(x, gaps[0], gaps[1..]);
      InSomeCons(x, texts[0], texts[1..]);
    }
  }

  /** Some value is blank in one list that is there in the other. */
  ghost predicate SomeCut(texts: seq<string>, blanks: seq<string>)
    requires |blanks| == |texts|
  {
    exists k :: 0 <= k < |texts| && blanks[k] != texts[k]
  }

  /** A quote that is not in a text is in the text with blanks only if it is the double
      quote and there is a blank. */
  lemma BlanksHave(x: char, s: string, others: seq<string>, blanks: seq<string>)
    requires Blanked(Lex(s).texts, others, blanks) && x !in s
    ensures x in Weave(Lex(s).gaps, blanks) <==> x == '\"' && SomeCut(Lex(s).texts, blanks)
  {
    var gaps, texts := Lex(s).gaps, Lex(s).texts;
    LexWeaves(s);
    WeaveHas(x, gaps, texts);
    WeaveHas(x, gaps, blanks);
    assert forall k :: 0 <= k < |texts| ==> BlankedAt(texts[k], others[k], blanks[k]);
    assert forall k :: 0 <= k < |texts| ==> x !in texts[k];
    if x == '\"' && SomeCut(texts, blanks) {
      var k :| 0 <= k < |texts| && blanks[k] != texts[k];
      assert x in blanks[k];
    }
  }

  /** A double quote in a gap, and after it a value that is cut. */
  ghost predicate StrayBefore(gaps: seq<string>, texts: seq<string>, blanks: seq<string>)
    requires |gaps| == |texts| + 1 && |blanks| == |texts|
  {
    exists j, k :: StrayAt(gaps, texts, blanks, j, k)
  }

  predicate StrayAt(gaps: seq<string>, texts: seq<string>, blanks: seq<string>, j: int, k: int)
    requires |gaps| == |texts| + 1 && |blanks| == |texts|
  {
    0 <= j <= k < |texts| && '\"' in gaps[j] && blanks[k] != texts[k]
  }

  lemma StrayLonger(c: char, gap: string, gaps: seq<string>, texts: seq<string>, blanks: seq<string>)
    requires |gaps| == |texts| == |blanks|
    ensures StrayBefore([[c] + gap] + gaps, texts, blanks) <==>
      (c == '\"' && SomeCut(texts, blanks)) || StrayBefore([gap] + gaps, texts, blanks)
  {
    var x, y := [[c] + gap] + gaps, [gap] + gaps;
    assert forall j :: 0 < j < |x| ==> x[j] == y[j];
    assert '\"' in x[0] <==> c == '\"' || '\"' in y[0];
    if StrayBefore(x, texts, blanks) {
      var j, k :| StrayAt(x, texts, blanks, j, k);
      assert StrayAt(y, texts, blanks, j, k) || c == '\"';
    }
    if StrayBefore(y, texts, blanks) {
      var j, k :| StrayAt(y, texts, blanks, j, k);
      assert StrayAt(x, texts, blanks, j, k);
    }
    if c == '\"' && SomeCut(texts, blanks) {
      var k :| 0 <= k < |texts| && blanks[k] != texts[k];
      assert StrayAt(x, texts, blanks, 0, k);
    }
  }

  lemma StrayCons(gaps: seq<string>, text: string, texts: seq<string>, blank: string, blanks: seq<string>)
    requires |gaps| == |texts| + 1 && |blanks| == |texts|
    ensures StrayBefore([""] + gaps, [text] + texts, [blank] + blanks) <==> StrayBefore(gaps, texts, blanks)
  {
    var x, y, z := [""] + gaps, [text] + texts, [blank] + blanks;
    if StrayBefore(x, y, z) {
      var j, k :| StrayAt(x, y, z, j, k);
      assert StrayAt(gaps, texts, blanks, j - 1, k - 1);
    }
    if StrayBefore(gaps, texts, blanks) {
      var j, k :| StrayAt(gaps, texts, blanks, j, k);
      assert StrayAt(x, y, z, j + 1, k + 1);
    }
  }

  /** Without backslashes the stray quotes that matter are the double ones with a value to
      quote after them. */
  lemma {:induction false} OpenPlain(s: string, others: seq<string>, blanks: seq<string>)
    requires Backslash !in s && Blanked(Lex(s).texts, others, blanks)
    ensures StayOpen(Lex(s).gaps, blanks) <==> !StrayBefore(Lex(s).gaps, Lex(s).texts, blanks)
    decreases |s|
  {
    var n := Match(s);
    if s != "" {
      if n == 0 {
        var rest := Lex(s[1..]);
        assert s == [s[0]] + s[1..];
        OpenPlain(s[1..], others, blanks);
        LexSkip(s[0], s[1..], s);
        PlainGap(s, others, blanks);
        assert [rest.gaps[0]] + rest.gaps[1..] == rest.gaps;
        OpenLonger(s[0], rest.gaps[0], rest.gaps[1..], blanks);
        StrayLonger(s[0], rest.gaps[0], rest.gaps[1..], rest.texts, blanks);
      } else {
        var rest := Lex(s[n..]);
        assert s[..n] + s[n..] == s;
        LexPiece(s[..n], s[n..], s);
        BlankedTail(s[..n], rest.texts, others, blanks);
        OpenPlain(s[n..], others[1..], blanks[1..]);
        OpenCons(rest.gaps, blanks[0], blanks[1..]);
        StrayCons(rest.gaps, s[..n], rest.texts, blanks[0], blanks[1..]);
      }
    }
  }

  lemma PlainGap(s: string, others: seq<string>, blanks: seq<string>)
    requires s != "" && Match(s) == 0 && Backslash !in s && Blanked(Lex(s[1..]).texts, others, blanks)
    ensures var rest := Lex(s[1..]);
      (Opens(s[0]) && Closes(Weave(rest.gaps, blanks), s[0])) <==> s[0] == '\"' && SomeCut(rest.texts, blanks)
  {
    var c, r := s[0], s[1..];
    assert s == [c] + r;
    if Opens(c) {
      MatchCloses(c, r);
      ClosesPlain(r, c);
      BlanksHave(Backslash, r, others, blanks);
      ClosesPlain(Weave(Lex(r).gaps, blanks), c);
      BlanksHave(c, r, others, blanks);
    }
  }

  /** A quote left open somewhere before a value that is to be quoted, as a caller would
      look for it. */
  ghost predicate QuoteBeforeCut(text: string, takes: string -> bool) {
    exists j, k :: QuoteAt(text, takes, j, k)
  }

  predicate QuoteAt(text: string, takes: string -> bool, j: int, k: int) {
    var lexing := Lex(text);
    0 <= j <= k < |lexing.texts| && '\"' in lexing.gaps[j] && Cut(lexing.texts, takes, k)
  }

  lemma CutIsBlank(text: string, takes: string -> bool)
    ensures var texts := Lex(text).texts;
      StrayBefore(Lex(text).gaps, texts, Blanks(texts, takes)) <==> QuoteBeforeCut(text, takes)
  {
    var gaps, texts, blanks := Lex(text).gaps, Lex(text).texts, Blanks(Lex(text).texts, takes);
    PiecesBegin(text);
    forall k | 0 <= k < |texts| ensures blanks[k] != texts[k] <==> Cut(texts, takes, k) {
      assert Cut(texts, takes, k) ==> BareText(texts[k]);
    }
    if StrayBefore(gaps, texts, blanks) {
      var j, k :| StrayAt(gaps, texts, blanks, j, k);
      assert QuoteAt(text, takes, j, k);
    }
    if QuoteBeforeCut(text, takes) {
      var j, k :| QuoteAt(text, takes, j, k);
      assert StrayAt(gaps, texts, blanks, j, k);
    }
  }

  /** In a text without backslashes: the result comes apart into the same pieces exactly if
      there is no double quote between pieces anywhere before a value that is quoted. */
  lemma RequotedPlain(text: string, takes: string -> bool)
    requires Backslash !in text
    ensures Lex(Result(text, takes)) == Lexing(Lex(text).gaps, NewTexts(Lex(text).texts, takes))
      <==> !QuoteBeforeCut(text, takes)
  {
    RequotedPiecesExactly(text, takes);
    CutsAreBlanked(text, takes);
    OpenPlain(text, NewTexts(Lex(text).texts, takes), Blanks(Lex(text).texts, takes));
    CutIsBlank(text, takes);
  }

  // ----------------------------------------------------------------- an example --

  /** A text with such a quote: what was three pieces and a quote comes apart as two. */
  lemma StrayQuote(takes: string -> bool)
    requires takes("x")
    ensures |Lex("\"x==b").texts| == 3 && |Lex(Result("\"x==b", takes)).texts| == 2
  {
    StrayText("\"x==b");
    StrayCuts(["x", "==", "b"], takes);
    StrayWoven(["\"", "", "", ""], ["x", "==", "\"b\""]);
    StrayResult("\"x==\"b\"");
  }

  lemma StrayWoven(gaps: seq<string>, texts: seq<string>)
    requires gaps == ["\"", "", "", ""] && texts == ["x", "==", "\"b\""]
    ensures Weave(gaps, texts) == "\"x==\"b\""
  {
    WeaveFour(gaps, texts);
    assert gaps[2] + (texts[2] + gaps[3]) == "\"b\"";
    assert gaps[1] + (texts[1] + "\"b\"") == "==\"b\"";
    assert gaps[0] + (texts[0] + "==\"b\"") == "\"x==\"b\"";
  }

  lemma StrayCuts(texts: seq<string>, takes: string -> bool)
    requires texts == ["x", "==", "b"] && takes("x")
    ensures NewTexts(texts, takes) == ["x", "==", "\"b\""]
  {
    StrayWords();
    assert ScanTo(texts, 0) == Scan("", false) && ScanTo(texts, 1) == Scan("", false);
    assert ScanTo(texts, 2) == Scan("x", false);
    assert FieldAt(texts, 0) == "" && FieldAt(texts, 1) == "" && FieldAt(texts, 2) == "x";
    assert Escaped("b") == "b" + Escaped("") == "b";
    assert Quoted("b") == "\"b\"";
  }

  lemma StrayWords()
    ensures !Compares("x") && !Compares("b") && Compares("==") && Lowered("==") != "in"
    ensures BareText("x") && BareText("b")
  {
    assert Lowered("==") == "==" && Lowered("x") == "x" && Lowered("b") == "b";
    assert Lowered("x")[0] == 'x' && Lowered("b")[0] == 'b';
    assert forall c :: c in Comparisons ==> c[0] != 'x' && c[0] != 'b';
  }

  lemma WeaveFour(gaps: seq<string>, texts: seq<string>)
    requires |gaps| == 4 && |texts| == 3
    ensures Weave(gaps, texts) == gaps[0] + (texts[0] + (gaps[1] + (texts[1] + (gaps[2] + (texts[2] + gaps[3])))))
  {
    assert Weave(gaps[3..], texts[3..]) == gaps[3];
    assert Weave(gaps[2..], texts[2..]) == gaps[2] + (texts[2] + Weave(gaps[2..][1..], texts[2..][1..]));
    assert gaps[2..][1..] == gaps[3..] && texts[2..][1..] == texts[3..];
    assert Weave(gaps[1..], texts[1..]) == gaps[1] + (texts[1] + Weave(gaps[1..][1..], texts[1..][1..]));
    assert gaps[1..][1..] == gaps[2..] && texts[1..][1..] == texts[2..];
  }

  lemma StrayText(s: string)
    requires s == "\"x==b"
    ensures Lex(s) == Lexing(["\"", "", "", ""], ["x", "==", "b"])
  {
    StrayUnclosed(s);
    var rest := s[1..];
    StrayTail(rest);
    StrayGaps(Lex(rest).gaps);
    LexSkip(s[0], rest, s);
  }

  lemma StrayGaps(gaps: seq<string>)
    requires gaps == ["", "", "", ""]
    ensures [['\"'] + gaps[0]] + gaps[1..] == ["\"", "", "", ""]
  {
    assert ['\"'] + gaps[0] == "\"" && gaps[1..] == ["", "", ""];
  }

  lemma StrayUnclosed(s: string)
    requires s == "\"x==b"
    ensures Match(s) == 0
  {
    assert QuotedEnd(s, 5, '\"') == None;
    assert QuotedEnd(s, 4, '\"') == None;
    assert QuotedEnd(s, 3, '\"') == None;
    assert QuotedEnd(s, 2, '\"') == None;
    assert QuotedEnd(s, 1, '\"') == None;
  }

  lemma StrayTail(s: string)
    requires s == "x==b"
    ensures Lex(s) == Lexing(["", "", "", ""], ["x", "==", "b"])
  {
    StrayPieces();
    LexPiece("b", "", "b");
    LexPiece("==", "b", "==b");
    LexPiece("x", "==b", s);
  }

  lemma StrayPieces()
    ensures Match("b") == 1 && Match("==b") == 2 && Match("x==b") == 1
  {
    assert BareEnd("b", 1) == 1;
    assert BareEnd("x==b", 1) == 1;
  }

  lemma StrayResult(s: string)
    requires s == "\"x==\"b\""
    ensures |Lex(s).texts| == 2
  {
    StrayClosed(s);
    LexPiece("\"x==\"", "b\"", s);
    StrayLast();
  }

  lemma StrayClosed(s: string)
    requires s == "\"x==\"b\""
    ensures Match(s) == 5 && s == "\"x==\"" + "b\""
  {
    assert QuotedEnd(s, 4, '\"') == Some(5);
    assert QuotedEnd(s, 3, '\"') == Some(5);
    assert QuotedEnd(s, 2, '\"') == Some(5);
  }

  lemma StrayLast()
    ensures |Lex("b\"").texts| == 1
  {
    assert BareEnd("b\"", 1) == 1;
    LexPiece("b", "\"", "b\"");
    assert QuotedEnd("\"", 1, '\"') == None;
    LexSkip('\"', "", "\"");
  }
}
