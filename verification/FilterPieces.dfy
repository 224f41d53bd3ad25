/** What the pieces of a filter are, and which of them are compared values, without the lexer
    and the scan that find them (src/web/app.js). */
module FilterPieces {
  import opened Basics
  import opened Options
  import opened FilterLexer
  import opened Requote

  // ------------------------------------------------------------------ pieces --

  /** White space, by its code points. */
  predicate White(c: char) {
    var n := c as int;
    9 <= n <= 13 || n == 32 || n == 160 || n == 5760 || 8192 <= n <= 8202 || n == 8232 || n == 8233 || n == 8239
    || n == 8287 || n == 12288 || n == 65279
  }

  predicate Quote(c: char) {
    c == '\"' || c == '\'' || c == '/'
  }

  predicate Mark(c: char) {
    || c == '(' || c == ')' || c == '{' || c == '}' || c == '[' || c == ']' || c == ','
    || c == '<' || c == '>' || c == '~' || c == '!' || c == '='
  }

  /** Of a value written without quotes. */
  predicate Bare(c: char) {
    !White(c) && !Mark(c) && !Quote(c) && c != '&' && c != '|'
  }

  /** Two marks that are one operator. */
  predicate Pair(a: char, b: char) {
    (a == '&' == b) || (a == '|' == b) || (b == '=' && (a == '=' || a == '!' || a == '<' || a == '>'))
  }

  /** What may be between two quotes: no such quote, but behind a backslash, which takes the
      next character along unless that ends the line. */
  predicate Within(body: string, quote: char) {
    body == ""
    || (if body[0] == '\\' then
          |body| > 1 && body[1] as int !in {10, 13, 8232, 8233} && Within(body[2..], quote)
        else body[0] != quote && Within(body[1..], quote))
  }

  predicate QuotedPiece(s: string, n: nat) {
    2 <= n <= |s| && Quote(s[0]) && s[n - 1] == s[0] && Within(s[1..n - 1], s[0])
  }

  /** The piece a text begins with is so long, if there is one: something in quotes; or an
      operator of two marks, or else one mark; or else as much of a bare value as there is. */
  predicate BeginsWith(s: string, n: nat) {
    && 0 < n <= |s|
    && if Quote(s[0]) then QuotedPiece(s, n)
       else if |s| > 1 && Pair(s[0], s[1]) then n == 2
       else if Mark(s[0]) then n == 1
       else (forall i :: 0 <= i < n ==> Bare(s[i])) && (n < |s| ==> !Bare(s[n]))
  }

  lemma SameChars(c: char)
    ensures IsSpace(c) <==> White(c)
    ensures IsMark(c) <==> Mark(c)
    ensures Opens(c) <==> Quote(c)
    ensures IsBare(c) <==> Bare(c)
  {
  }

  lemma {:induction false} QuotedIs(s: string, i: nat, quote: char, end: nat)
    requires i <= |s| && quote != '\\'
    ensures QuotedEnd(s, i, quote) == Some(end) <==>
      i < end <= |s| && s[end - 1] == quote && Within(s[i..end - 1], quote)
    decreases |s| - i
  {
    if i < |s| && s[i] != quote {
      if s[i] != '\\' {
        QuotedIs(s, i + 1, quote, end);
        OneInside(s, i, quote, end);
      } else {
        if i + 1 < |s| && !IsLineEnd(s[i + 1]) {
          QuotedIs(s, i + 2, quote, end);
        }
        TwoInside(s, i, quote, end);
      }
    } else if i < |s| {
      NoneInside(s, i, quote, end);
    }
  }

  lemma OneInside(s: string, i: nat, quote: char, end: nat)
    requires i < |s| && s[i] != quote && s[i] != '\\'
    ensures i < end <= |s| && s[end - 1] == quote ==>
      i + 1 < end && (Within(s[i..end - 1], quote) <==> Within(s[i + 1..end - 1], quote))
  {
    if i < end <= |s| && s[end - 1] == quote {
      var body := s[i..end - 1];
      assert body[0] == s[i] && body[1..] == s[i + 1..end - 1];
    }
  }

  lemma TwoInside(s: string, i: nat, quote: char, end: nat)
    requires i < |s| && s[i] == '\\' != quote
    ensures i < end <= |s| && s[end - 1] == quote && Within(s[i..end - 1], quote) ==>
      i + 2 < end && !IsLineEnd(s[i + 1]) && Within(s[i + 2..end - 1], quote)
    ensures i + 2 < end <= |s| && !IsLineEnd(s[i + 1]) && Within(s[i + 2..end - 1], quote) ==>
      Within(s[i..end - 1], quote)
  {
    if i + 2 < end <= |s| {
      var body := s[i..end - 1];
      assert body[0] == s[i] && body[1] == s[i + 1] && body[2..] == s[i + 2..end - 1];
    }
  }

  lemma NoneInside(s: string, i: nat, quote: char, end: nat)
    requires i < |s| && s[i] == quote != '\\'
    ensures i < end <= |s| && s[end - 1] == quote && Within(s[i..end - 1], quote) ==> end == i + 1
    ensures Within(s[i..i], quote)
  {
    if i + 1 < end <= |s| {
      assert s[i..end - 1][0] == quote;
    }
  }

  /** The pieces the lexer finds are these. */
  lemma PieceIs(s: string, n: nat)
    requires n > 0
    ensures Match(s) == n <==> BeginsWith(s, n)
  {
    if s != "" {
      SameChars(s[0]);
      if Opens(s[0]) {
        QuotedIs(s, 1, s[0], n);
      } else if !(|s| > 1 && Pair(s[0], s[1])) && !Mark(s[0]) {
        BareIs(s, n);
      }
    }
  }

  lemma BareIs(s: string, n: nat)
    requires s != "" && n > 0
    ensures BareEnd(s, 0) == n <==> n <= |s| && (forall i :: 0 <= i < n ==> Bare(s[i])) && (n < |s| ==> !Bare(s[n]))
  {
    forall c ensures IsBare(c) <==> Bare(c) {
      SameChars(c);
    }
  }

  // ------------------------------------------------------------------ values --

  /** The comparisons of a display filter, in signs or in words. */
  predicate Comparison(t: string) {
    var w := Lowered(t);
    || w == "==" || w == "!=" || w == ">=" || w == "<=" || w == ">" || w == "<" || w == "~"
    || w == "eq" || w == "ne" || w == "gt" || w == "lt" || w == "ge" || w == "le"
    || w == "contains" || w == "matches" || w == "in"
  }

  predicate BareWord(t: string) {
    t != "" && !Mark(t[0]) && !Quote(t[0]) && t[0] != '&' && t[0] != '|'
  }

  /** What may be between `in` and a value of its set. */
  predicate InSet(t: string) {
    !Comparison(t) && (t == "{" || t == "," || BareWord(t))
  }

  /** A comparison of a field, still open before a piece: just before it, or the `in` of a
      set that has not been closed. */
  predicate OpenAt(texts: seq<string>, k: nat, j: nat) {
    && 0 < j < k <= |texts| && Comparison(texts[j]) && BareWord(texts[j - 1])
    && (k == j + 1 || Lowered(texts[j]) == "in")
    && forall i :: j < i < k ==> InSet(texts[i])
  }

  /** A piece is a value of a field: a bare word that is no comparison, after one still open
      that is of that field. */
  ghost predicate ValueOf(texts: seq<string>, k: nat, field: string) {
    && k < |texts| && BareWord(texts[k]) && !Comparison(texts[k])
    && exists j: nat :: OpenAt(texts, k, j) && texts[j - 1] == field
  }

  lemma SameWords(t: string)
    requires t != ""
    ensures Compares(t) <==> Comparison(t)
    ensures BareText(t) <==> BareWord(t)
  {
    SameChars(t[0]);
  }

  ghost predicate AllPieces(texts: seq<string>) {
    forall i :: 0 <= i < |texts| ==> texts[i] != ""
  }

  /** What the scan knows before a piece is which comparison is open. */
  ghost predicate Knows(texts: seq<string>, k: nat, s: Scan) {
    && (s.field != "" ==> exists j: nat :: OpenAt(texts, k, j) && texts[j - 1] == s.field)
    && forall j: nat :: OpenAt(texts, k, j) ==> texts[j - 1] == s.field && (s.many <==> Lowered(texts[j]) == "in")
  }

  lemma {:induction false} ScanKnows(texts: seq<string>, k: nat)
    requires AllPieces(texts) && k <= |texts|
    ensures Knows(texts, k, ScanTo(texts, k))
    decreases k
  {
    if k > 0 {
      ScanKnows(texts, k - 1);
      KnowsOneMore(texts, k - 1, k);
    } else {
      KnowsNothing(texts);
    }
  }

  lemma KnowsOneMore(texts: seq<string>, k: nat, next: nat)
    requires AllPieces(texts) && k < |texts| && next == k + 1 && Knows(texts, k, ScanTo(texts, k))
    ensures Knows(texts, next, ScanTo(texts, next))
  {
    KnowsNext(texts, k, next, ScanTo(texts, k));
    ScanNext(texts, k, next);
  }

  lemma ScanNext(texts: seq<string>, k: nat, next: nat)
    requires k < |texts| && next == k + 1
    ensures ScanTo(texts, next) == ScanStep(ScanTo(texts, k), if k > 0 then texts[k - 1] else "", texts[k])
  {
  }

  lemma KnowsNothing(texts: seq<string>)
    ensures Knows(texts, 0, ScanTo(texts, 0))
  {
  }

  lemma KnowsNext(texts: seq<string>, k: nat, next: nat, s: Scan)
    requires AllPieces(texts) && k < |texts| && next == k + 1 && Knows(texts, k, s)
    ensures Knows(texts, next, ScanStep(s, if k > 0 then texts[k - 1] else "", texts[k]))
  {
    SameWords(texts[k]);
    if k > 0 {
      SameWords(texts[k - 1]);
    }
    if Comparison(texts[k]) {
      KnowsAnew(texts, k, next, s);
    } else {
      KnowsStill(texts, k, next, s);
    }
  }

  lemma KnowsAnew(texts: seq<string>, k: nat, next: nat, s: Scan)
    requires AllPieces(texts) && k < |texts| && next == k + 1 && Comparison(texts[k]) && Compares(texts[k])
    requires k > 0 ==> (BareText(texts[k - 1]) <==> BareWord(texts[k - 1]))
    ensures Knows(texts, next, ScanStep(s, if k > 0 then texts[k - 1] else "", texts[k]))
  {
    OpensAnew(texts, k, next);
    assert k > 0 && BareWord(texts[k - 1]) ==> OpenAt(texts, next, k);
  }

  lemma KnowsStill(texts: seq<string>, k: nat, next: nat, s: Scan)
    requires AllPieces(texts) && k < |texts| && next == k + 1 && Knows(texts, k, s)
    requires !Comparison(texts[k]) && !Compares(texts[k]) && (BareText(texts[k]) <==> BareWord(texts[k]))
    ensures Knows(texts, next, ScanStep(s, if k > 0 then texts[k - 1] else "", texts[k]))
  {
    StaysOpen(texts, k, next);
    if s.field != "" {
      var j: nat :| OpenAt(texts, k, j) && texts[j - 1] == s.field;
      assert s.many <==> Lowered(texts[j]) == "in";
      assert OpenAt(texts, next, j) <==> s.many && InSet(texts[k]);
    }
  }

  lemma OpensAnew(texts: seq<string>, k: nat, next: nat)
    requires AllPieces(texts) && k < |texts| && next == k + 1 && Comparison(texts[k])
    ensures forall j: nat :: OpenAt(texts, next, j) <==> j == k && k > 0 && BareWord(texts[k - 1])
  {
  }

  lemma StaysOpen(texts: seq<string>, k: nat, next: nat)
    requires AllPieces(texts) && k < |texts| && next == k + 1 && !Comparison(texts[k])
    ensures forall j: nat :: OpenAt(texts, next, j) <==>
      OpenAt(texts, k, j) && Lowered(texts[j]) == "in" && InSet(texts[k])
  {
  }

  /** The values that are found are the values of fields, and all of them. */
  lemma ValueIs(texts: seq<string>, k: nat, field: string)
    requires AllPieces(texts) && k < |texts| && field != ""
    ensures FieldAt(texts, k) == field <==> ValueOf(texts, k, field)
  {
    ScanKnows(texts, k);
    SameWords(texts[k]);
  }

  /** So a filter comes out with just the bare values of string fields put in quotes. */
  lemma RequotedAre(text: string, takes: string -> bool, k: nat)
    requires k < |Lex(text).texts|
    ensures var texts := Lex(text).texts;
      NewTexts(texts, takes)[k]
        == if exists field :: field != "" && ValueOf(texts, k, field) && takes(field) then Quoted(texts[k]) else texts[k]
  {
    var texts := Lex(text).texts;
    TextsNotEmpty(text);
    forall field | field != "" ensures FieldAt(texts, k) == field <==> ValueOf(texts, k, field) {
      ValueIs(texts, k, field);
    }
  }

  /** What is between the quotes of a piece, a backslash standing for the character after it. */
  function Meant(body: string): string {
    if body == "" then ""
    else if body[0] == '\\' && |body| > 1 then [body[1]] + Meant(body[2..])
    else [body[0]] + Meant(body[1..])
  }

  /** A value put in quotes is a piece, and means what it meant. */
  lemma QuotedMeans(t: string)
    ensures Quoted(t)[0] == '\"' && |Quoted(t)| >= 2 && BeginsWith(Quoted(t), |Quoted(t)|)
    ensures Meant(Quoted(t)[1..|Quoted(t)| - 1]) == t
  {
    assert Quoted(t) + "" == Quoted(t);
    QuotedMatches(t, "");
    PieceIs(Quoted(t), |Quoted(t)|);
    assert Quoted(t)[1..|Quoted(t)| - 1] == Escaped(t);
    EscapedMeans(t);
  }

  lemma {:induction false} EscapedMeans(t: string)
    ensures Meant(Escaped(t)) == t
  {
    if t != "" {
      EscapedMeans(t[1..]);
      EscapedOne(t[0], Escaped(t[1..]));
      assert t == [t[0]] + t[1..];
    }
  }

  lemma EscapedOne(c: char, more: string)
    ensures Meant((if c == '\"' || c == '\\' then ['\\', c] else [c]) + more) == [c] + Meant(more)
  {
    var one := if c == '\"' || c == '\\' then ['\\', c] else [c];
    assert (one + more)[|one|..] == more;
  }
}
