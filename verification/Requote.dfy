/** Display filters with their string values put in quotes (src/web/app.js). */
module Requote {
  import opened Basics
  import opened FilterLexer

  // ---------------------------------------------------------------- scanning --

  const Comparisons := {"==", "!=", ">=", "<=", ">", "<", "~",
                        "eq", "ne", "gt", "lt", "ge", "le", "contains", "matches", "in"}

  predicate Compares(t: string) {
    Lowered(t) in Comparisons
  }

  /** Whether a piece is a bare value, going by how it begins. */
  predicate BareText(t: string) {
    t == "" || !(IsMark(t[0]) || Opens(t[0]) || t[0] == '&' || t[0] == '|')
  }

  /** The field a value may now be compared against, and whether it is a set of values. */
  datatype Scan = Scan(field: string, many: bool)

  function ScanStep(s: Scan, left: string, t: string): Scan {
    if Compares(t) then Scan(if BareText(left) then left else "", Lowered(t) == "in")
    else if s.field == "" then s
    else if s.many && (t == "{" || t == ",") then s
    else if !s.many || !BareText(t) then s.(field := "")
    else s
  }

  /** What the scan knows before a piece. */
  function ScanTo(texts: seq<string>, k: nat): Scan
    requires k <= |texts|
  {
    if k == 0 then Scan("", false)
    else ScanStep(ScanTo(texts, k - 1), if k > 1 then texts[k - 2] else "", texts[k - 1])
  }

  /** The field a piece is a value for, or nothing. */
  function FieldAt(texts: seq<string>, k: nat): string
    requires k < |texts|
  {
    var s, t := ScanTo(texts, k), texts[k];
    if Compares(t) || (s.many && (t == "{" || t == ",")) || !BareText(t) then "" else s.field
  }

  datatype Found = Found(piece: nat, field: string)

  /** Where the search for the next value goes on. */
  function Next(found: seq<Found>, i: nat): nat
    requires i <= |found|
  {
    if i == 0 then 0 else found[i - 1].piece + 1
  }

  ghost predicate NoneBetween(texts: seq<string>, a: nat, b: nat)
    requires b <= |texts|
  {
    forall j :: a <= j < b ==> FieldAt(texts, j) == ""
  }

  /** A value with its field, none having been passed over since the one before. */
  ghost predicate IsNext(texts: seq<string>, found: seq<Found>, i: nat)
    requires i < |found|
  {
    && Next(found, i) <= found[i].piece < |texts| && NoneBetween(texts, Next(found, i), found[i].piece)
    && found[i].field == FieldAt(texts, found[i].piece) != ""
  }

  /** The values among the first pieces, all of them in order. */
  ghost predicate FoundTo(texts: seq<string>, k: nat, found: seq<Found>)
    requires k <= |texts|
  {
    && (forall i :: 0 <= i < |found| ==> IsNext(texts, found, i))
    && Next(found, |found|) <= k && NoneBetween(texts, Next(found, |found|), k)
  }

  lemma FoundMore(texts: seq<string>, k: nat, found: seq<Found>)
    requires k < |texts| && FoundTo(texts, k, found)
    ensures FieldAt(texts, k) == "" ==> FoundTo(texts, k + 1, found)
    ensures FieldAt(texts, k) != "" ==> FoundTo(texts, k + 1, found + [Found(k, FieldAt(texts, k))])
  {
    if FieldAt(texts, k) != "" {
      var more := found + [Found(k, FieldAt(texts, k))];
      forall i | 0 <= i < |more| ensures IsNext(texts, more, i) {
        assert Next(more, i) == Next(found, i);
        assert i < |found| ==> IsNext(texts, found, i);
      }
    }
  }

  method FindValues(texts: seq<string>) returns (found: seq<Found>)
    ensures FoundTo(texts, |texts|, found)
  {
    found := [];
    var field, many := "", false;
    for i := 0 to |texts|
      invariant ScanTo(texts, i) == Scan(field, many) && FoundTo(texts, i, found)
    {
      FoundMore(texts, i, found);
      var t := texts[i];
      var op := Lowered(t);
      if op in Comparisons {
        var left := if i > 0 then texts[i - 1] else "";
        field := if BareText(left) then left else "";
        many := op == "in";
        continue;
      }
      if field == "" {
        continue;
      }
      if many && (t == "{" || t == ",") {
        continue;
      }
      if BareText(t) {
        found := found + [Found(i, field)];
      }
      if !many || !BareText(t) {
        field := "";
      }
    }
  }

  // ---------------------------------------------------------------- splicing --

  predicate Cut(texts: seq<string>, takes: string -> bool, k: nat)
    requires k < |texts|
  {
    FieldAt(texts, k) != "" && takes(FieldAt(texts, k))
  }

  /** The pieces, with the values of string fields quoted. */
  function NewTexts(texts: seq<string>, takes: string -> bool): (r: seq<string>)
    ensures |r| == |texts|
  {
    seq(|texts|, k requires 0 <= k < |texts| => if Cut(texts, takes, k) then Quoted(texts[k]) else texts[k])
  }

  /** The text up to the end of so many pieces. */
  function Upto(gaps: seq<string>, texts: seq<string>, k: nat): string
    requires |gaps| == |texts| + 1 && k <= |texts|
  {
    if k == 0 then "" else Upto(gaps, texts, k - 1) + gaps[k - 1] + texts[k - 1]
  }

  function From(gaps: seq<string>, texts: seq<string>, k: nat): string
    requires |gaps| == |texts| + 1 && k <= |texts|
  {
    Weave(gaps[k..], texts[k..])
  }

  lemma {:induction false} UptoFrom(gaps: seq<string>, texts: seq<string>, k: nat)
    requires |gaps| == |texts| + 1 && k <= |texts|
    ensures Upto(gaps, texts, k) + From(gaps, texts, k) == Weave(gaps, texts)
  {
    if k == 0 {
      assert gaps[0..] == gaps && texts[0..] == texts;
    } else {
      UptoFrom(gaps, texts, k - 1);
      FromStep(gaps, texts, k - 1);
      Associate(Upto(gaps, texts, k - 1), gaps[k - 1], texts[k - 1], From(gaps, texts, k));
    }
  }

  lemma FromStep(gaps: seq<string>, texts: seq<string>, k: nat)
    requires |gaps| == |texts| + 1 && k < |texts|
    ensures From(gaps, texts, k) == gaps[k] + (texts[k] + From(gaps, texts, k + 1))
  {
    assert gaps[k..] == [gaps[k]] + gaps[k + 1..] && texts[k..] == [texts[k]] + texts[k + 1..];
    WeaveCons(gaps[k], gaps[k + 1..], texts[k], texts[k + 1..]);
  }

  lemma Associate(a: string, b: string, c: string, d: string)
    ensures a + (b + (c + d)) == (a + b + c) + d
  {
  }

  /** Where a piece begins. */
  function Begin(gaps: seq<string>, texts: seq<string>, k: nat): nat
    requires |gaps| == |texts| + 1 && k < |texts|
  {
    |Upto(gaps, texts, k)| + |gaps[k]|
  }

  /** What the pieces and gaps before a place look like in the text. */
  lemma UptoIsPrefix(gaps: seq<string>, texts: seq<string>, k: nat)
    requires |gaps| == |texts| + 1 && k <= |texts|
    ensures var text := Weave(gaps, texts);
      && |Upto(gaps, texts, k)| <= |text| && text[..|Upto(gaps, texts, k)|] == Upto(gaps, texts, k)
      && text[|Upto(gaps, texts, k)|..] == From(gaps, texts, k)
  {
    UptoFrom(gaps, texts, k);
  }

  /** While no piece is cut, what is put out is what was there. */
  lemma {:induction false} SameSince(gaps: seq<string>, texts: seq<string>, others: seq<string>, done: nat, k: nat)
    requires |gaps| == |texts| + 1 && |others| == |texts| && done <= k <= |texts|
    requires forall j :: done <= j < k ==> others[j] == texts[j]
    ensures |Upto(gaps, texts, done)| <= |Upto(gaps, texts, k)|
    ensures Upto(gaps, others, k)
      == Upto(gaps, others, done) + Upto(gaps, texts, k)[|Upto(gaps, texts, done)|..]
    decreases k
  {
    if done < k {
      SameSince(gaps, texts, others, done, k - 1);
      var a, b, n := Upto(gaps, others, done), Upto(gaps, texts, k - 1), |Upto(gaps, texts, done)|;
      assert (b + gaps[k - 1] + texts[k - 1])[n..] == b[n..] + gaps[k - 1] + texts[k - 1];
      AssociateThree(a, b[n..], gaps[k - 1], texts[k - 1]);
    } else {
      assert Upto(gaps, texts, k)[|Upto(gaps, texts, done)|..] == "";
    }
  }

  lemma AssociateThree(a: string, b: string, c: string, d: string)
    ensures (a + b) + c + d == a + (b + c + d)
  {
  }

  /** The text so far put out, and how far into the old text that is. */
  ghost predicate Spliced(gaps: seq<string>, texts: seq<string>, others: seq<string>, done: nat, out: string, end: nat)
    requires |gaps| == |texts| + 1 && |others| == |texts|
  {
    done <= |texts| && out == Upto(gaps, others, done) && end == |Upto(gaps, texts, done)|
  }

  lemma SpliceOne(gaps: seq<string>, texts: seq<string>, others: seq<string>, done: nat, out: string, end: nat, k: nat)
    requires |gaps| == |texts| + 1 && |others| == |texts| && Spliced(gaps, texts, others, done, out, end)
    requires done <= k < |texts| && Untouched(texts, others, done, k)
    ensures var text, at := Weave(gaps, texts), Begin(gaps, texts, k);
      && end <= at <= |text|
      && Spliced(gaps, texts, others, k + 1, out + text[end..at] + others[k], at + |texts[k]|)
  {
    var text, at := Weave(gaps, texts), Begin(gaps, texts, k);
    SameSince(gaps, texts, others, done, k);
    UptoIsPrefix(gaps, texts, k + 1);
    SliceIn(text, Upto(gaps, texts, k), gaps[k], texts[k], end);
    AssociateThree(Upto(gaps, others, done), Upto(gaps, texts, k)[end..], gaps[k], others[k]);
    JoinOne(out, Upto(gaps, texts, k)[end..], gaps[k], others[k]);
  }

  lemma SliceIn(text: string, u: string, gap: string, piece: string, end: nat)
    requires end <= |u| && |u + gap + piece| <= |text| && text[..|u + gap + piece|] == u + gap + piece
    ensures text[end..|u| + |gap|] == u[end..] + gap
  {
    var v := u + gap + piece;
    var x, y := text[end..|u| + |gap|], u[end..] + gap;
    forall i | 0 <= i < |y| ensures x[i] == y[i] {
      assert x[i] == text[end + i] == v[end + i];
    }
  }

  lemma JoinOne(out: string, a: string, b: string, c: string)
    ensures out + (a + b) + c == out + a + b + c
  {
  }

  lemma SpliceRest(gaps: seq<string>, texts: seq<string>, others: seq<string>, done: nat, out: string, end: nat)
    requires |gaps| == |texts| + 1 && |others| == |texts| && Spliced(gaps, texts, others, done, out, end)
    requires Untouched(texts, others, done, |texts|)
    ensures end <= |Weave(gaps, texts)| && out + Weave(gaps, texts)[end..] == Weave(gaps, others)
  {
    var n := |texts|;
    UptoIsPrefix(gaps, texts, done);
    UptoFrom(gaps, others, done);
    assert others[done..] == texts[done..];
  }

  datatype Piece = Piece(at: nat, text: string)

  /** A piece of a text, and where it is in it. */
  predicate PieceIs(gaps: seq<string>, texts: seq<string>, p: Piece, k: nat)
    requires |gaps| == |texts| + 1
  {
    k < |texts| && p.at == Begin(gaps, texts, k) && p.text == texts[k]
  }

  ghost predicate PiecesAre(gaps: seq<string>, texts: seq<string>, pieces: seq<Piece>)
    requires |gaps| == |texts| + 1
  {
    forall k :: 0 <= k < |pieces| ==> PieceIs(gaps, texts, pieces[k], k)
  }

  /** All the pieces of a text. */
  method Pieces(text: string) returns (pieces: seq<Piece>)
    ensures |pieces| == |Lex(text).texts| && PiecesAre(Lex(text).gaps, Lex(text).texts, pieces)
  {
    var lexing := Lex(text);
    pieces := PutAt(lexing.gaps, lexing.texts);
  }

  method PutAt(gaps: seq<string>, texts: seq<string>) returns (pieces: seq<Piece>)
    requires |gaps| == |texts| + 1
    ensures |pieces| == |texts| && PiecesAre(gaps, texts, pieces)
  {
    pieces := [];
    var at := 0;
    for k := 0 to |texts|
      invariant at == |Upto(gaps, texts, k)| && |pieces| == k && PiecesAre(gaps, texts, pieces)
    {
      pieces := pieces + [Piece(at + |gaps[k]|, texts[k])];
      at := at + |gaps[k]| + |texts[k]|;
    }
  }

  /** What a text is requoted to: the same text, with its cut values quoted and nothing
      else touched. */
  function Result(text: string, takes: string -> bool): string {
    Weave(Lex(text).gaps, NewTexts(Lex(text).texts, takes))
  }

  method RequoteText(text: string, takes: string -> bool) returns (out: string)
    ensures out == Result(text, takes)
  {
    var pieces := Pieces(text);
    var found := FindValues(TextsOf(pieces));
    ghost var lexing := Lex(text);
    assert TextsOf(pieces) == lexing.texts;
    LexWeaves(text);
    out := Splice(text, pieces, found, takes, lexing.gaps, lexing.texts, NewTexts(lexing.texts, takes));
  }

  method Splice(text: string, pieces: seq<Piece>, found: seq<Found>, takes: string -> bool,
                ghost gaps: seq<string>, ghost texts: seq<string>, ghost others: seq<string>) returns (out: string)
    requires |gaps| == |texts| + 1 && others == NewTexts(texts, takes) && text == Weave(gaps, texts)
    requires |pieces| == |texts| && PiecesAre(gaps, texts, pieces) && FoundTo(texts, |texts|, found)
    ensures out == Weave(gaps, others)
  {
    out := "";
    var end: nat := 0;
    ghost var done: nat := 0;
    for i := 0 to |found|
      invariant Spliced(gaps, texts, others, done, out, end)
      invariant done <= Next(found, i) && Untouched(texts, others, done, Next(found, i))
    {
      UntouchedTo(texts, takes, found, i, done);
      if takes(found[i].field) {
        assert PieceIs(gaps, texts, pieces[found[i].piece], found[i].piece);
        out, end := SpliceValue(text, pieces[found[i].piece], out, end, gaps, texts, others, done, found[i].piece);
        done := found[i].piece + 1;
      }
    }
    UntouchedAfter(texts, takes, found, done);
    SpliceRest(gaps, texts, others, done, out, end);
    out := out + text[end..];
  }

  /** The text up to a value, and the value in quotes. */
  method SpliceValue(text: string, p: Piece, before: string, end: nat, ghost gaps: seq<string>, ghost texts: seq<string>,
                     ghost others: seq<string>, ghost done: nat, ghost k: nat) returns (out: string, next: nat)
    requires |gaps| == |texts| + 1 && |others| == |texts| && text == Weave(gaps, texts)
    requires Spliced(gaps, texts, others, done, before, end) && done <= k && PieceIs(gaps, texts, p, k)
    requires Untouched(texts, others, done, k) && others[k] == Quoted(texts[k])
    ensures Spliced(gaps, texts, others, k + 1, out, next)
  {
    SpliceOne(gaps, texts, others, done, before, end, k);
    out := before + text[end..p.at] + Quoted(p.text);
    next := p.at + |p.text|;
  }

  function TextsOf(pieces: seq<Piece>): (r: seq<string>)
    ensures |r| == |pieces| && forall k :: 0 <= k < |pieces| ==> r[k] == pieces[k].text
  {
    seq(|pieces|, k requires 0 <= k < |pieces| => pieces[k].text)
  }

  ghost predicate Untouched(texts: seq<string>, others: seq<string>, a: nat, b: nat)
    requires |others| == |texts|
  {
    b <= |texts| && forall j :: a <= j < b ==> others[j] == texts[j]
  }

  lemma UntouchedAfter(texts: seq<string>, takes: string -> bool, found: seq<Found>, done: nat)
    requires FoundTo(texts, |texts|, found) && Untouched(texts, NewTexts(texts, takes), done, Next(found, |found|))
    ensures Untouched(texts, NewTexts(texts, takes), done, |texts|)
  {
  }

  /** Between one value found and the next, nothing is cut. */
  lemma UntouchedTo(texts: seq<string>, takes: string -> bool, found: seq<Found>, i: nat, done: nat)
    requires FoundTo(texts, |texts|, found) && i < |found| && done <= Next(found, i)
    requires Untouched(texts, NewTexts(texts, takes), done, Next(found, i))
    ensures done <= found[i].piece < |texts| && Untouched(texts, NewTexts(texts, takes), done, found[i].piece)
    ensures NewTexts(texts, takes)[found[i].piece] ==
      if takes(found[i].field) then Quoted(texts[found[i].piece]) else texts[found[i].piece]
    ensures !takes(found[i].field) ==> Untouched(texts, NewTexts(texts, takes), done, found[i].piece + 1)
  {
    assert IsNext(texts, found, i);
    assert NoneBetween(texts, Next(found, i), found[i].piece);
  }

  // -------------------------------------------------------------- properties --

  lemma {:induction false} PiecesBegin(s: string)
    ensures forall k :: 0 <= k < |Lex(s).texts| ==> Lex(s).texts[k] != "" && !IsSpace(Lex(s).texts[k][0])
    decreases |s|
  {
    if s != "" {
      PiecesBegin(if Match(s) == 0 then s[1..] else s[Match(s)..]);
    }
  }

  lemma CutsAreBare(s: string, takes: string -> bool)
    ensures Requoted(Lex(s).texts, NewTexts(Lex(s).texts, takes))
  {
    PiecesBegin(s);
  }

  /** For a text with nothing but white space between its pieces, the result comes apart
      into the same pieces, those that were cut now quoted. */
  lemma RequotedPieces(text: string, takes: string -> bool)
    requires SpaceBetween(Lex(text).gaps)
    ensures Lex(Result(text, takes)) == Lexing(Lex(text).gaps, NewTexts(Lex(text).texts, takes))
  {
    CutsAreBare(text, takes);
    Relex(text, NewTexts(Lex(text).texts, takes));
  }

  lemma QuotedIsNoValue(t: string)
    ensures !Compares(Quoted(t)) && !BareText(Quoted(t))
  {
    assert Quoted(t)[0] == '\"' && Lowered(Quoted(t))[0] == '\"';
    assert forall c :: c in Comparisons ==> c[0] != '\"';
  }

  /** Once values are quoted, the scan finds no field it did not find before. */
  lemma {:induction false} ScanAgain(texts: seq<string>, takes: string -> bool, k: nat)
    requires k <= |texts|
    ensures var s, z := ScanTo(texts, k), ScanTo(NewTexts(texts, takes), k); z.field == "" || z == s
  {
    if k > 0 {
      ScanAgain(texts, takes, k - 1);
      var others := NewTexts(texts, takes);
      if Cut(texts, takes, k - 1) {
        QuotedIsNoValue(texts[k - 1]);
      }
      if k > 1 && Cut(texts, takes, k - 2) {
        QuotedIsNoValue(texts[k - 2]);
      }
    }
  }

  lemma FieldAgain(texts: seq<string>, takes: string -> bool, k: nat)
    requires k < |texts|
    ensures !Cut(NewTexts(texts, takes), takes, k)
  {
    ScanAgain(texts, takes, k);
    if Cut(texts, takes, k) {
      QuotedIsNoValue(texts[k]);
    }
  }

  lemma NothingMoreToCut(texts: seq<string>, takes: string -> bool)
    ensures NewTexts(NewTexts(texts, takes), takes) == NewTexts(texts, takes)
  {
    var others := NewTexts(texts, takes);
    forall k | 0 <= k < |texts| ensures NewTexts(others, takes)[k] == others[k] {
      FieldAgain(texts, takes, k);
    }
  }

  /** And requoting what was requoted changes nothing more. */
  lemma RequotedOnce(text: string, takes: string -> bool)
    requires SpaceBetween(Lex(text).gaps)
    ensures Result(Result(text, takes), takes) == Result(text, takes)
  {
    RequotedPieces(text, takes);
    NothingMoreToCut(Lex(text).texts, takes);
  }
}
