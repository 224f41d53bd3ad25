/** Requoting a filter a second time (src/web/app.js), stray quotes or not. */
module RequoteTwice {
  import opened Basics
  import opened Options
  import opened FilterLexer
  import opened Requote
  import opened RequoteStrays

  // ---------------------------------------------------- scanning from a place --

  predicate CutNow(s: Scan, t: string, takes: string -> bool) {
    var field := if Compares(t) || (s.many && (t == "{" || t == ",")) || !BareText(t) then "" else s.field;
    field != "" && takes(field)
  }

  /** The pieces from a place on, with the values of string fields quoted. */
  function NewFrom(texts: seq<string>, s: Scan, left: string, takes: string -> bool): (r: seq<string>)
    ensures |r| == |texts|
  {
    if texts == [] then []
    else
      [if CutNow(s, texts[0], takes) then Quoted(texts[0]) else texts[0]]
      + NewFrom(texts[1..], ScanStep(s, left, texts[0]), texts[0], takes)
  }

  function LeftOf(texts: seq<string>, k: nat): string
    requires k <= |texts|
  {
    if k > 0 then texts[k - 1] else ""
  }

  /** The pieces with their values quoted, each by what the scan knows before it. */
  ghost predicate IsNew(texts: seq<string>, all: seq<string>, takes: string -> bool) {
    |all| == |texts| && forall k :: 0 <= k < |texts| ==>
      all[k] == if CutNow(ScanTo(texts, k), texts[k], takes) then Quoted(texts[k]) else texts[k]
  }

  lemma {:induction false} NewFromIs(texts: seq<string>, all: seq<string>, k: nat, takes: string -> bool)
    requires IsNew(texts, all, takes) && k <= |texts|
    ensures NewFrom(texts[k..], ScanTo(texts, k), LeftOf(texts, k), takes) == all[k..]
    decreases |texts| - k
  {
    if k < |texts| {
      NewFromIs(texts, all, k + 1, takes);
      SplitAt(texts, k);
      SplitAt(all, k);
      NewFromCons(texts[k], texts[k + 1..], ScanTo(texts, k), LeftOf(texts, k), takes);
    }
  }

  lemma NewFromCons(t: string, rest: seq<string>, s: Scan, left: string, takes: string -> bool)
    ensures NewFrom([t] + rest, s, left, takes)
      == [if CutNow(s, t, takes) then Quoted(t) else t] + NewFrom(rest, ScanStep(s, left, t), t, takes)
  {
    assert ([t] + rest)[1..] == rest;
  }

  lemma NewFromStart(texts: seq<string>, takes: string -> bool)
    ensures NewFrom(texts, Scan("", false), "", takes) == NewTexts(texts, takes)
  {
    var all := NewTexts(texts, takes);
    NewTextsAre(texts, takes);
    NewFromIs(texts, all, 0, takes);
    assert texts[0..] == texts && all[0..] == all;
  }

  lemma NewTextsAre(texts: seq<string>, takes: string -> bool)
    ensures IsNew(texts, NewTexts(texts, takes), takes)
  {
  }

  predicate NoCuts(texts: seq<string>, s: Scan, left: string, takes: string -> bool) {
    NewFrom(texts, s, left, takes) == texts
  }

  lemma NoCutsCons(t: string, texts: seq<string>, s: Scan, left: string, takes: string -> bool)
    requires !CutNow(s, t, takes) && NoCuts(texts, ScanStep(s, left, t), t, takes)
    ensures NoCuts([t] + texts, s, left, takes)
  {
    assert ([t] + texts)[1..] == texts;
  }

  /** A field whose values are left alone. */
  predicate Idle(field: string, takes: string -> bool) {
    field == "" || !takes(field)
  }

  /** A scan of the result beside a scan of the text: a field it may cut values of, now or
      after a comparison, is one that the other may. */
  predicate Beside(z: Scan, left: string, o: Scan, was: string, takes: string -> bool) {
    && (Idle(z.field, takes) || (!Idle(o.field, takes) && z.many == o.many))
    && (!BareText(left) || Idle(left, takes) || (BareText(was) && !Idle(was, takes)))
  }

  lemma BesideStep(z: Scan, left: string, o: Scan, was: string, t: string, takes: string -> bool)
    requires Beside(z, left, o, was, takes)
    ensures Beside(ScanStep(z, left, t), t, ScanStep(o, was, t), t, takes)
    ensures !CutNow(o, t, takes) ==> !CutNow(z, t, takes)
  {
  }

  /** After a quoted piece there is no field. */
  lemma AfterQuoted(z: Scan, left: string, p: string, takes: string -> bool)
    requires p != "" && Opens(p[0])
    ensures !CutNow(z, p, takes) && ScanStep(z, left, p).field == "" && !BareText(p)
  {
    assert Lowered(p)[0] == p[0];
    assert forall c :: c in Comparisons ==> !Opens(c[0]);
  }

  // ------------------------------------------------- the result from a place --

  /** What a text from a place on is requoted to, the scan having come to it in a state. */
  function Woven(s: string, o: Scan, left: string, takes: string -> bool): string {
    Weave(Lex(s).gaps, NewFrom(Lex(s).texts, o, left, takes))
  }

  lemma WovenGap(s: string, o: Scan, left: string, takes: string -> bool)
    requires s != "" && Match(s) == 0
    ensures Woven(s, o, left, takes) == [s[0]] + Woven(s[1..], o, left, takes)
  {
    var rest := Lex(s[1..]);
    assert s == [s[0]] + s[1..] && [rest.gaps[0]] + rest.gaps[1..] == rest.gaps;
    LexSkip(s[0], s[1..], s);
    WeaveLonger(s[0], rest.gaps[0], rest.gaps[1..], NewFrom(rest.texts, o, left, takes));
  }

  function Put(o: Scan, p: string, takes: string -> bool): string {
    if CutNow(o, p, takes) then Quoted(p) else p
  }

  lemma WovenPiece(s: string, o: Scan, left: string, takes: string -> bool)
    requires s != "" && Match(s) > 0
    ensures var p, rest := s[..Match(s)], s[Match(s)..];
      Woven(s, o, left, takes) == Put(o, p, takes) + Woven(rest, ScanStep(o, left, p), p, takes)
  {
    var p, rest := s[..Match(s)], s[Match(s)..];
    assert p + rest == s;
    LexPiece(p, rest, s);
    var texts := Lex(rest).texts;
    assert ([p] + texts)[1..] == texts;
    var more := NewFrom(texts, ScanStep(o, left, p), p, takes);
    assert NewFrom([p] + texts, o, left, takes) == [Put(o, p, takes)] + more;
    WeaveCons("", Lex(rest).gaps, Put(o, p, takes), more);
  }

  /** A piece that is cut is bare throughout. */
  lemma CutPiece(s: string, o: Scan, takes: string -> bool)
    requires s != "" && Match(s) > 0 && CutNow(o, s[..Match(s)], takes)
    ensures AllBare(s[..Match(s)]) && !Compares(s[..Match(s)]) && IsBare(s[0])
  {
    assert s[..Match(s)][0] == s[0];
    SpaceBegins(s);
    PieceEnds(s, Match(s));
  }

  lemma SpaceBegins(s: string)
    ensures s != "" && IsSpace(s[0]) ==> Match(s) == 0
  {
  }

  lemma WovenFollows(s: string, o: Scan, left: string, takes: string -> bool)
    ensures Follows(s, Woven(s, o, left, takes))
  {
    if s != "" {
      if Match(s) == 0 {
        WovenGap(s, o, left, takes);
      } else {
        WovenPiece(s, o, left, takes);
        if CutNow(o, s[..Match(s)], takes) {
          CutPiece(s, o, takes);
        }
      }
    }
  }

  // --------------------------------------------------- behind a stray quote --

  /** What comes after the quote that closes one left open before a text. */
  function After(s: string, quote: char): (r: Option<string>)
    ensures r.Some? <==> Closes(s, quote)
  {
    if s == "" then None
    else if s[0] == quote then Some(s[1..])
    else if s[0] != Backslash then After(s[1..], quote)
    else if |s| > 1 && !IsLineEnd(s[1]) then After(s[2..], quote)
    else None
  }

  lemma {:induction false} EndsBefore(s: string, i: nat, quote: char)
    requires i <= |s| && QuotedEnd(s, i, quote).Some?
    ensures After(s[i..], quote) == Some(s[QuotedEnd(s, i, quote).value..])
    decreases |s| - i
  {
    var rest := s[i..];
    if s[i] == quote {
      assert rest[1..] == s[i + 1..];
    } else if s[i] == Backslash {
      assert rest[2..] == s[i + 2..];
      EndsBefore(s, i + 2, quote);
    } else {
      assert rest[1..] == s[i + 1..];
      EndsBefore(s, i + 1, quote);
    }
  }

  /** A quote that is closed, as a piece. */
  lemma ClosedPiece(c: char, w: string) returns (p: string)
    requires Opens(c) && Closes(w, c)
    ensures p != "" && p[0] == c && Lex([c] + w).texts == [p] + Lex(After(w, c).value).texts
  {
    var s := [c] + w;
    assert s[1..] == w;
    QuotedEndCloses(s, 1, c);
    EndsBefore(s, 1, c);
    p := s[..Match(s)];
    Rejoined(s, Match(s));
    LexPiece(p, s[Match(s)..], s);
  }

  lemma Rejoined(s: string, n: nat)
    requires n <= |s|
    ensures s[..n] + s[n..] == s
  {
  }

  /** The backslash a text ends in, where it takes the character after it along. */
  function Held(s: string): (h: string)
    ensures h == "" || (h == "\\" && s != "" && s[|s| - 1] == Backslash)
  {
    if s == "" then ""
    else if s[0] != Backslash then Held(s[1..])
    else if |s| == 1 then s
    else Held(s[2..])
  }

  lemma First(p: string, a: string)
    requires p != ""
    ensures (p + a)[0] == p[0] && (p + a)[1..] == p[1..] + a
    ensures |p| > 1 ==> (p + a)[1] == p[1] && (p + a)[2..] == p[2..] + a
  {
  }

  /** Past a part that closes nothing, only a backslash it ends in matters. */
  lemma {:induction false} Through(p: string, a: string, b: string, quote: char)
    requires Opens(quote) && !Closes(p + a, quote) && Closes(p + b, quote)
    ensures !Closes(Held(p) + a, quote) && Closes(Held(p) + b, quote)
    ensures After(p + b, quote) == After(Held(p) + b, quote)
  {
    if p != "" {
      First(p, a);
      First(p, b);
      if p[0] != Backslash {
        Through(p[1..], a, b, quote);
      } else if |p| > 1 {
        Through(p[2..], a, b, quote);
      }
    } else {
      assert p + a == a && p + b == b;
    }
  }

  /** The same of a bare value, whatever comes after it. */
  lemma {:induction false} BareThrough(t: string, a: string, quote: char)
    requires Opens(quote) && AllBare(t) && !Closes(t + a, quote)
    ensures !Closes(Held(t) + a, quote)
  {
    if t != "" {
      First(t, a);
      if t[0] != Backslash {
        BareThrough(t[1..], a, quote);
      } else if |t| > 1 {
        BareThrough(t[2..], a, quote);
      }
    } else {
      assert t + a == a;
    }
  }

  lemma {:induction false} EscapedThrough(t: string, rest: string, quote: char)
    requires AllBare(t) && Opens(quote)
    ensures After(Escaped(t) + rest, quote) == After(rest, quote)
  {
    if t == "" {
      assert Escaped(t) + rest == rest;
    } else {
      EscapedThrough(t[1..], rest, quote);
      EscapedFirst(t, rest);
      var more := Escaped(t[1..]) + rest;
      if t[0] == Backslash {
        First([t[0], t[0]], more);
      } else {
        First([t[0]], more);
      }
    }
  }

  /** A quoted value closes a double quote and no other. */
  lemma QuotedThrough(t: string, rest: string, quote: char)
    requires AllBare(t) && Opens(quote)
    ensures After(Quoted(t) + rest, quote)
      == if quote == '\"' then Some(Escaped(t) + ("\"" + rest)) else After(rest, quote)
  {
    var tail := "\"" + rest;
    assert Quoted(t) + rest == "\"" + (Escaped(t) + tail);
    First("\"", Escaped(t) + tail);
    EscapedThrough(t, tail, quote);
    First("\"", rest);
  }

  lemma {:induction false} EscapedBare(t: string)
    requires AllBare(t)
    ensures AllBare(Escaped(t)) && |Escaped(t)| >= |t|
    ensures if Backslash in t then Backslash in Escaped(t) else Escaped(t) == t
  {
    if t != "" {
      EscapedBare(t[1..]);
      assert t == [t[0]] + t[1..];
    }
  }

  lemma BareMatches(t: string, rest: string)
    requires t != "" && AllBare(t) && rest != "" && !IsBare(rest[0])
    ensures Match(t + rest) == |t|
  {
    assert (t + rest)[0] == t[0];
    BareRuns(t, rest, 0);
    NoPair(t, "", rest);
  }

  lemma {:induction false} BareRuns(t: string, rest: string, i: nat)
    requires AllBare(t) && i <= |t| && rest != "" && !IsBare(rest[0])
    ensures BareEnd(t + rest, i) == |t|
    decreases |t| - i
  {
    if i < |t| {
      assert (t + rest)[i] == t[i];
      BareRuns(t, rest, i + 1);
    } else {
      assert (t + rest)[i] == rest[0];
    }
  }

  /** A value that comes bare out of a quoted piece is not cut, and is no field either. */
  lemma EscapedAlone(t: string, z: Scan, left: string, o: Scan, takes: string -> bool)
    requires t != "" && AllBare(t) && !Compares(t) && Idle(z.field, takes) && !BareText(left)
    requires takes(Escaped(t)) ==> takes(t)
    ensures Escaped(t) != "" && AllBare(Escaped(t)) && !CutNow(z, Escaped(t), takes)
    ensures Beside(ScanStep(z, left, Escaped(t)), Escaped(t), o, t, takes)
  {
    EscapedBare(t);
    if Backslash in t {
      ComparesPlain(Escaped(t));
    }
  }

  lemma ComparesPlain(t: string)
    requires Backslash in t
    ensures !Compares(t)
  {
    var i :| 0 <= i < |t| && t[i] == Backslash;
    assert Lowered(t)[i] == Backslash;
    assert forall c :: c in Comparisons ==> Backslash !in c;
  }

  // ------------------------------------------------------- when nothing changes --

  lemma {:induction false} WeaveGrows(gaps: seq<string>, texts: seq<string>, others: seq<string>)
    requires |gaps| == |texts| + 1 && |others| == |texts|
    requires forall k :: 0 <= k < |texts| ==> others[k] == texts[k] || |others[k]| > |texts[k]|
    ensures |Weave(gaps, others)| >= |Weave(gaps, texts)|
    ensures Weave(gaps, others) == Weave(gaps, texts) ==> others == texts
  {
    if texts != [] {
      WeaveGrows(gaps[1..], texts[1..], others[1..]);
      assert texts == [texts[0]] + texts[1..] && others == [others[0]] + others[1..];
      SameFirst(gaps[0], texts[0], others[0], Weave(gaps[1..], texts[1..]), Weave(gaps[1..], others[1..]));
    }
  }

  lemma SameFirst(gap: string, t: string, u: string, a: string, b: string)
    requires (u == t || |u| > |t|) && |b| >= |a|
    ensures gap + (u + b) == gap + (t + a) ==> u == t && b == a
  {
    if gap + (u + b) == gap + (t + a) {
      assert |u| == |t|;
      assert (gap + (u + b))[|gap| + |t|..] == b && (gap + (t + a))[|gap| + |t|..] == a;
    }
  }

  /** A text is requoted to itself exactly if no field that takes a string is compared
      against a bare value. */
  lemma Unchanged(text: string, takes: string -> bool)
    ensures Result(text, takes) == text <==> forall k :: 0 <= k < |Lex(text).texts| ==> !Cut(Lex(text).texts, takes, k)
  {
    var gaps, texts, others := Lex(text).gaps, Lex(text).texts, NewTexts(Lex(text).texts, takes);
    forall t: string ensures |Quoted(t)| >= |t| + 2 {
      EscapedIsLonger(t);
    }
    WeaveGrows(gaps, texts, others);
    LexWeaves(text);
    if forall k :: 0 <= k < |texts| ==> !Cut(texts, takes, k) {
      assert others == texts;
    } else {
      var k :| 0 <= k < |texts| && Cut(texts, takes, k);
      assert |others[k]| > |texts[k]|;
    }
  }

  lemma {:induction false} EscapedIsLonger(t: string)
    ensures |Escaped(t)| >= |t|
  {
    if t != "" {
      EscapedIsLonger(t[1..]);
    }
  }

  // ------------------------------------------------------ requoting twice --

  /** A value that is cut, and what comes after it: a backslash at its end takes no line end
      along, and doubling its backslashes makes no field of it. */
  predicate Harmless(t: string, rest: string, takes: string -> bool) {
    (Held(t) != "" && rest != "" ==> !IsLineEnd(rest[0])) && (takes(Escaped(t)) ==> takes(t))
  }

  /** Every value that is cut behind a quote left open is harmless. */
  predicate Sound(s: string, o: Scan, left: string, open: bool, takes: string -> bool)
    decreases |s|
  {
    if s == "" then true
    else if Match(s) == 0 then Sound(s[1..], o, left, open || Opens(s[0]), takes)
    else
      var p, rest := s[..Match(s)], s[Match(s)..];
      (open && CutNow(o, p, takes) ==> Harmless(p, rest, takes)) && Sound(rest, ScanStep(o, left, p), p, open, takes)
  }

  /** A quote left open goes past the backslash before a text, if there is one. */
  predicate Pending(h: string, s: string) {
    h == "" || (h == "\\" && (s == "" || !IsBare(s[0])))
  }

  predicate NoLineEnd(h: string, s: string) {
    h != "" && s != "" ==> !IsLineEnd(s[0])
  }

  /** Where a quote that a backslash hid is closed after all, it is so at once. */
  lemma HiddenQuote(h: string, s: string, quote: char) returns (rest: string)
    requires Opens(quote) && Pending(h, s) && NoLineEnd(h, s) && !Closes(h + s, quote) && Closes(s, quote)
    ensures s == [quote] + rest && !Closes(rest, quote) && Match(s) == 0
  {
    rest := s[1..];
    assert s == [s[0]] + rest;
    NothingBefore(h, s);
    if h != "" {
      ClosesCons(s[0], rest, quote);
      AfterBackslash(s[0], rest, quote);
      MatchCloses(quote, rest);
    }
  }

  lemma WovenEmpty(o: Scan, left: string, takes: string -> bool)
    ensures Woven("", o, left, takes) == ""
  {
    assert Lex("") == Lexing([""], []);
  }

  /** With a quote left open at a place of the text, and closed in what the text is requoted
      to: after it nothing is cut, for it takes the field along, and every later piece is as
      it was, or bare behind another quoted piece. */
  lemma {:induction false} Inside(c: char, h: string, s: string, o: Scan, was: string,
                                  z: Scan, left: string, takes: string -> bool)
    requires Opens(c) && Pending(h, s) && !Closes(h + s, c) && Closes(h + Woven(s, o, was, takes), c)
    requires Sound(s, o, was, true, takes) && Idle(z.field, takes) && !BareText(left)
    ensures NoCuts(Lex(After(h + Woven(s, o, was, takes), c).value).texts, z, left, takes)
    decreases |s|, 2
  {
    var n := Match(s);
    if s == "" {
      WovenEmpty(o, was, takes);
    } else if n == 0 {
      var w := Woven(s[1..], o, was, takes);
      WovenGap(s, o, was, takes);
      HeldGap(h, s, w, c);
      Inside(c, "", s[1..], o, was, z, left, takes);
    } else {
      Rejoined(s, n);
      InsidePiece(c, h, s, s[..n], s[n..], o, was, z, left, takes);
    }
  }

  lemma InsidePiece(c: char, h: string, s: string, p: string, rest: string, o: Scan, was: string,
                    z: Scan, left: string, takes: string -> bool)
    requires s != "" && Match(s) > 0 && p == s[..Match(s)] && rest == s[Match(s)..] && s == p + rest
    requires Opens(c) && Pending(h, s) && !Closes(h + s, c) && Closes(h + Woven(s, o, was, takes), c)
    requires Sound(s, o, was, true, takes) && Idle(z.field, takes) && !BareText(left)
    ensures NoCuts(Lex(After(h + Woven(s, o, was, takes), c).value).texts, z, left, takes)
    decreases |s|, 1
  {
    WovenPiece(s, o, was, takes);
    if CutNow(o, p, takes) {
      CutPiece(s, o, takes);
      NothingBefore(h, s);
      NothingBefore(h, Woven(s, o, was, takes));
      InsideCut(c, p, rest, ScanStep(o, was, p), z, left, takes);
    } else {
      HeldPiece(h, s, p, rest, Woven(rest, ScanStep(o, was, p), p, takes), c);
      Inside(c, Held(h + p), rest, ScanStep(o, was, p), p, z, left, takes);
    }
  }

  lemma NothingBefore(h: string, s: string)
    ensures h == "" ==> h + s == s
  {
  }

  lemma HeldGap(h: string, s: string, w: string, c: char)
    requires s != "" && Match(s) == 0 && Opens(c) && Pending(h, s)
    requires !Closes(h + s, c) && Closes(h + ([s[0]] + w), c)
    ensures !Closes("" + s[1..], c) && Closes("" + w, c)
    ensures After(h + ([s[0]] + w), c) == After("" + w, c)
  {
    var p := h + [s[0]];
    assert s == [s[0]] + s[1..];
    GapIsNotBare(s[0], s[1..]);
    assert h + s == p + s[1..] && h + ([s[0]] + w) == p + w;
    assert Held(p) == "";
    Through(p, s[1..], w, c);
    assert "" + s[1..] == s[1..];
  }

  lemma HeldPiece(h: string, s: string, p: string, rest: string, w: string, c: char)
    requires s != "" && Match(s) > 0 && p == s[..Match(s)] && rest == s[Match(s)..] && s == p + rest && Opens(c)
    requires !Closes(h + s, c) && Closes(h + (p + w), c)
    ensures Pending(Held(h + p), rest) && !Closes(Held(h + p) + rest, c) && Closes(Held(h + p) + w, c)
    ensures After(h + (p + w), c) == After(Held(h + p) + w, c)
  {
    assert h + s == (h + p) + rest && h + (p + w) == (h + p) + w;
    Through(h + p, rest, w, c);
    assert (h + p)[|h + p| - 1] == p[|p| - 1] == s[Match(s) - 1];
    PieceEnds(s, Match(s));
    assert rest != "" ==> rest[0] == s[Match(s)];
  }

  /** A value that is cut: its first quote closes a double one, and it comes out bare; to
      another it is as if it were not there, but that a backslash hides nothing now. */
  lemma InsideCut(c: char, p: string, rest: string, o: Scan, z: Scan, left: string, takes: string -> bool)
    requires Opens(c) && p != "" && AllBare(p) && !Compares(p) && (rest == "" || !IsBare(rest[0]))
    requires !Closes(p + rest, c) && Closes(Quoted(p) + Woven(rest, o, p, takes), c)
    requires Harmless(p, rest, takes) && Sound(rest, o, p, true, takes) && Idle(z.field, takes) && !BareText(left)
    ensures NoCuts(Lex(After(Quoted(p) + Woven(rest, o, p, takes), c).value).texts, z, left, takes)
    decreases |p| + |rest|, 0
  {
    var w, h := Woven(rest, o, p, takes), Held(p);
    BareThrough(p, rest, c);
    QuotedThrough(p, w, c);
    if c == '\"' {
      var r := "\"" + w;
      EscapedAlone(p, z, left, o, takes);
      BareMatches(Escaped(p), r);
      LexPiece(Escaped(p), r, Escaped(p) + r);
      Opened(c, h, rest, o, p, ScanStep(z, left, Escaped(p)), Escaped(p), takes);
      NoCutsCons(Escaped(p), Lex(r).texts, z, left, takes);
    } else {
      Reached(c, h, rest, o, p, z, left, takes);
    }
  }

  lemma Reached(c: char, h: string, s: string, o: Scan, was: string, z: Scan, left: string, takes: string -> bool)
    requires Opens(c) && Pending(h, s) && NoLineEnd(h, s) && !Closes(h + s, c) && Closes(Woven(s, o, was, takes), c)
    requires Sound(s, o, was, true, takes) && Idle(z.field, takes) && !BareText(left)
    ensures NoCuts(Lex(After(Woven(s, o, was, takes), c).value).texts, z, left, takes)
    decreases |s|, 3
  {
    var w := Woven(s, o, was, takes);
    if Closes(s, c) {
      var rest := HiddenQuote(h, s, c);
      assert s[1..] == rest;
      WovenGap(s, o, was, takes);
      First([c], Woven(rest, o, was, takes));
      Outside(rest, o, was, true, z, left, takes);
    } else {
      assert "" + s == s && "" + w == w;
      Inside(c, "", s, o, was, z, left, takes);
    }
  }

  /** A quote left open at a place of the text, or hidden there by a backslash. */
  lemma Opened(c: char, h: string, s: string, o: Scan, was: string, z: Scan, left: string, takes: string -> bool)
    requires Opens(c) && Pending(h, s) && NoLineEnd(h, s) && !Closes(h + s, c)
    requires Sound(s, o, was, true, takes) && Beside(z, left, o, was, takes)
    ensures NoCuts(Lex([c] + Woven(s, o, was, takes)).texts, z, left, takes)
    decreases |s|, 4
  {
    var w := Woven(s, o, was, takes);
    if Closes(w, c) {
      var p := ClosedPiece(c, w);
      AfterQuoted(z, left, p, takes);
      Reached(c, h, s, o, was, ScanStep(z, left, p), p, takes);
      NoCutsCons(p, Lex(After(w, c).value).texts, z, left, takes);
    } else {
      MatchCloses(c, w);
      LexSkip(c, w, [c] + w);
      Outside(s, o, was, true, z, left, takes);
    }
  }

  /** Anywhere else the result comes apart as the text did. */
  lemma {:induction false} Outside(s: string, o: Scan, was: string, open: bool, z: Scan, left: string,
                                   takes: string -> bool)
    requires Sound(s, o, was, open, takes) && Beside(z, left, o, was, takes)
    ensures NoCuts(Lex(Woven(s, o, was, takes)).texts, z, left, takes)
    decreases |s|, 2
  {
    var n := Match(s);
    if s == "" {
      WovenEmpty(o, was, takes);
    } else if n == 0 {
      var c, rest, w := s[0], s[1..], Woven(s[1..], o, was, takes);
      assert s == [c] + rest;
      WovenGap(s, o, was, takes);
      if Opens(c) {
        MatchCloses(c, rest);
        assert "" + rest == rest;
        Opened(c, "", rest, o, was, z, left, takes);
      } else {
        WovenFollows(rest, o, was, takes);
        GapKeeps(c, rest, w);
        LexSkip(c, w, [c] + w);
        Outside(rest, o, was, open, z, left, takes);
      }
    } else {
      OutsidePiece(s, o, was, open, z, left, takes);
    }
  }

  lemma OutsidePiece(s: string, o: Scan, was: string, open: bool, z: Scan, left: string, takes: string -> bool)
    requires s != "" && Match(s) > 0 && Sound(s, o, was, open, takes) && Beside(z, left, o, was, takes)
    ensures NoCuts(Lex(Woven(s, o, was, takes)).texts, z, left, takes)
    decreases |s|, 1
  {
    var p, rest := s[..Match(s)], s[Match(s)..];
    var q, w := Put(o, p, takes), Woven(rest, ScanStep(o, was, p), p, takes);
    WovenPiece(s, o, was, takes);
    WovenFollows(rest, ScanStep(o, was, p), p, takes);
    Rejoined(s, Match(s));
    PieceKeeps(p, rest, w, q);
    LexPiece(q, w, q + w);
    if CutNow(o, p, takes) {
      AfterQuoted(z, left, q, takes);
    } else {
      BesideStep(z, left, o, was, p, takes);
    }
    Outside(rest, ScanStep(o, was, p), p, open, ScanStep(z, left, q), q, takes);
    NoCutsCons(q, Lex(w).texts, z, left, takes);
  }

  lemma SoundTwice(text: string, takes: string -> bool)
    requires Sound(text, Scan("", false), "", false, takes)
    ensures Result(Result(text, takes), takes) == Result(text, takes)
  {
    var start, out := Scan("", false), Result(text, takes);
    NewFromStart(Lex(text).texts, takes);
    Outside(text, start, "", false, start, "", takes);
    NewFromStart(Lex(out).texts, takes);
    LexWeaves(out);
  }

  // ---------------------------------------------- which texts those are --

  predicate HasQuote(gap: string) {
    exists i :: 0 <= i < |gap| && Opens(gap[i])
  }

  /** A value that is cut, with a quote left open somewhere before it, that is not harmless. */
  predicate Spoils(text: string, takes: string -> bool, j: int, k: int) {
    var gaps, texts := Lex(text).gaps, Lex(text).texts;
    && 0 <= j <= k < |texts| && HasQuote(gaps[j])
    && Cut(texts, takes, k) && !Harmless(texts[k], gaps[k + 1], takes)
  }

  /** Requoting a second time changes nothing, whatever quotes are left open, unless behind
      one of them a value is cut whose last backslash would take the end of its line along
      (or that is a field of strings only with its backslashes doubled). */
  lemma RequotedTwice(text: string, takes: string -> bool)
    requires forall j, k :: !Spoils(text, takes, j, k)
    ensures Result(Result(text, takes), takes) == Result(text, takes)
  {
    var gaps, texts := Lex(text).gaps, Lex(text).texts;
    NoneSpoils(text, takes, 0, false);
    assert gaps[0..] == gaps && texts[0..] == texts;
    SoundAsListed(text, Scan("", false), "", false, takes);
    SoundTwice(text, takes);
  }

  /** The same of pieces and gaps. */
  predicate SoundList(gaps: seq<string>, texts: seq<string>, o: Scan, left: string, open: bool, takes: string -> bool)
    requires |gaps| == |texts| + 1
  {
    texts == []
    || (var behind := open || HasQuote(gaps[0]);
        && (behind && CutNow(o, texts[0], takes) ==> Harmless(texts[0], gaps[1], takes))
        && SoundList(gaps[1..], texts[1..], ScanStep(o, left, texts[0]), texts[0], behind, takes))
  }

  lemma {:induction false} NoneSpoils(text: string, takes: string -> bool, k: nat, open: bool)
    requires k <= |Lex(text).texts| && forall j, k :: !Spoils(text, takes, j, k)
    requires open ==> exists j :: 0 <= j < k && HasQuote(Lex(text).gaps[j])
    ensures var gaps, texts := Lex(text).gaps, Lex(text).texts;
      SoundList(gaps[k..], texts[k..], ScanTo(texts, k), LeftOf(texts, k), open, takes)
    decreases |Lex(text).texts| - k
  {
    var gaps, texts := Lex(text).gaps, Lex(text).texts;
    if k < |texts| {
      var behind := open || HasQuote(gaps[k]);
      NoneSpoils(text, takes, k + 1, behind);
      SplitAt(gaps, k);
      SplitAt(texts, k);
      if behind && CutNow(ScanTo(texts, k), texts[k], takes) && !Harmless(texts[k], gaps[k + 1], takes) {
        var j :| 0 <= j <= k && HasQuote(gaps[j]);
        assert Spoils(text, takes, j, k);
      }
    }
  }

  lemma {:induction false} SoundAsListed(s: string, o: Scan, left: string, open: bool, takes: string -> bool)
    requires SoundList(Lex(s).gaps, Lex(s).texts, o, left, open, takes)
    ensures Sound(s, o, left, open, takes)
    decreases |s|
  {
    if s != "" {
      var n := Match(s);
      Rejoined(s, n);
      if n == 0 {
        assert s == [s[0]] + s[1..];
        LexSkip(s[0], s[1..], s);
        GapListed(s[0], Lex(s[1..]).gaps, Lex(s).gaps, Lex(s).texts, o, left, open, takes);
        SoundAsListed(s[1..], o, left, open || Opens(s[0]), takes);
      } else {
        var p, rest := s[..n], s[n..];
        LexPiece(p, rest, s);
        assert Lex(s).gaps[1..] == Lex(rest).gaps && Lex(s).texts[1..] == Lex(rest).texts;
        LexStarts(rest);
        SoundAsListed(rest, ScanStep(o, left, p), p, open, takes);
      }
    }
  }

  lemma GapListed(c: char, rest: seq<string>, gaps: seq<string>, texts: seq<string>, o: Scan, left: string,
                  open: bool, takes: string -> bool)
    requires |gaps| == |rest| == |texts| + 1 && gaps == [[c] + rest[0]] + rest[1..]
    requires SoundList(gaps, texts, o, left, open, takes)
    ensures SoundList(rest, texts, o, left, open || Opens(c), takes)
  {
    assert gaps[1..] == rest[1..] && gaps[0] == [c] + rest[0];
    assert HasQuote(gaps[0]) <==> Opens(c) || HasQuote(rest[0]) by {
      assert gaps[0][0] == c && forall i :: 0 <= i < |rest[0]| ==> gaps[0][i + 1] == rest[0][i];
    }
  }

  /** What a text begins with, as far as a line end goes, is what its first gap does. */
  lemma LexStarts(s: string)
    ensures s != "" && IsLineEnd(s[0]) ==> Lex(s).gaps[0] != "" && Lex(s).gaps[0][0] == s[0]
  {
    SpaceBegins(s);
    if s != "" && IsLineEnd(s[0]) {
      assert s == [s[0]] + s[1..];
      LexSkip(s[0], s[1..], s);
    }
  }

  /** No field that takes a string has a backslash in its name. */
  ghost predicate PlainNames(takes: string -> bool) {
    forall f :: takes(f) ==> Backslash !in f
  }

  /** No backslash stands at the end of a line. */
  predicate OneLine(s: string) {
    forall i :: 0 <= i < |s| - 1 && s[i] == Backslash ==> !IsLineEnd(s[i + 1])
  }

  ghost predicate Plain(s: string, takes: string -> bool) {
    OneLine(s) && (Backslash in s ==> PlainNames(takes))
  }

  lemma PlainRest(a: string, b: string, takes: string -> bool)
    requires Plain(a + b, takes)
    ensures Plain(b, takes) && (Backslash in a ==> PlainNames(takes))
    ensures a != "" && a[|a| - 1] == Backslash && b != "" ==> !IsLineEnd(b[0])
  {
    forall i | 0 <= i < |b| - 1 && b[i] == Backslash ensures !IsLineEnd(b[i + 1]) {
      assert (a + b)[|a| + i] == b[i] && (a + b)[|a| + i + 1] == b[i + 1];
    }
    if a != "" && b != "" {
      assert (a + b)[|a| - 1] == a[|a| - 1] && (a + b)[|a|] == b[0];
    }
  }

  /** In particular it changes nothing in a text with no backslash at the end of a line, such
      as a text of one line. */
  lemma RequotedOneLine(text: string, takes: string -> bool)
    requires OneLine(text) && (Backslash in text ==> PlainNames(takes))
    ensures Result(Result(text, takes), takes) == Result(text, takes)
  {
    PlainIsSound(text, Scan("", false), "", false, takes);
    SoundTwice(text, takes);
  }

  lemma {:induction false} PlainIsSound(s: string, o: Scan, left: string, open: bool, takes: string -> bool)
    requires Plain(s, takes)
    ensures Sound(s, o, left, open, takes)
    decreases |s|
  {
    if s != "" {
      var n := Match(s);
      if n == 0 {
        assert s == [s[0]] + s[1..];
        PlainRest([s[0]], s[1..], takes);
        PlainIsSound(s[1..], o, left, open || Opens(s[0]), takes);
      } else {
        var p, rest := s[..n], s[n..];
        Rejoined(s, n);
        PlainRest(p, rest, takes);
        if CutNow(o, p, takes) {
          CutPiece(s, o, takes);
          EscapedBare(p);
        }
        PlainIsSound(rest, ScanStep(o, left, p), p, open, takes);
      }
    }
  }

  // ---------------------------------------------------------------- an example --

  /** A text with a backslash at the end of a line: a quote that was not closed there is
      once the backslash is doubled, and what was quoted comes out bare behind it. */
  lemma BrokenLine(text: string, takes: string -> bool)
    requires text == "\"x==\\\n\"x==b\"" && takes("x")
    ensures Result(text, takes) == "\"x==\"\\\\\"\n\"x==b\""
    ensures Result(Result(text, takes), takes) == "\"x==\"\\\\\"\n\"x==\"b\"\""
  {
    var last, end := "\"x==b\"", "\"";
    var line, value := "\n" + last, "b" + end;
    var word := "x" + ("==" + value);
    var behind := "\"\n\"" + word;
    BareWords();
    QuotedWords();
    Spelled(text, last, end);
    Once(last, line, "\\" + line, "==" + ("\\" + line), "x" + ("==" + ("\\" + line)), text, takes);
    Twice(end, value, "==" + value, word, behind, "\\\\" + behind, Result(text, takes), takes);
  }

  lemma Spelled(text: string, last: string, end: string)
    requires text == "\"x==\\\n\"x==b\"" && last == "\"x==b\"" && end == "\""
    ensures text == "\"" + ("x" + ("==" + ("\\" + ("\n" + last))))
    ensures "\"" + ("x" + ("==" + ("\"\\\\\"" + ("\n" + last)))) == "\"x==\"\\\\\"\n\"x==b\""
      == "\"x==\"" + ("\\\\" + ("\"\n\"" + ("x" + ("==" + ("b" + end)))))
    ensures "\"x==\"" + ("\\\\" + ("\"\n\"" + ("x" + ("==" + ("\"b\"" + end))))) == "\"x==\"\\\\\"\n\"x==\"b\"\""
  {
  }

  lemma QuotedWords()
    ensures Quoted("x==b") == "\"x==b\"" && Quoted("x==") == "\"x==\"" && Quoted("\n") == "\"\n\""
  {
    QuotedWord("x==b", "\"x==b\"");
    QuotedWord("x==", "\"x==\"");
    QuotedWord("\n", "\"\n\"");
  }

  lemma QuotedWord(t: string, q: string)
    requires Backslash !in t && '\"' !in t && q == "\"" + t + "\""
    ensures Quoted(t) == q
  {
    EscapedWord(t);
  }

  lemma BareWords()
    ensures Quoted("\\") == "\"\\\\\"" && Quoted("b") == "\"b\""
  {
    QuotedWord("b", "\"b\"");
    assert Escaped("\\") == "\\\\" + Escaped("") == "\\\\";
  }

  lemma {:induction false} EscapedWord(t: string)
    requires Backslash !in t && '\"' !in t
    ensures Escaped(t) == t
  {
    if t != "" {
      EscapedWord(t[1..]);
      assert t == [t[0]] + t[1..];
    }
  }

  lemma Words()
    ensures !Compares("x") && !Compares("\\") && !Compares("\\\\") && !Compares("b")
    ensures Compares("==") && Lowered("==") != "in"
  {
    StrayWords();
    ComparesPlain("\\");
    ComparesPlain("\\\\");
  }

  lemma Goes(p: string, rest: string, s: string, o: Scan, left: string, takes: string -> bool)
    requires s == p + rest && p != "" && Match(s) == |p|
    ensures Woven(s, o, left, takes) == Put(o, p, takes) + Woven(rest, ScanStep(o, left, p), p, takes)
  {
    assert s[..|p|] == p && s[|p|..] == rest;
    WovenPiece(s, o, left, takes);
  }

  lemma GoesBare(p: string, rest: string, s: string, o: Scan, left: string, takes: string -> bool)
    requires s == p + rest && p != "" && AllBare(p) && rest != "" && !IsBare(rest[0])
    ensures Woven(s, o, left, takes) == Put(o, p, takes) + Woven(rest, ScanStep(o, left, p), p, takes)
  {
    BareMatches(p, rest);
    Goes(p, rest, s, o, left, takes);
  }

  lemma GoesQuoted(t: string, p: string, rest: string, s: string, o: Scan, left: string, takes: string -> bool)
    requires p == Quoted(t) && s == p + rest
    ensures Woven(s, o, left, takes) == p + Woven(rest, ScanStep(o, left, p), p, takes)
    ensures ScanStep(o, left, p).field == ""
  {
    QuotedMatches(t, rest);
    AfterQuoted(o, left, p, takes);
    Goes(p, rest, s, o, left, takes);
  }

  lemma GoesEquals(rest: string, s: string, left: string, takes: string -> bool)
    requires s == "==" + rest && BareText(left)
    ensures Woven(s, Scan("", false), left, takes) == "==" + Woven(rest, Scan(left, false), "==", takes)
  {
    assert s[0] == '=' == s[1];
    Words();
    Goes("==", rest, s, Scan("", false), left, takes);
  }

  lemma GoesOver(gap: string, rest: string, s: string, o: Scan, left: string, takes: string -> bool)
    requires |gap| == 1 && s == gap + rest && (IsSpace(gap[0]) || (Opens(gap[0]) && !Closes(rest, gap[0])))
    ensures Woven(s, o, left, takes) == gap + Woven(rest, o, left, takes)
  {
    assert s == [gap[0]] + rest && s[1..] == rest;
    if Opens(gap[0]) {
      MatchCloses(gap[0], rest);
    }
    WovenGap(s, o, left, takes);
  }

  lemma Once(last: string, line: string, end: string, compare: string, behind: string, text: string,
             takes: string -> bool)
    requires last == Quoted("x==b") && line == "\n" + last && end == "\\" + line
    requires compare == "==" + end && behind == "x" + compare && text == "\"" + behind && takes("x")
    ensures Result(text, takes) == "\"" + ("x" + ("==" + (Quoted("\\") + ("\n" + last))))
  {
    NewFromStart(Lex(text).texts, takes);
    BrokenOpen(line, end, compare, behind);
    GoesOver("\"", behind, text, Scan("", false), "", takes);
    Compared(end, compare, behind, "", takes);
    OnceEnds(last, line, end, takes);
  }

  lemma Compared(end: string, compare: string, word: string, left: string, takes: string -> bool)
    requires compare == "==" + end && word == "x" + compare
    ensures Woven(word, Scan("", false), left, takes) == "x" + ("==" + Woven(end, Scan("x", false), "==", takes))
  {
    Words();
    GoesBare("x", compare, word, Scan("", false), left, takes);
    GoesEquals(end, compare, "x", takes);
  }

  lemma OnceEnds(last: string, line: string, end: string, takes: string -> bool)
    requires last == Quoted("x==b") && line == "\n" + last && end == "\\" + line && takes("x")
    ensures Woven(end, Scan("x", false), "==", takes) == Quoted("\\") + ("\n" + last)
  {
    var none := Scan("", false);
    Words();
    GoesBare("\\", line, end, Scan("x", false), "==", takes);
    GoesOver("\n", last, line, none, "\\", takes);
    LastQuoted("x==b", last, none, "\\", takes);
  }

  lemma LastQuoted(t: string, last: string, o: Scan, left: string, takes: string -> bool)
    requires last == Quoted(t)
    ensures Woven(last, o, left, takes) == last
  {
    assert last + "" == last;
    GoesQuoted(t, last, "", last, o, left, takes);
    WovenEmpty(ScanStep(o, left, last), last, takes);
  }

  lemma BrokenOpen(line: string, end: string, compare: string, behind: string)
    requires line != "" && line[0] == '\n'
    requires end == "\\" + line && compare == "==" + end && behind == "x" + compare
    ensures !Closes(behind, '\"')
  {
    ClosesCons('\\', line, '\"');
    assert compare == ['='] + (['='] + end);
    ClosesCons('=', end, '\"');
    ClosesCons('=', ['='] + end, '\"');
    ClosesCons('x', compare, '\"');
  }

  lemma Twice(end: string, value: string, compare: string, word: string, behind: string, rest: string, once: string,
              takes: string -> bool)
    requires end == "\"" && value == "b" + end && compare == "==" + value && word == "x" + compare
    requires behind == Quoted("\n") + word && rest == "\\\\" + behind && once == Quoted("x==") + rest && takes("x")
    ensures Result(once, takes)
      == Quoted("x==") + ("\\\\" + (Quoted("\n") + ("x" + ("==" + (Quoted("b") + end)))))
  {
    NewFromStart(Lex(once).texts, takes);
    GoesQuoted("x==", Quoted("x=="), rest, once, Scan("", false), "", takes);
    TwiceBehind(word, behind, rest, takes);
    Compared(value, compare, word, Quoted("\n"), takes);
    TwiceEnds(end, value, takes);
  }

  lemma TwiceBehind(word: string, behind: string, rest: string, takes: string -> bool)
    requires behind == Quoted("\n") + word && rest == "\\\\" + behind
    ensures Woven(rest, Scan("", false), Quoted("x=="), takes)
      == "\\\\" + (Quoted("\n") + Woven(word, Scan("", false), Quoted("\n"), takes))
  {
    Words();
    GoesBare("\\\\", behind, rest, Scan("", false), Quoted("x=="), takes);
    GoesQuoted("\n", Quoted("\n"), word, behind, Scan("", false), "\\\\", takes);
  }

  lemma TwiceEnds(end: string, value: string, takes: string -> bool)
    requires end == "\"" && value == "b" + end && takes("x")
    ensures Woven(value, Scan("x", false), "==", takes) == Quoted("b") + end
  {
    Words();
    GoesBare("b", end, value, Scan("x", false), "==", takes);
    assert end == end + "";
    GoesOver(end, "", end, Scan("", false), "b", takes);
    WovenEmpty(Scan("", false), "b", takes);
  }
}
