/** The upload URL a capture pod is given, and how the capture's file name is read back
    from it (operator/internal/controller/packetcapture_controller.go). A char is a byte. */
module CaptureUrl {
  import opened Options

  predicate IsBytes(s: string) {
    forall i :: 0 <= i < |s| ==> (s[i] as int) < 256
  }

  // --------------------------------------------------------------- escaping --

  const Digits := "0123456789ABCDEF"

  function Unhex(c: char): Option<nat> {
    if '0' <= c <= '9' then Some((c - '0') as nat)
    else if 'A' <= c <= 'F' then Some((c - 'A') as nat + 10)
    else if 'a' <= c <= 'f' then Some((c - 'a') as nat + 10)
    else None
  }

  predicate Plain(c: char) {
    'a' <= c <= 'z' || 'A' <= c <= 'Z' || '0' <= c <= '9' || c == '-' || c == '_' || c == '.' || c == '~'
  }

  function EscapeByte(c: char): string
    requires (c as int) < 256
  {
    if Plain(c) then [c]
    else if c == ' ' then "+"
    else ['%', Digits[c as int / 16], Digits[c as int % 16]]
  }

  function Escape(s: string): string
    requires IsBytes(s)
  {
    if s == "" then "" else EscapeByte(s[0]) + Escape(s[1..])
  }

  function Unescape(s: string): Option<string> {
    if s == "" then Some("")
    else if s[0] == '%' then
      if |s| < 3 || Unhex(s[1]).None? || Unhex(s[2]).None? then None
      else Prepend((Unhex(s[1]).value * 16 + Unhex(s[2]).value) as char, Unescape(s[3..]))
    else Prepend(if s[0] == '+' then ' ' else s[0], Unescape(s[1..]))
  }

  function Prepend(c: char, rest: Option<string>): Option<string> {
    if rest.None? then None else Some([c] + rest.value)
  }

  lemma HexDigits(n: nat)
    requires n < 16
    ensures Unhex(Digits[n]) == Some(n)
  {
  }

  /** Any text comes back from its escaped form. */
  lemma {:induction false} UnescapeEscape(s: string)
    requires IsBytes(s)
    ensures Unescape(Escape(s)) == Some(s)
  {
    if s != "" {
      UnescapeByte(s[0], Escape(s[1..]));
      UnescapeEscape(s[1..]);
      assert s == [s[0]] + s[1..];
    }
  }

  lemma UnescapeByte(c: char, rest: string)
    requires (c as int) < 256
    ensures Unescape(EscapeByte(c) + rest) == Prepend(c, Unescape(rest))
  {
    var all := EscapeByte(c) + rest;
    if Plain(c) || c == ' ' {
      assert all[1..] == rest;
    } else {
      var n := c as int;
      HexDigits(n / 16);
      HexDigits(n % 16);
      assert all[0] == '%' && all[1] == Digits[n / 16] && all[2] == Digits[n % 16] && all[3..] == rest;
      assert n / 16 * 16 + n % 16 == n;
    }
  }

  predicate Inert(c: char) {
    c != '#' && c != '?' && c != '&' && c != ';' && c != '='
  }

  lemma EscapedByteIsInert(c: char)
    requires (c as int) < 256
    ensures forall x :: x in EscapeByte(c) ==> Inert(x)
  {
    if !Plain(c) && c != ' ' {
      HexDigits(c as int / 16);
      HexDigits(c as int % 16);
    }
  }

  lemma {:induction false} EscapeIsInert(s: string)
    requires IsBytes(s)
    ensures forall x :: x in Escape(s) ==> Inert(x)
  {
    if s != "" {
      EscapedByteIsInert(s[0]);
      EscapeIsInert(s[1..]);
    }
  }

  // ------------------------------------------------------------------- URLs --

  /** What comes before the first `c`, and what comes after it. */
  function Cut(s: string, c: char): (string, string) {
    if s == "" then ("", "")
    else if s[0] == c then ("", s[1..])
    else var (before, after) := Cut(s[1..], c); ([s[0]] + before, after)
  }

  lemma {:induction false} CutNone(s: string, c: char)
    requires c !in s
    ensures Cut(s, c) == (s, "")
  {
    if s != "" {
      CutNone(s[1..], c);
      assert s == [s[0]] + s[1..];
    }
  }

  lemma {:induction false} CutAt(s: string, c: char, t: string)
    requires c !in s
    ensures Cut(s + [c] + t, c) == (s, t)
  {
    if s == "" {
      assert s + [c] + t == [c] + t;
    } else {
      assert (s + [c] + t)[1..] == s[1..] + [c] + t;
      CutAt(s[1..], c, t);
      assert s == [s[0]] + s[1..];
    }
  }

  lemma {:induction false} CutInside(s: string, c: char, t: string)
    requires c in s
    ensures Cut(s + t, c).0 == Cut(s, c).0
  {
    if s[0] != c {
      assert (s + t)[1..] == s[1..] + t;
      CutInside(s[1..], c, t);
    }
  }

  /** The first value a query gives `name`, or nothing. */
  function Get(query: string, name: string): (value: string)
    decreases |query|
  {
    if query == "" then ""
    else
      var (pair, rest) := Cut(query, '&');
      CutShrinks(query, '&');
      var (key, val) := Cut(pair, '=');
      if pair == "" || ';' in pair || Unescape(key) != Some(name) || Unescape(val).None? then Get(rest, name)
      else Unescape(val).value
  }

  lemma {:induction false} CutShrinks(s: string, c: char)
    ensures s != "" ==> |Cut(s, c).1| < |s|
  {
    if s != "" {
      CutShrinks(s[1..], c);
    }
  }

  /** The value of `f` in a URL. Whether the part before the query, and the fragment, can
      be part of a URL at all is for `parses` to say. */
  function FileFrom(url: string, parses: (string, string) -> bool): string {
    var (main, fragment) := Cut(url, '#');
    var (head, query) := Cut(main, '?');
    if parses(head, fragment) then Get(query, "f") else ""
  }

  function UploadURL(base: string, file: string): string
    requires IsBytes(file)
  {
    base + "/api/file?f=" + Escape(file)
  }

  lemma GetFile(file: string)
    requires IsBytes(file)
    ensures Get("f=" + Escape(file), "f") == file
  {
    var query := "f=" + Escape(file);
    EscapeIsInert(file);
    CutNone(query, '&');
    CutAt("f", '=', Escape(file));
    assert "f" + ['='] + Escape(file) == query;
    UnescapeEscape(file);
    assert ';' !in query;
    assert Unescape("f") == Some("f") by {
      assert Unescape("") == Some("");
    }
  }

  /** The file name survives the upload URL exactly when the base has no fragment; a
      fragment swallows the name, and an empty one is all that is left. */
  lemma FileComesBack(base: string, file: string, parses: (string, string) -> bool)
    requires IsBytes(file) && '?' !in base
    requires parses(base + "/api/file", "")
    ensures FileFrom(UploadURL(base, file), parses) == file <==> '#' !in base || file == ""
  {
    var path, url := base + "/api/file", UploadURL(base, file);
    var rest := "/api/file?f=" + Escape(file);
    EscapeIsInert(file);
    assert url == path + ['?'] + ("f=" + Escape(file));
    if '#' in base {
      assert url == base + rest;
      CutInside(base, '#', rest);
      FragmentSwallows(base, '#');
      CutNone(Cut(base, '#').0, '?');
    } else {
      assert '#' !in url;
      CutNone(url, '#');
      CutAt(path, '?', "f=" + Escape(file));
      GetFile(file);
    }
  }

  /** A name lost in that way. */
  lemma FileIsLost(parses: (string, string) -> bool)
    ensures FileFrom(UploadURL("http://h/#x", "a.pcap"), parses) == ""
  {
    var escaped := Escape("a.pcap");
    LostBehind("http://h/", "x", "/api/file?f=" + escaped, parses);
    JoinBase("http://h/", "x", "/api/file?f=", escaped);
    assert "http://h/" + ['#'] + "x" == "http://h/#x";
  }

  lemma JoinBase(head: string, rest: string, path: string, escaped: string)
    ensures head + ['#'] + (rest + (path + escaped)) == head + ['#'] + rest + path + escaped
  {
  }

  lemma LostBehind(head: string, rest: string, more: string, parses: (string, string) -> bool)
    requires '#' !in head && '?' !in head
    ensures FileFrom(head + ['#'] + (rest + more), parses) == ""
  {
    CutAt(head, '#', rest + more);
    CutNone(head, '?');
  }

  lemma {:induction false} FragmentSwallows(s: string, c: char)
    ensures forall x :: x in Cut(s, c).0 ==> x in s
  {
    if s != "" {
      FragmentSwallows(s[1..], c);
    }
  }

  /** How a byte is escaped: a letter, a digit and four marks stand for themselves, a space
      for a plus, and anything else is told by its two hex digits, in capitals. */
  lemma EscapedSays(c: char)
    requires (c as int) < 256
    ensures 'a' <= c <= 'z' || 'A' <= c <= 'Z' || '0' <= c <= '9' || c in "-_.~" ==> Escape([c]) == [c]
    ensures c == ' ' ==> Escape([c]) == "+"
    ensures !('a' <= c <= 'z' || 'A' <= c <= 'Z' || '0' <= c <= '9' || c in "-_.~ ") ==>
      |Escape([c])| == 3 && Escape([c])[0] == '%'
      && (forall i :: 1 <= i < 3 ==> '0' <= Escape([c])[i] <= '9' || 'A' <= Escape([c])[i] <= 'F')
  {
    assert [c][1..] == "" && Escape([c]) == EscapeByte(c) + "" == EscapeByte(c);
    HexDigits(c as int / 16);
    HexDigits(c as int % 16);
  }

  /** A file name of such characters goes into the URL as it is. */
  lemma {:induction false} UploadedTo(base: string, file: string)
    requires forall i :: 0 <= i < |file| ==>
      'a' <= file[i] <= 'z' || 'A' <= file[i] <= 'Z' || '0' <= file[i] <= '9' || file[i] in "-_.~"
    ensures IsBytes(file) && UploadURL(base, file) == base + "/api/file?f=" + file
  {
    if file != "" {
      UploadedTo(base, file[1..]);
      assert file == [file[0]] + file[1..];
      EscapedAsIs(file, base);
    }
  }

  lemma EscapedAsIs(file: string, base: string)
    requires IsBytes(file) && file != "" && (Plain(file[0]) || file[0] in "-_.~")
    requires UploadURL(base, file[1..]) == base + "/api/file?f=" + file[1..]
    ensures UploadURL(base, file) == base + "/api/file?f=" + file
  {
    var before, rest := base + "/api/file?f=", Escape(file[1..]);
    assert (before + rest)[|before|..] == rest && (before + file[1..])[|before|..] == file[1..];
    assert Escape(file) == [file[0]] + rest == file;
  }
}
