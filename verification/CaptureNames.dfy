/** The file name given to a capture (operator/internal/controller/sniffer.go). */
module CaptureNames {
  import opened CaptureUrl

  predicate IsNameStart(c: char) {
    'a' <= c <= 'z' || 'A' <= c <= 'Z' || '0' <= c <= '9'
  }

  predicate IsNameChar(c: char) {
    IsNameStart(c) || c == '.' || c == '_' || c == '+' || c == '-'
  }

  function Sanitize(s: string): (r: string)
    ensures |r| == |s| && forall i :: 0 <= i < |r| ==>
      IsNameChar(r[i]) && (IsNameChar(s[i]) ==> r[i] == s[i]) && (!IsNameChar(s[i]) ==> r[i] == '-')
  {
    seq(|s|, i requires 0 <= i < |s| => if IsNameChar(s[i]) then s[i] else '-')
  }

  function Suffix(namespace: string): string {
    "-" + Sanitize(namespace) + ".pcap"
  }

  function Head(prefix: string, capture: string, pod: string): string {
    Sanitize(prefix) + (if capture != "" then Sanitize(capture) + "-" else "") + Sanitize(pod)
  }

  function Shorten(head: string, most: int): string {
    if |head| > most then head[..if most < 0 then 0 else most] else head
  }

  /** Prefix, capture, pod and namespace; the pod is what gives when that is too long. */
  function FileName(prefix: string, capture: string, namespace: string, pod: string): string {
    var suffix := Suffix(namespace);
    var name := Shorten(Head(prefix, capture, pod), 128 - |suffix|) + suffix;
    if IsNameStart(name[0]) then name else "c" + name
  }

  lemma SanitizedChars(prefix: string, capture: string, namespace: string, pod: string)
    ensures forall c :: c in Head(prefix, capture, pod) ==> IsNameChar(c)
    ensures forall c :: c in Suffix(namespace) ==> IsNameChar(c)
  {
  }

  /** The image's own rule for file names, but for the length. */
  lemma FileNameIsAccepted(prefix: string, capture: string, namespace: string, pod: string)
    ensures var name := FileName(prefix, capture, namespace, pod);
      && name != "" && IsNameStart(name[0]) && (forall c :: c in name ==> IsNameChar(c)) && IsBytes(name)
      && ('a' <= name[0] <= 'z' || 'A' <= name[0] <= 'Z' || '0' <= name[0] <= '9')
      && forall c :: c in name ==>
           'a' <= c <= 'z' || 'A' <= c <= 'Z' || '0' <= c <= '9' || c == '.' || c == '_' || c == '+' || c == '-'
  {
    SanitizedChars(prefix, capture, namespace, pod);
    var name := FileName(prefix, capture, namespace, pod);
    assert forall c :: c in name ==> IsNameChar(c);
    assert forall i :: 0 <= i < |name| ==> name[i] in name;
  }

  /** A name is too long for the image exactly when it begins with punctuation and fills
      the whole length, for then the letter put in front is one too many. */
  lemma FileNameLength(prefix: string, capture: string, namespace: string, pod: string)
    requires |namespace| <= 63
    ensures var head := Head(prefix, capture, pod);
      |FileName(prefix, capture, namespace, pod)| <= 128 <==>
      |head| + |Suffix(namespace)| < 128 || (head != "" && IsNameStart(head[0]))
  {
    var head, suffix := Head(prefix, capture, pod), Suffix(namespace);
    assert |suffix| == |namespace| + 6;
    assert suffix[0] == '-';
    var cut := Shorten(head, 128 - |suffix|);
    assert cut == "" ==> (cut + suffix)[0] == suffix[0];
    assert cut != "" ==> (cut + suffix)[0] == head[0];
  }

  /** One such name: a prefix that is a dash, and a pod whose name is as long as will fit. */
  lemma FileNameTooLong(pod: string)
    requires |pod| == 118
    ensures |FileName("-", "c", "n", pod)| == 129
  {
    var head, suffix := Head("-", "c", pod), Suffix("n");
    assert |suffix| == 7 && |head| == 121 && head[0] == Sanitize("-")[0] == '-';
    assert Shorten(head, 128 - |suffix|) == head && (head + suffix)[0] == head[0];
  }

  ghost predicate Clean(s: string) {
    forall c :: c in s ==>
      'a' <= c <= 'z' || 'A' <= c <= 'Z' || '0' <= c <= '9' || c == '.' || c == '_' || c == '+' || c == '-'
  }

  lemma SanitizeClean(s: string)
    requires Clean(s)
    ensures Sanitize(s) == s
  {
    forall i | 0 <= i < |s| ensures Sanitize(s)[i] == s[i] {
      assert s[i] in s;
    }
  }

  /** Of names that the image takes anyway, the file name is the prefix, the capture, the pod
      and the namespace, in that order; and it is of the pod that as much goes as is too much. */
  lemma FileNameSays(prefix: string, capture: string, namespace: string, pod: string)
    requires Clean(prefix) && Clean(capture) && Clean(namespace) && Clean(pod) && capture != ""
    requires var first := (prefix + capture)[0]; 'a' <= first <= 'z' || 'A' <= first <= 'Z' || '0' <= first <= '9'
    requires |prefix| + |capture| + |namespace| <= 121
    ensures var room := 121 - |prefix| - |capture| - |namespace|;
      FileName(prefix, capture, namespace, pod)
        == prefix + capture + "-" + (if |pod| > room then pod[..room] else pod) + "-" + namespace + ".pcap"
  {
    SanitizeClean(prefix);
    SanitizeClean(capture);
    SanitizeClean(namespace);
    SanitizeClean(pod);
    var before, room := prefix + capture + "-", 121 - |prefix| - |capture| - |namespace|;
    var cut := if |pod| > room then pod[..room] else pod;
    assert Head(prefix, capture, pod) == before + pod;
    assert Shorten(before + pod, 128 - |Suffix(namespace)|) == before + cut;
    assert (before + cut + Suffix(namespace))[0] == (prefix + capture)[0];
    Together(before + cut, "-", namespace, ".pcap");
  }

  lemma Together(a: string, b: string, c: string, d: string)
    ensures a + (b + c + d) == a + b + c + d
  {
  }
}
