/** The few string operations of the host language that the modelled code uses. */
module PyText {

  /** What `str.isspace` accepts, and so what `strip` removes. */
  predicate IsSpace(c: char) {
    || '\t' <= c <= '\r'
    || '\U{1c}' <= c <= ' '
    || c == '\U{85}' || c == '\U{a0}' || c == '\U{1680}'
    || '\U{2000}' <= c <= '\U{200a}'
    || c == '\U{2028}' || c == '\U{2029}' || c == '\U{202f}' || c == '\U{205f}' || c == '\U{3000}'
  }

  /** `not s.strip()`. */
  predicate IsBlank(s: string) {
    forall i | 0 <= i < |s| :: IsSpace(s[i])
  }

  function RStrip(s: string): string {
    if s == [] || !IsSpace(s[|s| - 1]) then s else RStrip(s[..|s| - 1])
  }

  function LStrip(s: string): string {
    if s == [] || !IsSpace(s[0]) then s else LStrip(s[1..])
  }

  function Strip(s: string): string {
    RStrip(LStrip(s))
  }

  lemma {:induction false} RStripStrips(s: string)
    ensures RStrip(s) <= s && IsBlank(s[|RStrip(s)|..])
    ensures RStrip(s) != [] ==> !IsSpace(RStrip(s)[|RStrip(s)| - 1])
  {
    if s != [] && IsSpace(s[|s| - 1]) {
      var front := s[..|s| - 1];
      RStripStrips(front);
      assert s[|RStrip(front)|..] == front[|RStrip(front)|..] + [s[|s| - 1]];
    }
  }

  lemma {:induction false} LStripStrips(s: string)
    ensures |LStrip(s)| <= |s| && LStrip(s) == s[|s| - |LStrip(s)|..] && IsBlank(s[..|s| - |LStrip(s)|])
    ensures LStrip(s) != [] ==> !IsSpace(LStrip(s)[0])
  {
    if s != [] && IsSpace(s[0]) {
      LStripStrips(s[1..]);
      LeadingSpace(s, |s[1..]| - |LStrip(s[1..])|);
    }
  }

  lemma LeadingSpace(s: string, k: nat)
    requires s != [] && IsSpace(s[0]) && k < |s| && IsBlank(s[1..][..k])
    ensures IsBlank(s[..k + 1]) && s[k + 1..] == s[1..][k..]
  {
    assert s[..k + 1] == [s[0]] + s[1..][..k];
  }

  /** What is stripped has no space left at its ends. */
  predicate Stripped(s: string) {
    s != "" ==> !IsSpace(s[0]) && !IsSpace(s[|s| - 1])
  }

  lemma StripStrips(s: string)
    ensures |Strip(s)| <= |s| && Stripped(Strip(s))
    ensures Stripped(s) ==> Strip(s) == s
  {
    LStripStrips(s);
    RStripStrips(LStrip(s));
  }

  function Join(sep: string, parts: seq<string>): string {
    if parts == [] then []
    else if |parts| == 1 then parts[0]
    else parts[0] + sep + Join(sep, parts[1..])
  }

  /** `a <= b`, character by character. */
  predicate NotAfter(a: string, b: string) {
    a == [] || (b != [] && (a[0] < b[0] || (a[0] == b[0] && NotAfter(a[1..], b[1..]))))
  }

  lemma {:induction false} NotAfterTotal(a: string, b: string)
    ensures NotAfter(a, b) || NotAfter(b, a)
  {
    if a != [] && b != [] {
      NotAfterTotal(a[1..], b[1..]);
    }
  }

  lemma {:induction false} NotAfterTransitive(a: string, b: string, c: string)
    requires NotAfter(a, b) && NotAfter(b, c)
    ensures NotAfter(a, c)
  {
    if a != [] && a[0] == b[0] == c[0] {
      NotAfterTransitive(a[1..], b[1..], c[1..]);
    }
  }

  lemma {:induction false} NotAfterAntisymmetric(a: string, b: string)
    requires NotAfter(a, b) && NotAfter(b, a)
    ensures a == b
  {
    if a != [] {
      NotAfterAntisymmetric(a[1..], b[1..]);
      assert a == [a[0]] + a[1..] && b == [b[0]] + b[1..];
    }
  }
}
