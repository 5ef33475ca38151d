/** Strings as the source's `strings` and `strconv` packages see them. */
module Text {
  /** `unicode.IsSpace`. */
  predicate IsSpace(c: char)
  {
    || '\t' <= c <= '\r' || c == ' ' || c == '\U{0085}' || c == '\U{00A0}' || c == '\U{1680}'
    || '\U{2000}' <= c <= '\U{200A}' || c == '\U{2028}' || c == '\U{2029}' || c == '\U{202F}' || c == '\U{205F}' || c == '\U{3000}'
  }

  predicate Trimmed(s: string)
  {
    s == "" || (!IsSpace(s[0]) && !IsSpace(s[|s| - 1]))
  }

  /** `strings.TrimSpace`. */
  function Trim(s: string): (r: string)
    ensures Trimmed(r)
    ensures Trimmed(s) ==> r == s
    ensures |r| <= |s|
    decreases |s|
  {
    if s == "" then s
    else if IsSpace(s[0]) then Trim(s[1..])
    else if IsSpace(s[|s| - 1]) then Trim(s[..|s| - 1])
    else s
  }

  lemma TrimTwice(s: string)
    ensures Trim(Trim(s)) == Trim(s)
  {
  }

  predicate AllSpace(s: string)
  {
    forall i :: 0 <= i < |s| ==> IsSpace(s[i])
  }

  predicate Around(s: string, a: string, inner: string, b: string)
  {
    s == a + inner + b && AllSpace(a) && AllSpace(b)
  }

  /** Trimming takes white space off both ends and nothing else: with `Trimmed`, this is all it can do. */
  lemma {:induction false} TrimIsInner(s: string) returns (a: string, b: string)
    ensures Around(s, a, Trim(s), b)
    decreases |s|
  {
    hide IsSpace, AllSpace;
    a, b := "", "";
    if s == "" || Trimmed(s) {
      NoSpace();
    } else if IsSpace(s[0]) {
      a, b := TrimIsInner(s[1..]);
      SpaceBefore(s[0], a);
      a := [s[0]] + a;
    } else {
      var init := s[..|s| - 1];
      a, b := TrimIsInner(init);
      SpaceAfter(b, s[|s| - 1]);
      assert s == init + [s[|s| - 1]];
      b := b + [s[|s| - 1]];
    }
  }

  lemma NoSpace()
    ensures AllSpace("")
  {
  }

  lemma SpaceBefore(c: char, a: string)
    requires IsSpace(c) && AllSpace(a)
    ensures AllSpace([c] + a)
  {
  }

  lemma SpaceAfter(b: string, c: char)
    requires AllSpace(b) && IsSpace(c)
    ensures AllSpace(b + [c])
  {
  }

  /** `strconv.Itoa`: decimal digits, most significant first. */
  function Digits(n: nat): (d: string)
    ensures |d| > 0
    ensures forall i :: 0 <= i < |d| ==> '0' <= d[i] <= '9'
  {
    if n < 10 then [Digit(n)] else Digits(n / 10) + [Digit(n % 10)]
  }

  function Digit(n: nat): (c: char)
    requires n < 10
    ensures '0' <= c <= '9' && c as int == '0' as int + n
  {
    ('0' as int + n) as char
  }

  function IntText(n: int): string
  {
    if n < 0 then "-" + Digits(-n) else Digits(n)
  }

  /** `strings.ToLower`, ASCII letters only. */
  function Lower(s: string): string
  {
    seq(|s|, i requires 0 <= i < |s| => if 'A' <= s[i] <= 'Z' then (s[i] as int + 32) as char else s[i])
  }

  /** `strings.Join` with a dot. */
  function Dotted(path: seq<string>): string
  {
    if path == [] then "" else if |path| == 1 then path[0] else path[0] + "." + Dotted(path[1..])
  }

  /** A longer path is the shorter one, a dot, and the last key. */
  lemma {:induction false} DottedGrows(path: seq<string>, key: string)
    ensures Dotted(path + [key]) == if path == [] then key else Dotted(path) + "." + key
  {
    if path == [] {
      assert path + [key] == [key];
    } else {
      assert (path + [key])[1..] == path[1..] + [key] && (path + [key])[0] == path[0];
      DottedGrows(path[1..], key);
      if |path| > 1 { assert path[0] + "." + (Dotted(path[1..]) + "." + key) == (path[0] + "." + Dotted(path[1..])) + "." + key; }
    }
  }

  lemma LowerIsAscii(s: string, i: nat)
    requires i < |s|
    ensures |Lower(s)| == |s| && !('A' <= Lower(s)[i] <= 'Z')
    ensures Lower(s)[i] == s[i] || ('A' <= s[i] <= 'Z' && Lower(s)[i] as int - 'a' as int == s[i] as int - 'A' as int)
  {
  }
}
