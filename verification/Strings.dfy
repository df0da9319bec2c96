/** The few functions of Go's strings package the agent relies on. Case is changed for ASCII
    letters only; white space is Unicode white space. */
module Strings {
  predicate IsSpace(c: char) {
    || c in {'\t', '\n', '\U{000B}', '\U{000C}', '\r', ' ', '\U{0085}', '\U{00A0}', '\U{1680}'}
    || '\U{2000}' <= c <= '\U{200A}'
    || c in {'\U{2028}', '\U{2029}', '\U{202F}', '\U{205F}', '\U{3000}'}
  }

  function TrimLeft(s: string): string {
    if s != [] && IsSpace(s[0]) then TrimLeft(s[1..]) else s
  }

  function TrimRight(s: string): string {
    if s != [] && IsSpace(s[|s| - 1]) then TrimRight(s[..|s| - 1]) else s
  }

  function TrimSpace(s: string): string {
    TrimRight(TrimLeft(s))
  }

  /** No white space at either end. */
  predicate Trimmed(s: string) {
    s != [] ==> !IsSpace(s[0]) && !IsSpace(s[|s| - 1])
  }

  lemma {:induction false} TrimLeftEnds(s: string)
    ensures var t := TrimLeft(s); (t != [] ==> !IsSpace(t[0])) && |t| <= |s|
  {
    if s != [] && IsSpace(s[0]) {
      TrimLeftEnds(s[1..]);
    }
  }

  lemma {:induction false} TrimRightEnds(s: string)
    ensures var t := TrimRight(s); t <= s && (t != [] ==> !IsSpace(t[|t| - 1]))
  {
    if s != [] && IsSpace(s[|s| - 1]) {
      TrimRightEnds(s[..|s| - 1]);
    }
  }

  lemma TrimSpaceTrims(s: string)
    ensures Trimmed(TrimSpace(s))
  {
    TrimLeftEnds(s);
    TrimRightEnds(TrimLeft(s));
  }

  lemma TrimmedIsFixed(s: string)
    requires Trimmed(s)
    ensures TrimSpace(s) == s
  {
  }

  /** White space around a trimmed text goes, and nothing else. */
  lemma {:induction false} TrimSpaceStrips(a: string, t: string, b: string)
    requires (forall c | c in a :: IsSpace(c)) && (forall c | c in b :: IsSpace(c)) && t != "" && Trimmed(t)
    ensures TrimSpace(a + t + b) == t
  {
    StripLeft(a, t + b);
    assert a + t + b == a + (t + b);
    StripRight(t, b);
  }

  lemma {:induction false} StripLeft(a: string, t: string)
    requires (forall c | c in a :: IsSpace(c)) && t != "" && !IsSpace(t[0])
    ensures TrimLeft(a + t) == t
  {
    if a == "" {
      assert a + t == t;
    } else {
      StripLeft(a[1..], t);
      assert (a + t)[1..] == a[1..] + t;
    }
  }

  lemma {:induction false} StripRight(t: string, b: string)
    requires (forall c | c in b :: IsSpace(c)) && t != "" && !IsSpace(t[|t| - 1])
    ensures TrimRight(t + b) == t
  {
    if b == "" {
      assert t + b == t;
    } else {
      StripRight(t, b[..|b| - 1]);
      assert (t + b)[..|t + b| - 1] == t + b[..|b| - 1];
    }
  }

  function LowerChar(c: char): char {
    if 'A' <= c <= 'Z' then (c as int + 32) as char else c
  }

  function UpperChar(c: char): char {
    if 'a' <= c <= 'z' then (c as int - 32) as char else c
  }

  function ToLower(s: string): (r: string)
    ensures |r| == |s| && forall i | 0 <= i < |s| :: r[i] == LowerChar(s[i])
  {
    seq(|s|, i requires 0 <= i < |s| => LowerChar(s[i]))
  }

  function ToUpper(s: string): (r: string)
    ensures |r| == |s| && forall i | 0 <= i < |s| :: r[i] == UpperChar(s[i])
  {
    seq(|s|, i requires 0 <= i < |s| => UpperChar(s[i]))
  }

  /** Case conversion, letter by letter: A to Z and a to z correspond in order, nothing else changes,
      and converting back and forth ends where converting once does. */
  lemma CasesCorrespond(c: char)
    ensures 'A' <= c <= 'Z' ==> LowerChar(c) as int - 'a' as int == c as int - 'A' as int
    ensures 'A' <= c <= 'Z' ==> UpperChar(LowerChar(c)) == c
    ensures 'a' <= c <= 'z' ==> UpperChar(c) as int - 'A' as int == c as int - 'a' as int
    ensures 'a' <= c <= 'z' ==> LowerChar(UpperChar(c)) == c
    ensures !('A' <= c <= 'Z') ==> LowerChar(c) == c
    ensures !('a' <= c <= 'z') ==> UpperChar(c) == c
  {
  }

  /** Two texts that agree in small letters agree in capitals. */
  lemma FoldedEqual(s: string, t: string)
    ensures ToLower(s) == ToLower(t) <==> ToUpper(s) == ToUpper(t)
  {
    forall c: char, d: char
      ensures LowerChar(c) == LowerChar(d) <==> UpperChar(c) == UpperChar(d)
    {
      CasesCorrespond(c);
      CasesCorrespond(d);
    }
    if ToLower(s) == ToLower(t) {
      assert |s| == |ToLower(s)| == |t|;
      forall i | 0 <= i < |s|
        ensures ToUpper(s)[i] == ToUpper(t)[i]
      {
        assert ToLower(s)[i] == ToLower(t)[i];
      }
    }
    if ToUpper(s) == ToUpper(t) {
      assert |s| == |ToUpper(s)| == |t|;
      forall i | 0 <= i < |s|
        ensures ToLower(s)[i] == ToLower(t)[i]
      {
        assert ToUpper(s)[i] == ToUpper(t)[i];
      }
    }
  }

  predicate HasPrefix(s: string, p: string) {
    p <= s
  }

  predicate Contains(s: string, sub: string) {
    exists i | 0 <= i <= |s| :: sub <= s[i..]
  }

  function TrimPrefix(s: string, p: string): string {
    if p <= s then s[|p|..] else s
  }
}
