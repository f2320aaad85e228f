/** The string operations of Go's `strings` package that the services rely on, over Unicode characters. */
module Text {

  /** The white space of Unicode, as `unicode.IsSpace` has it. */
  predicate IsSpace(c: char) {
    var n := c as int;
    || 0x09 <= n <= 0x0D || n == 0x20 || n == 0x85 || n == 0xA0 || n == 0x1680
    || 0x2000 <= n <= 0x200A || n == 0x2028 || n == 0x2029 || n == 0x202F || n == 0x205F || n == 0x3000
  }

  function TrimLeft(s: string): string {
    if s != "" && IsSpace(s[0]) then TrimLeft(s[1..]) else s
  }

  function TrimRight(s: string): string {
    if s != "" && IsSpace(s[|s| - 1]) then TrimRight(s[..|s| - 1]) else s
  }

  /** `strings.TrimSpace` */
  function Trim(s: string): string {
    TrimRight(TrimLeft(s))
  }

  /** No white space at either end. */
  predicate Trimmed(s: string) {
    s == "" || (!IsSpace(s[0]) && !IsSpace(s[|s| - 1]))
  }

  lemma {:induction false} TrimLeftShape(s: string)
    ensures TrimLeft(s) == "" || !IsSpace(TrimLeft(s)[0])
    ensures |TrimLeft(s)| <= |s| && TrimLeft(s) == s[|s| - |TrimLeft(s)|..]
  {
    if s == "" || !IsSpace(s[0]) {
    } else {
      TrimLeftShape(s[1..]);
    }
  }

  lemma {:induction false} TrimRightShape(s: string)
    ensures TrimRight(s) == "" || !IsSpace(TrimRight(s)[|TrimRight(s)| - 1])
    ensures |TrimRight(s)| <= |s| && TrimRight(s) == s[..|TrimRight(s)|]
  {
    if s == "" || !IsSpace(s[|s| - 1]) {
    } else {
      TrimRightShape(s[..|s| - 1]);
    }
  }

  /** Trimming gives a trimmed string, and leaves exactly the trimmed strings alone. */
  lemma TrimIsTrimmed(s: string)
    ensures Trimmed(Trim(s))
    ensures Trim(s) == s <==> Trimmed(s)
    ensures Trim(Trim(s)) == Trim(s)
    ensures |Trim(s)| <= |s|
  {
    TrimLeftShape(s);
    TrimRightShape(TrimLeft(s));
    var t := Trim(s);
    TrimLeftShape(t);
    TrimRightShape(TrimLeft(t));
  }

  /** White space from one end to the other. */
  predicate Blank(s: string) {
    forall i :: 0 <= i < |s| ==> IsSpace(s[i])
  }

  /** `s` is `t` with white space around it. */
  predicate Surrounds(s: string, a: string, t: string, b: string) {
    s == a + t + b && Blank(a) && Blank(b)
  }

  lemma {:induction false} TrimLeftTakesBlanks(s: string) returns (a: string)
    ensures s == a + TrimLeft(s) && Blank(a)
  {
    if s == "" || !IsSpace(s[0]) {
      a := "";
    } else {
      a := TrimLeftTakesBlanks(s[1..]);
      a := [s[0]] + a;
    }
  }

  lemma {:induction false} TrimRightTakesBlanks(s: string) returns (b: string)
    ensures s == TrimRight(s) + b && Blank(b)
  {
    if s == "" || !IsSpace(s[|s| - 1]) {
      b := "";
    } else {
      b := TrimRightTakesBlanks(s[..|s| - 1]);
      b := b + [s[|s| - 1]];
    }
  }

  lemma {:induction false} TrimLeftOfBlanks(a: string, t: string)
    requires Blank(a)
    ensures TrimLeft(a + t) == TrimLeft(t)
  {
    if a == "" {
      assert a + t == t;
    } else {
      assert (a + t)[1..] == a[1..] + t;
      TrimLeftOfBlanks(a[1..], t);
    }
  }

  lemma {:induction false} TrimRightOfBlanks(t: string, b: string)
    requires Blank(b)
    ensures TrimRight(t + b) == TrimRight(t)
  {
    if b == "" {
      assert t + b == t;
    } else {
      assert (t + b)[..|t + b| - 1] == t + b[..|b| - 1];
      TrimRightOfBlanks(t, b[..|b| - 1]);
    }
  }

  lemma TrimUnique(s: string, a: string, t: string, b: string)
    requires Surrounds(s, a, t, b) && Trimmed(t)
    ensures Trim(s) == t
  {
    assert s == a + (t + b);
    TrimLeftOfBlanks(a, t + b);
    if t == "" {
      assert t + b == b + "";
      TrimLeftOfBlanks(b, "");
    } else {
      assert TrimLeft(t + b) == t + b;
      TrimRightOfBlanks(t, b);
    }
  }

  /** What trimming means: it takes the white space at both ends, and nothing else. */
  lemma TrimExact(s: string, t: string)
    ensures Trim(s) == t <==> Trimmed(t) && exists a, b :: Surrounds(s, a, t, b)
  {
    if Trim(s) == t {
      TrimIsTrimmed(s);
      var a := TrimLeftTakesBlanks(s);
      var b := TrimRightTakesBlanks(TrimLeft(s));
      assert Surrounds(s, a, t, b);
    }
    forall a, b | Trimmed(t) && Surrounds(s, a, t, b)
      ensures Trim(s) == t
    {
      TrimUnique(s, a, t, b);
    }
  }

  function LowerChar(c: char): char {
    if 'A' <= c <= 'Z' then c - 'A' + 'a' else c
  }

  /** `strings.ToLower`, as far as ASCII letters go. */
  function Lower(s: string): (r: string)
    ensures |r| == |s|
    ensures forall i :: 0 <= i < |s| ==> r[i] == LowerChar(s[i])
  {
    seq(|s|, i requires 0 <= i < |s| => LowerChar(s[i]))
  }

  /** `strings.EqualFold`, as far as ASCII letters go. */
  predicate EqualFold(s: string, t: string) {
    Lower(s) == Lower(t)
  }

  /** `c` is an upper-case ASCII letter and `d` the same letter in lower case. */
  predicate IsLowerOf(c: char, d: char) {
    0x41 <= c as int <= 0x5A && d as int == c as int + 0x20
  }

  /** Lower-casing maps each of the 26 upper-case ASCII letters to its lower-case letter and keeps every other
      character. */
  lemma LowerCharExact(c: char, d: char)
    ensures LowerChar(c) == d <==> IsLowerOf(c, d) || (c == d && !('A' <= c <= 'Z'))
  {
  }

  /** The comparison accepts exactly the strings that agree letter by letter but for the case. */
  lemma EqualFoldExact(s: string, t: string)
    ensures EqualFold(s, t) <==>
      |s| == |t| && forall i :: 0 <= i < |s| ==> s[i] == t[i] || IsLowerOf(s[i], t[i]) || IsLowerOf(t[i], s[i])
  {
    forall c: char, d: char
      ensures LowerChar(c) == LowerChar(d) <==> c == d || IsLowerOf(c, d) || IsLowerOf(d, c)
    {
    }
    if |s| == |t| {
      assert Lower(s) == Lower(t) <==> forall i :: 0 <= i < |s| ==> Lower(s)[i] == Lower(t)[i];
    }
  }

  lemma LowerIdempotent(s: string)
    ensures Lower(Lower(s)) == Lower(s)
  {
  }

  /** Lower-casing neither adds nor removes white space. */
  lemma LowerKeepsTrimmed(s: string)
    ensures Trimmed(Lower(s)) <==> Trimmed(s)
  {
  }

  predicate HasPrefix(s: string, p: string) {
    p <= s
  }

  predicate HasSuffix(s: string, p: string) {
    |p| <= |s| && s[|s| - |p|..] == p
  }

  function TrimPrefix(s: string, p: string): string {
    if HasPrefix(s, p) then s[|p|..] else s
  }

  function TrimSuffix(s: string, p: string): string {
    if HasSuffix(s, p) then s[..|s| - |p|] else s
  }

  /** The position of the first `c`, or the length when there is none. */
  function IndexOf(s: string, c: char): (i: nat)
    ensures i <= |s| && forall k :: 0 <= k < i ==> s[k] != c
    ensures i < |s| ==> s[i] == c
  {
    if s == "" then 0
    else if s[0] == c then 0
    else 1 + IndexOf(s[1..], c)
  }

  /** Go's `<` on strings: byte order, which for UTF-8 is code point order. */
  predicate Less(s: string, t: string) {
    if t == "" then false
    else if s == "" then true
    else s[0] < t[0] || (s[0] == t[0] && Less(s[1..], t[1..]))
  }

  /** The strings agree up to position `n`, and there `s` ends or has the smaller character. */
  predicate SmallerAt(s: string, t: string, n: nat) {
    n <= |s| && n < |t| && s[..n] == t[..n] && (n == |s| || s[n] < t[n])
  }

  ghost predicate ComesBefore(s: string, t: string) {
    exists n: nat :: SmallerAt(s, t, n)
  }

  /** What the order means: a proper prefix comes first, and otherwise the first difference decides. */
  lemma {:induction false} LessExact(s: string, t: string)
    ensures Less(s, t) <==> ComesBefore(s, t)
  {
    if t == "" {
    } else if s == "" || s[0] < t[0] {
      assert SmallerAt(s, t, 0);
    } else if s[0] == t[0] {
      LessExact(s[1..], t[1..]);
      forall n: nat | SmallerAt(s[1..], t[1..], n)
        ensures SmallerAt(s, t, n + 1)
      {
        assert s[..n + 1] == [s[0]] + s[1..][..n] && t[..n + 1] == [t[0]] + t[1..][..n];
      }
      forall n: nat | SmallerAt(s, t, n)
        ensures n > 0 && SmallerAt(s[1..], t[1..], n - 1)
      {
        assert n > 0;
        assert s[1..][..n - 1] == s[..n][1..] && t[1..][..n - 1] == t[..n][1..];
      }
    } else {
      forall n: nat
        ensures !SmallerAt(s, t, n)
      {
        assert n > 0 && n <= |s| && n < |t| ==> s[..n][0] != t[..n][0];
      }
    }
  }

  lemma {:induction false} LessTransitive(s: string, t: string, u: string)
    requires Less(s, t) && Less(t, u)
    ensures Less(s, u)
  {
    if s == "" || s[0] != t[0] || t[0] != u[0] {
    } else {
      LessTransitive(s[1..], t[1..], u[1..]);
    }
  }

  lemma {:induction false} LessTotal(s: string, t: string)
    ensures s == t || Less(s, t) || Less(t, s)
    ensures !Less(s, s)
  {
    if s == "" {
    } else {
      LessTotal(s[1..], if t != "" then t[1..] else "");
      if t != "" && s[0] == t[0] {
        assert s == [s[0]] + s[1..] && t == [t[0]] + t[1..];
      }
    }
  }
}
