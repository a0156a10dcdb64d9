/** The C library string routines the servers call, on Dafny strings.
    A C string is the part of a character sequence before its first NUL. */
module CStrings {

  const NUL: char := '\0'
  const CR: char := '\r'
  const LF: char := '\n'

  predicate Blank(c: char) { c == ' ' || c == '\t' }

  /** The C string stored at the front of `s`. */
  function CStr(s: string): (r: string)
    ensures r <= s && NUL !in r
    ensures |r| < |s| ==> s[|r|] == NUL
  {
    if |s| == 0 || s[0] == NUL then "" else [s[0]] + CStr(s[1..])
  }

  /** strspn(s, " \t"): how many blanks lead `s`. */
  function Span(s: string): (n: nat)
    ensures n <= |s| && (forall i | 0 <= i < n :: Blank(s[i]))
    ensures n < |s| ==> !Blank(s[n])
  {
    if |s| == 0 || !Blank(s[0]) then 0 else 1 + Span(s[1..])
  }

  function AfterBlanks(s: string): string { s[Span(s)..] }

  /** strpbrk(s, " \t"): index of the first blank, or |s| where C returns NULL. */
  function Brk(s: string): (n: nat)
    ensures n <= |s| && (forall i | 0 <= i < n :: !Blank(s[i]))
    ensures n < |s| ==> Blank(s[n])
  {
    if |s| == 0 || Blank(s[0]) then 0 else 1 + Brk(s[1..])
  }

  /** strchr(s, c): index of the first `c`, or |s| where C returns NULL. */
  function Find(s: string, c: char): (n: nat)
    ensures n <= |s| && c !in s[..n]
    ensures n < |s| ==> s[n] == c
  {
    if |s| == 0 || s[0] == c then 0 else 1 + Find(s[1..], c)
  }

  function Lower(c: char): char
  {
    if 'A' <= c <= 'Z' then (c as int + 32) as char else c
  }

  /** strcasecmp(a, b) == 0 for NUL-free strings. */
  predicate EqNoCase(a: string, b: string): (eq: bool)
    ensures eq ==> |a| == |b|
  {
    |a| == |b| && (|a| == 0 || (Lower(a[0]) == Lower(b[0]) && EqNoCase(a[1..], b[1..])))
  }

  /** strncasecmp(s, p, |p|) == 0 for a NUL-free `p`. */
  predicate StartsNoCase(s: string, p: string): (starts: bool)
    ensures starts ==> |p| <= |s|
  {
    |p| <= |s| && EqNoCase(s[..|p|], p)
  }

  predicate Digit(c: char) { '0' <= c <= '9' }

  predicate Space(c: char)
  {
    c == ' ' || '\t' <= c <= '\r'
  }

  /** The decimal digits at the front of `s`, read onto `acc`. */
  function Digits(s: string, acc: nat): nat
  {
    if |s| == 0 || !Digit(s[0]) then acc
    else Digits(s[1..], 10 * acc + (s[0] as int - '0' as int))
  }

  const INT_LIMIT: int := 0x8000_0000
  const LONG_LIMIT: int := 0x8000_0000_0000_0000

  /** The value an int holds after a conversion from a wider integer. */
  function ToInt(n: int): (r: int)
    ensures -INT_LIMIT <= r < INT_LIMIT && (-INT_LIMIT <= n < INT_LIMIT ==> r == n)
  {
    (n + INT_LIMIT) % (2 * INT_LIMIT) - INT_LIMIT
  }

  /** The number strtol finds in `s`. */
  function Number(s: string): int
  {
    if |s| == 0 then 0
    else if Space(s[0]) then Number(s[1..])
    else if s[0] == '-' then -(Digits(s[1..], 0) as int)
    else if s[0] == '+' then Digits(s[1..], 0)
    else Digits(s, 0)
  }

  /** atoi as the GNU C library has it: strtol, which stops at the limits of a long, cut
      down to an int. */
  function Atoi(s: string): (n: int)
    ensures -INT_LIMIT <= n < INT_LIMIT && (n == Number(s) <==> -INT_LIMIT <= Number(s) < INT_LIMIT)
  {
    ToInt(if Number(s) >= LONG_LIMIT then LONG_LIMIT - 1 else if Number(s) < -LONG_LIMIT then -LONG_LIMIT else Number(s))
  }

  /** A C string is fixed by where its first NUL is. */
  lemma CStrUnique(s: string, n: nat)
    requires n <= |s| && NUL !in s[..n]
    requires n < |s| ==> s[n] == NUL
    ensures CStr(s) == s[..n]
  {
    var r := CStr(s);
    assert |r| >= n;
    assert |r| <= n;
    assert r == s[..n];
  }

  lemma FindUnique(s: string, c: char, n: nat)
    requires n <= |s| && c !in s[..n]
    requires n < |s| ==> s[n] == c
    ensures Find(s, c) == n
  {
    var r := Find(s, c);
    assert r >= n;
    assert r <= n;
  }

  lemma BrkUnique(s: string, n: nat)
    requires n <= |s| && (forall i | 0 <= i < n :: !Blank(s[i]))
    requires n < |s| ==> Blank(s[n])
    ensures Brk(s) == n
  {
  }

  lemma SpanUnique(s: string, n: nat)
    requires n <= |s| && (forall i | 0 <= i < n :: Blank(s[i]))
    requires n < |s| ==> !Blank(s[n])
    ensures Span(s) == n
  {
  }

  lemma {:induction false} EqNoCaseAt(a: string, b: string, i: nat)
    requires EqNoCase(a, b) && i < |a|
    ensures Lower(a[i]) == Lower(b[i])
  {
    if i > 0 { EqNoCaseAt(a[1..], b[1..], i - 1); }
  }

  lemma {:induction false} EqNoCaseFrom(a: string, b: string)
    requires |a| == |b| && forall i | 0 <= i < |a| :: Lower(a[i]) == Lower(b[i])
    ensures EqNoCase(a, b)
  {
    if |a| > 0 { EqNoCaseFrom(a[1..], b[1..]); }
  }

  /** What strpbrk and strspn look for are spaces and tabs. */
  lemma BlanksAndTabs(s: string)
    ensures forall i | 0 <= i < Span(s) :: s[i] == ' ' || s[i] == '\t'
    ensures Span(s) < |s| ==> s[Span(s)] != ' ' && s[Span(s)] != '\t'
    ensures forall i | 0 <= i < Brk(s) :: s[i] != ' ' && s[i] != '\t'
    ensures Brk(s) < |s| ==> s[Brk(s)] == ' ' || s[Brk(s)] == '\t'
  {
  }

  /** Two characters that are one letter, or the same. */
  predicate SameLetter(a: char, b: char)
  {
    || a == b
    || ('A' <= a <= 'Z' && b as int == a as int + 'a' as int - 'A' as int)
    || ('A' <= b <= 'Z' && a as int == b as int + 'a' as int - 'A' as int)
  }

  /** strcasecmp finds equal exactly the strings that differ in the case of letters. */
  lemma EqualUpToCase(a: string, b: string)
    ensures EqNoCase(a, b) <==> |a| == |b| && forall i | 0 <= i < |a| :: SameLetter(a[i], b[i])
  {
    hide EqNoCase;
    if EqNoCase(a, b) {
      EqNoCaseLength(a, b);
      forall i | 0 <= i < |a| ensures SameLetter(a[i], b[i]) { EqNoCaseAt(a, b, i); }
    }
    if |a| == |b| && forall i | 0 <= i < |a| :: SameLetter(a[i], b[i]) {
      assert forall i | 0 <= i < |a| :: Lower(a[i]) == Lower(b[i]);
      EqNoCaseFrom(a, b);
    }
  }

  lemma EqNoCaseLength(a: string, b: string)
    requires EqNoCase(a, b)
    ensures |a| == |b|
  {
  }

  /** Where atoi does not give the number it reads: beyond a long it gives what an int
      keeps of the limit, and in between what it keeps of the number. */
  lemma AtoiBeyond(s: string)
    ensures Number(s) >= LONG_LIMIT ==> Atoi(s) == -1
    ensures Number(s) < -LONG_LIMIT ==> Atoi(s) == 0
    ensures -LONG_LIMIT <= Number(s) < LONG_LIMIT ==> (Number(s) - Atoi(s)) % (2 * INT_LIMIT) == 0
  {
    hide Number;
    Kept(Number(s));
  }

  lemma Kept(n: int)
    ensures (n - ToInt(n)) % (2 * INT_LIMIT) == 0
  {
    var w := 2 * INT_LIMIT;
    assert n - ToInt(n) == (n + INT_LIMIT) / w * w;
  }

  lemma {:induction false} DigitsStop(s: string, rest: string, acc: nat)
    requires (forall i | 0 <= i < |s| :: Digit(s[i])) && (|rest| == 0 || !Digit(rest[0]))
    ensures Digits(s + rest, acc) == Digits(s, acc)
  {
    if |s| == 0 {
      assert s + rest == rest;
    } else {
      assert (s + rest)[1..] == s[1..] + rest;
      DigitsStop(s[1..], rest, 10 * acc + (s[0] as int - '0' as int));
    }
  }

  /** A prefix match fixes every character of the prefix but for case. */
  lemma StartsNoCaseAt(s: string, p: string, i: nat)
    requires StartsNoCase(s, p) && i < |p|
    ensures Lower(s[i]) == Lower(p[i])
  {
    EqNoCaseAt(s[..|p|], p, i);
  }
}
