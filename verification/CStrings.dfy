/** The C string library, as far as the server uses it, on NUL-terminated memory.
    Memory is a sequence of characters; a string is what lies before its NUL. */
module CStrings {
  const NUL: char := '\0'

  /** The string stored in memory at index i. */
  function StrAt(mem: string, i: nat): (r: string)
    requires i <= |mem|
    ensures i + |r| <= |mem|
    decreases |mem| - i
  {
    if i == |mem| || mem[i] == NUL then "" else [mem[i]] + StrAt(mem, i + 1)
  }

  lemma {:induction false} StrAtFacts(mem: string, i: nat)
    requires i <= |mem|
    ensures var r := StrAt(mem, i);
            && mem[i..i + |r|] == r && NUL !in r
            && (i + |r| < |mem| ==> mem[i + |r|] == NUL)
    decreases |mem| - i
  {
    if i == |mem| || mem[i] == NUL {
    } else {
      StrAtFacts(mem, i + 1);
    }
  }

  lemma StrAtHead(mem: string, i: nat)
    requires i <= |mem|
    ensures StrAt(mem, i) != "" ==> i < |mem| && StrAt(mem, i)[0] == mem[i]
  {
  }

  /** The only NUL-free text that is followed by NUL (or the end of memory). */
  lemma {:induction false} StrAtUnique(mem: string, i: nat, t: string)
    requires i + |t| <= |mem| && mem[i..i + |t|] == t && NUL !in t
    requires i + |t| < |mem| ==> mem[i + |t|] == NUL
    ensures StrAt(mem, i) == t
    decreases |t|
  {
    if t == [] {
    } else {
      assert mem[i] == mem[i..i + |t|][0] == t[0] && t[0] in t;
      assert mem[i + 1..i + 1 + |t[1..]|] == mem[i..i + |t|][1..] == t[1..];
      StrAtUnique(mem, i + 1, t[1..]);
    }
  }

  /** Writing memory beyond a string's NUL leaves the string alone. */
  lemma StrAtFrame(mem: string, mem': string, i: nat)
    requires i <= |mem| && |mem| == |mem'|
    requires i + |StrAt(mem, i)| < |mem|
    requires forall j {:trigger mem'[j]} :: i <= j <= i + |StrAt(mem, i)| ==> mem'[j] == mem[j]
    ensures StrAt(mem', i) == StrAt(mem, i)
  {
    var t := StrAt(mem, i);
    StrAtFacts(mem, i);
    assert mem'[i..i + |t|] == mem[i..i + |t|];
    StrAtUnique(mem', i, t);
  }

  /** The tail of a string is the string stored at the later index. */
  lemma {:induction false} StrAtTail(mem: string, i: nat, k: nat)
    requires i <= |mem| && k <= |StrAt(mem, i)|
    ensures StrAt(mem, i + k) == StrAt(mem, i)[k..]
    decreases k
  {
    if k == 0 {
    } else {
      StrAtTail(mem, i + 1, k - 1);
    }
  }

  /** A whole sequence read as a C string: what lies before its first NUL. */
  function CStr(s: string): (r: string)
    ensures |r| <= |s|
  {
    StrAt(s, 0)
  }

  /** The string at i, if a NUL is known to lie at end: the same text, cut out first. */
  lemma StrAtIsSliceText(mem: string, i: nat, end: nat)
    requires i <= end < |mem| && mem[end] == NUL
    ensures StrAt(mem, i) == CStr(mem[i..end]) && i + |StrAt(mem, i)| <= end
  {
    var line := mem[i..end];
    var t := CStr(line);
    StrAtFacts(line, 0);
    assert mem[i..i + |t|] == line[..|t|];
    StrAtUnique(mem, i, t);
  }

  predicate IsBlank(c: char) { c == ' ' || c == '\t' }

  predicate NotBlank(c: char) { !IsBlank(c) }

  predicate IsSlash(c: char) { c == '/' }

  /** Index of the first character that p accepts, or |s|: strpbrk, strspn and strchr. */
  function IndexOf(s: string, p: char -> bool): (k: nat)
    ensures k <= |s|
    ensures k < |s| ==> p(s[k])
    ensures forall j :: 0 <= j < k ==> !p(s[j])
  {
    if s == [] || p(s[0]) then 0 else 1 + IndexOf(s[1..], p)
  }

  lemma {:induction false} IndexOfUnique(s: string, p: char -> bool, k: nat)
    requires k <= |s| && (k < |s| ==> p(s[k])) && forall j :: 0 <= j < k ==> !p(s[j])
    ensures IndexOf(s, p) == k
  {
    if s == [] || p(s[0]) {
    } else {
      IndexOfUnique(s[1..], p, k - 1);
    }
  }

  /** Index of the last '/', or -1: strrchr. */
  function LastSlash(s: string): (k: int)
    ensures -1 <= k < |s|
    ensures k >= 0 ==> s[k] == '/'
    ensures forall j :: k < j < |s| ==> s[j] != '/'
  {
    if s == [] then -1
    else if s[|s| - 1] == '/' then |s| - 1
    else LastSlash(s[..|s| - 1])
  }

  function Lower(c: char): char { if 'A' <= c <= 'Z' then (c as int + 32) as char else c }

  /** strcasecmp(a, b) == 0 */
  predicate SameIgnoringCase(a: string, b: string): (same: bool)
    ensures same ==> |a| == |b|
  {
    |a| == |b| && forall i :: 0 <= i < |a| ==> Lower(a[i]) == Lower(b[i])
  }

  /** strncasecmp(s, prefix, |prefix|) == 0 */
  predicate HasPrefixIgnoringCase(s: string, prefix: string): (has: bool)
    ensures has ==> |prefix| <= |s|
  {
    |prefix| <= |s| && SameIgnoringCase(s[..|prefix|], prefix)
  }

  lemma FirstDiffers(a: string, b: string)
    requires a != "" && b != "" && Lower(a[0]) != Lower(b[0])
    ensures !SameIgnoringCase(a, b) && !HasPrefixIgnoringCase(a, b)
  {
  }

  /** What follows the first blanks. */
  function SkipBlanks(s: string): string { s[IndexOf(s, NotBlank)..] }

  // ----- atol, and its conversion to a 32-bit int

  const LONG_MAX: int := 0x7fff_ffff_ffff_ffff
  const INT_MAX: int := 0x7fff_ffff

  predicate IsSpace(c: char) { c == ' ' || '\t' <= c <= '\r' }

  predicate NotSpace(c: char) { !IsSpace(c) }

  predicate IsDigit(c: char) { '0' <= c <= '9' }

  /** Value of the leading digits of s, read after the digits that gave acc. */
  function DigitsValue(s: string, acc: nat): nat {
    if s == [] || !IsDigit(s[0]) then acc
    else DigitsValue(s[1..], 10 * acc + (s[0] as int - '0' as int))
  }

  /** atol: leading space, an optional sign, digits; saturating at the range of a 64-bit long. */
  function Atol(s: string): int {
    var t := s[IndexOf(s, NotSpace)..];
    if t != [] && t[0] == '-' then
      var v: int := DigitsValue(t[1..], 0);
      if v > LONG_MAX + 1 then -LONG_MAX - 1 else -v
    else
      var v: int := DigitsValue(if t != [] && t[0] == '+' then t[1..] else t, 0);
      if v > LONG_MAX then LONG_MAX else v
  }

  /** Storing a long in a 32-bit int keeps its low 32 bits. */
  function ToInt32(n: int): (r: int)
    ensures -INT_MAX - 1 <= r <= INT_MAX
    ensures -INT_MAX - 1 <= n <= INT_MAX ==> r == n
    ensures (n - r) % 0x1_0000_0000 == 0
  {
    var m := n % 0x1_0000_0000;
    if m > INT_MAX then m - 0x1_0000_0000 else m
  }

  /** %d on a non-negative number */
  function Decimal(n: nat): (s: string)
    ensures |s| > 0 && forall i :: 0 <= i < |s| ==> IsDigit(s[i])
  {
    if n < 10 then [('0' as int + n) as char]
    else Decimal(n / 10) + [('0' as int + n % 10) as char]
  }

  /** %d */
  function SignedDecimal(n: int): string {
    if n < 0 then "-" + Decimal(-n) else Decimal(n)
  }

  lemma {:induction false} DigitsValueAppend(s: string, c: char, acc: nat)
    requires forall i :: 0 <= i < |s| ==> IsDigit(s[i])
    requires IsDigit(c)
    ensures DigitsValue(s + [c], acc) == 10 * DigitsValue(s, acc) + (c as int - '0' as int)
  {
    if s == [] {
      assert (s + [c])[1..] == [];
    } else {
      assert (s + [c])[1..] == s[1..] + [c];
      DigitsValueAppend(s[1..], c, 10 * acc + (s[0] as int - '0' as int));
    }
  }

  lemma {:induction false} DecimalValue(n: nat)
    ensures DigitsValue(Decimal(n), 0) == n
  {
    if n >= 10 {
      DecimalValue(n / 10);
      DigitsValueAppend(Decimal(n / 10), ('0' as int + n % 10) as char, 0);
    } else {
      assert Decimal(n)[1..] == [];
    }
  }

  /** Reading a printed 32-bit number gives it back. */
  lemma PrintedNumberReadBack(n: int)
    requires -INT_MAX - 1 <= n <= INT_MAX
    ensures ToInt32(Atol(SignedDecimal(n))) == n
    ensures SkipBlanks(SignedDecimal(n)) == SignedDecimal(n)
    ensures NUL !in SignedDecimal(n) && '\r' !in SignedDecimal(n) && '\n' !in SignedDecimal(n)
  {
    var s := SignedDecimal(n);
    var d := Decimal(if n < 0 then -n else n);
    DecimalValue(if n < 0 then -n else n);
    assert forall c :: c in s ==> c == '-' || IsDigit(c) by {
      assert forall c :: c in d ==> IsDigit(c);
    }
    assert NotSpace(s[0]) && NotBlank(s[0]);
    IndexOfUnique(s, NotSpace, 0);
    IndexOfUnique(s, NotBlank, 0);
    assert s[0..] == s;
    if n < 0 {
      assert s[1..] == d;
    } else {
      assert IsDigit(s[0]);
    }
  }
}
