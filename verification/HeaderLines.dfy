/** What single header lines mean, said by their parts: names without regard to case, blanks, values. */
module HeaderLines {
  import opened Wrappers
  import opened CStrings
  import opened RequestMachine

  /** Two characters are the same without regard to case: equal, or an upper-case letter and its lower-case
      one, 32 places on. */
  lemma CaseFolds(a: char, b: char)
    ensures SameIgnoringCase([a], [b]) <==>
            || a == b
            || ('A' <= a <= 'Z' && b as int == a as int + 32)
            || ('A' <= b <= 'Z' && a as int == b as int + 32)
  {
    assert [a][0] == a && [b][0] == b;
  }

  predicate Blanks(t: string) { forall i :: 0 <= i < |t| ==> t[i] == ' ' || t[i] == '\t' }

  predicate StartsUnblank(t: string) { t != "" ==> t[0] != ' ' && t[0] != '\t' }

  /** A line of a name, blanks and a value. */
  lemma ValueBehind(name: string, gap: string, value: string)
    requires Blanks(gap) && StartsUnblank(value)
    ensures var line := name + gap + value;
            line[..|name|] == name && SkipBlanks(line[|name|..]) == value
  {
    var line := name + gap + value;
    var t := line[|name|..];
    assert t == gap + value;
    IndexOfUnique(t, NotBlank, |gap|);
    assert t[|gap|..] == value;
  }

  lemma NamesDiffer(line: string)
    ensures !(HasPrefixIgnoringCase(line, "Connection:") && HasPrefixIgnoringCase(line, "Content-length:"))
    ensures !(HasPrefixIgnoringCase(line, "Connection:") && HasPrefixIgnoringCase(line, "Host:"))
    ensures !(HasPrefixIgnoringCase(line, "Content-length:") && HasPrefixIgnoringCase(line, "Host:"))
  {
    At(line, "Connection:", 3);
    At(line, "Content-length:", 3);
    At(line, "Connection:", 0);
    At(line, "Content-length:", 0);
    At(line, "Host:", 0);
    hide HasPrefixIgnoringCase;
  }

  lemma At(line: string, prefix: string, k: nat)
    requires k < |prefix|
    ensures HasPrefixIgnoringCase(line, prefix) ==> |line| > k && Lower(line[k]) == Lower(prefix[k])
  {
    if HasPrefixIgnoringCase(line, prefix) {
      assert line[..|prefix|][k] == line[k];
    }
  }

  lemma ConnectionLine(name: string, gap: string, value: string, req: Request)
    requires SameIgnoringCase(name, "Connection:") && Blanks(gap) && StartsUnblank(value)
    ensures ParseHeader(name + gap + value, req)
         == if SameIgnoringCase(value, "keep-alive") then req.(linger := true) else req
  {
    hide SameIgnoringCase, SkipBlanks;
    ValueBehind(name, gap, value);
  }

  lemma LengthLine(name: string, gap: string, value: string, req: Request)
    requires SameIgnoringCase(name, "Content-length:") && Blanks(gap) && StartsUnblank(value)
    ensures ParseHeader(name + gap + value, req) == req.(contentLength := ToInt32(Atol(value)))
  {
    hide SameIgnoringCase, SkipBlanks, Atol, ToInt32;
    ValueBehind(name, gap, value);
    NamesDiffer(name + gap + value);
  }

  lemma HostLine(name: string, gap: string, value: string, req: Request)
    requires SameIgnoringCase(name, "Host:") && Blanks(gap) && StartsUnblank(value)
    ensures ParseHeader(name + gap + value, req) == req.(host := Some(value))
  {
    hide SameIgnoringCase, SkipBlanks, Atol, ToInt32;
    ValueBehind(name, gap, value);
    NamesDiffer(name + gap + value);
  }

  /** Any other line changes nothing. */
  lemma OtherLine(line: string, req: Request)
    requires |line| >= 11 ==> !SameIgnoringCase(line[..11], "Connection:")
    requires |line| >= 15 ==> !SameIgnoringCase(line[..15], "Content-length:")
    requires |line| >= 5 ==> !SameIgnoringCase(line[..5], "Host:")
    ensures ParseHeader(line, req) == req
  {
    hide SameIgnoringCase;
    assert |CONNECTION| == 11 && |CONTENT_LENGTH| == 15 && |HOST| == 5;
  }

  // ----- numbers

  predicate Digits(t: string) { forall i :: 0 <= i < |t| ==> '0' <= t[i] <= '9' }

  /** The number that digits write in base ten. */
  function Value(d: string): nat
    requires Digits(d)
  {
    if d == "" then 0 else 10 * Value(d[..|d| - 1]) + (d[|d| - 1] as int - '0' as int)
  }

  lemma {:induction false} DigitsAreValue(d: string)
    requires Digits(d)
    ensures DigitsValue(d, 0) == Value(d)
  {
    if d == "" {
    } else {
      var front := d[..|d| - 1];
      DigitsAreValue(front);
      assert d == front + [d[|d| - 1]];
      DigitsValueAppend(front, d[|d| - 1], 0);
    }
  }

  lemma {:induction false} DigitsStop(d: string, rest: string, acc: nat)
    requires Digits(d) && (rest != "" ==> !('0' <= rest[0] <= '9'))
    ensures DigitsValue(d + rest, acc) == DigitsValue(d, acc)
  {
    if d == "" {
      assert d + rest == rest;
    } else {
      assert (d + rest)[1..] == d[1..] + rest;
      DigitsStop(d[1..], rest, 10 * acc + (d[0] as int - '0' as int));
    }
  }

  predicate Spaces(t: string) { forall i :: 0 <= i < |t| ==> t[i] == ' ' || 9 <= t[i] as int <= 13 }

  /** The nearest number in the range of 64 bits. */
  function Nearest(v: int): int {
    if v > 9_223_372_036_854_775_807 then 9_223_372_036_854_775_807
    else if v < -9_223_372_036_854_775_808 then -9_223_372_036_854_775_808
    else v
  }

  function Signed(sign: string, v: int): int { if sign == "-" then -v else v }

  /** atol: leading space, at most one sign, and the digits up to anything else. */
  lemma AtolReads(space: string, sign: string, d: string, rest: string)
    requires Spaces(space) && sign in ["", "+", "-"] && Digits(d)
    requires rest != "" ==> !('0' <= rest[0] <= '9')
    requires sign == "" && d == "" && rest != "" ==> !Spaces(rest[..1]) && rest[0] != '-' && rest[0] != '+'
    ensures Atol(space + sign + d + rest) == Nearest(Signed(sign, Value(d)))
  {
    hide DigitsValue, Value, Spaces, NotSpace, Atol, Nearest;
    var t := sign + d + rest;
    FirstIsNoSpace(sign, d, rest);
    AtolSkips(space, t);
    assert space + sign + d + rest == space + t;
    AtolOf(t);
    DigitsAreValue(d);
    DigitsStop(d, rest, 0);
    if sign == "" {
      assert t == d + rest;
    } else {
      assert t[1..] == d + rest && t[0] == sign[0];
    }
  }

  lemma AtolOf(t: string)
    requires t != "" ==> NotSpace(t[0])
    ensures Atol(t) ==
            if t != "" && t[0] == '-' then Nearest(Signed("-", DigitsValue(t[1..], 0)))
            else Nearest(Signed("", DigitsValue(if t != "" && t[0] == '+' then t[1..] else t, 0)))
  {
    hide DigitsValue;
    IndexOfUnique(t, NotSpace, 0);
    assert t[0..] == t;
  }

  lemma AtolSkips(space: string, t: string)
    requires (space == "" || Spaces(space)) && (t != "" ==> NotSpace(t[0]))
    ensures Atol(space + t) == Atol(t) && IndexOf(t, NotSpace) == 0 && t[0..] == t
  {
    hide DigitsValue;
    var s := space + t;
    IndexOfUnique(s, NotSpace, |space|);
    IndexOfUnique(t, NotSpace, 0);
    assert s[|space|..] == t && t[0..] == t;
  }

  lemma FirstIsNoSpace(sign: string, d: string, rest: string)
    requires sign in ["", "+", "-"] && Digits(d)
    requires sign == "" && d == "" && rest != "" ==> !Spaces(rest[..1])
    ensures var t := sign + d + rest; t != "" ==> NotSpace(t[0])
  {
    var t := sign + d + rest;
    if sign != "" {
      assert t[0] == sign[0];
    } else if d != "" {
      assert t[0] == d[0];
    } else if rest != "" {
      assert t[0] == rest[0] && rest[..1] == [rest[0]];
    }
  }
}
