/** Requests whose head is still open. Some can never be answered: parse_line has found a bad line, which
    process_read answers with NO_REQUEST for ever, or the head can only end in front of a body for which
    the buffer has no room. */
module OpenHeads {
  import opened Wrappers
  import opened CStrings
  import opened RequestMachine
  import opened RequestGrammar
  import opened Rendering
  import opened Fragmentation

  /** What lies behind the complete lines. */
  function Remainder(s: string): string
    decreases |s|
  {
    if HasLine(s) then Remainder(s[BreakAt(s) + 2..]) else s
  }

  /** A LF on its own, or a CR followed by another byte than LF. */
  predicate BadBreak(w: string) {
    var k := BreakAt(w);
    k < |w| && !HasLine(w) && (w[k] == LF || k + 1 < |w|)
  }

  /** The first break behind the complete lines can never end a line. */
  predicate Wedged(s: string) { BadBreak(Remainder(s)) }

  lemma NoLineInRemainder(s: string)
    ensures !HasLine(Remainder(s))
    decreases |s|
  {
    if HasLine(s) { NoLineInRemainder(s[BreakAt(s) + 2..]); }
  }

  lemma JoinedThree(a: seq<string>, b: seq<string>, c: seq<string>)
    ensures a + (b + c) == a + b + c
  {
  }

  /** Later bytes join the remainder. */
  lemma {:induction false} SplitRemainder(s: string, t: string)
    ensures Split(s + t) == Split(s) + Split(Remainder(s) + t)
    decreases |s|
  {
    hide BreakAt, HasLine;
    if HasLine(s) {
      LineExtends(s, t);
      var k := BreakAt(s);
      assert (s + t)[..k] == s[..k];
      assert (s + t)[k + 2..] == s[k + 2..] + t;
      var rest := s[k + 2..];
      SplitRemainder(rest, t);
      assert Split(s + t) == [s[..k]] + Split(rest + t);
      assert Split(s) == [s[..k]] + Split(rest) && Remainder(s) == Remainder(rest);
      hide Split, Remainder;
      JoinedThree([s[..k]], Split(rest), Split(Remainder(rest) + t));
    } else {
      assert Split(s) == [];
      assert [] + Split(s + t) == Split(s + t);
    }
  }

  lemma BadBreakStays(w: string, t: string)
    requires BadBreak(w)
    ensures Split(w + t) == []
  {
    var k := BreakAt(w);
    IndexOfUnique(w + t, IsBreak, k);
    assert (w + t)[k] == w[k] && (k + 1 < |w| ==> (w + t)[k + 1] == w[k + 1]);
  }

  /** The head stays open as it is, whatever follows. */
  lemma WedgedStaysOpen(s: string, t: string)
    requires ParseHead(s).NoHead? && Wedged(s)
    ensures ParseHead(s + t).NoHead? && ParseWhole(s + t).NoRequest?
  {
    hide ParseWhole, ParseRequestLine, CStr, FirstEmpty, Summary, BadBreak, Split, Remainder;
    SplitRemainder(s, t);
    BadBreakStays(Remainder(s), t);
    assert Split(s) + [] == Split(s);
    HeadReached(s + t);
  }

  // ----- how an open head can end

  /** What ends the line in the remainder. */
  function LineEnd(w: string): string { if w != "" && w[|w| - 1] == CR then [LF] else CRLF }

  /** The line in the remainder, as far as it has come. */
  function LastText(w: string): string { if w != "" && w[|w| - 1] == CR then w[..|w| - 1] else w }

  /** The line in the remainder is the empty one that ends the head, whatever follows. */
  predicate EndsHead(s: string) {
    Split(s) != [] && Remainder(s) != "" && CStr(LastText(Remainder(s))) == ""
  }

  /** The length that the headers so far announce. */
  function Announced(s: string): int { if Split(s) == [] then 0 else Summary(Get, "", Split(s)[1..]).contentLength }

  /** The earliest end of the announced body. */
  function EarliestEnd(s: string): int { |s| + |LineEnd(Remainder(s))| + Announced(s) }

  /** The body is sure to end behind the buffer. */
  predicate TooLong(s: string) {
    EndsHead(s) && 0 < Announced(s) <= INT_MAX - READ_BUFFER_SIZE && EarliestEnd(s) > READ_BUFFER_SIZE
  }

  /** The body's length, or its end in the buffer's last byte, has no defined meaning. */
  predicate NoDefinedEnd(s: string) {
    EndsHead(s) && (Announced(s) < 0 || Announced(s) > INT_MAX - READ_BUFFER_SIZE
                    || (Announced(s) > 0 && EarliestEnd(s) == READ_BUFFER_SIZE))
  }

  lemma LastTextHasNoBreak(w: string)
    requires !HasLine(w) && !BadBreak(w)
    ensures CR !in LastText(w) && LF !in LastText(w) && w + LineEnd(w) == LastText(w) + CRLF
  {
    var k := BreakAt(w);
    assert k < |w| ==> k == |w| - 1 && w[k] == CR;
    assert forall j :: 0 <= j < k ==> !IsBreak(w[j]);
    assert CRLF == [CR] + [LF];
    if k < |w| {
      assert w == w[..k] + [CR];
    }
  }

  /** Ending the line and going on with complete lines. */
  lemma LineEnds(s: string, t: string)
    requires !Wedged(s)
    ensures var w := Remainder(s); Split(s + (LineEnd(w) + t)) == Split(s) + ([LastText(w)] + Split(t))
  {
    hide BadBreak, Split, LineEnd, LastText;
    var w := Remainder(s);
    SplitRemainder(s, LineEnd(w) + t);
    NoLineInRemainder(s);
    LastTextHasNoBreak(w);
    assert w + (LineEnd(w) + t) == LastText(w) + CRLF + t;
    SplitFirst(LastText(w), t);
  }

  lemma {:induction false} ExtentOfLines(s: string)
    ensures Extent(Split(s)) + |Remainder(s)| == |s|
    decreases |s|
  {
    if HasLine(s) {
      var rest := s[BreakAt(s) + 2..];
      ExtentOfLines(rest);
      assert ([s[..BreakAt(s)]] + Split(rest))[1..] == Split(rest);
    } else {
      assert Split(s) == [] && Remainder(s) == s;
    }
  }

  lemma {:induction false} ExtentJoins(a: seq<string>, line: string)
    ensures Extent(a + [line]) == Extent(a) + |line| + 2
  {
    if a == [] {
      assert (a + [line])[1..] == [];
    } else {
      assert (a + [line])[1..] == a[1..] + [line];
      ExtentJoins(a[1..], line);
    }
  }

  lemma {:induction false} FirstEmptyIs(lines: seq<string>, k: nat)
    requires k < |lines| && CStr(lines[k]) == "" && forall j :: 0 <= j < k ==> CStr(lines[j]) != ""
    ensures FirstEmpty(lines) == k
  {
    if k == 0 {
      assert CStr(lines[0]) == "";
    } else {
      FirstEmptyIs(lines[1..], k - 1);
    }
  }

  /** The request line of an open head was accepted, and no header line is empty. */
  lemma OpenHeadLines(s: string)
    requires ParseHead(s).NoHead? && Split(s) != []
    ensures ParseRequestLine(CStr(Split(s)[0])).Some?
    ensures forall j :: 0 <= j < |Split(s)| - 1 ==> CStr(Split(s)[1..][j]) != ""
  {
    hide ParseRequestLine, CStr, Split, Summary, Extent;
  }

  /** An accepted request line, headers and an empty line make a head. */
  lemma HeadOfLines(s: string, headers: seq<string>, empty: string, more: seq<string>)
    requires Split(s) != [] && Split(s)[1..] == headers + ([empty] + more)
    requires ParseRequestLine(CStr(Split(s)[0])).Some?
    requires CStr(empty) == "" && forall j :: 0 <= j < |headers| ==> CStr(headers[j]) != ""
    ensures var target := ParseRequestLine(CStr(Split(s)[0])).value;
            ParseHead(s) == HeadDone(Summary(target.0, target.1, headers), Extent([Split(s)[0]] + headers + [empty]))
  {
    hide ParseRequestLine, CStr, Split, Summary, Extent;
    var lines := Split(s);
    var rest := lines[1..];
    assert forall j :: 0 <= j < |headers| ==> rest[j] == headers[j];
    assert rest[|headers|] == empty;
    FirstEmptyIs(rest, |headers|);
    assert lines[1..1 + |headers|] == headers;
    assert lines == [lines[0]] + rest;
    assert lines[..|headers| + 2] == [lines[0]] + headers + [empty];
  }

  lemma LengthOfSummary(verb: Method, url: string, headers: seq<string>)
    ensures Summary(verb, url, headers).contentLength == Summary(Get, "", headers).contentLength
  {
  }

  // ----- heads that end in a line already begun

  /** A line that begins as the remainder does is empty if the remainder's is. */
  lemma StillEmpty(w: string, t: string)
    requires w != "" && !HasLine(w) && !BadBreak(w) && CStr(LastText(w)) == "" && HasLine(w + t)
    ensures var line := (w + t)[..BreakAt(w + t)];
            CStr(line) == "" && |line| + 2 >= |w| + |LineEnd(w)|
  {
    LastTextHasNoBreak(w);
    var k := BreakAt(w);
    if k < |w| {
      IndexOfUnique(w + t, IsBreak, k);
      assert (w + t)[..k] == w[..k] == LastText(w);
    } else {
      var m := BreakAt(w + t);
      assert forall j :: 0 <= j < |w| ==> (w + t)[j] == w[j] && !IsBreak(w[j]);
      assert m >= |w|;
      assert (w + t)[..m][0] == w[0] && LastText(w) == w;
    }
  }

  /** The empty line found. */
  lemma CommittedLine(s: string, t: string) returns (line: string, more: seq<string>)
    requires EndsHead(s) && !Wedged(s) && HasLine(Remainder(s) + t)
    ensures Split(s + t) == Split(s) + ([line] + more) && CStr(line) == ""
    ensures |line| + 2 >= |Remainder(s)| + |LineEnd(Remainder(s))|
  {
    hide CStr, BadBreak, LineEnd, LastText, Remainder, Split;
    var w := Remainder(s);
    SplitRemainder(s, t);
    NoLineInRemainder(s);
    StillEmpty(w, t);
    line := (w + t)[..BreakAt(w + t)];
    more := Split((w + t)[BreakAt(w + t) + 2..]);
    SplitFirstLine(w + t);
  }

  /** Wherever such a head ends, the announced length is that of the headers so far. */
  lemma CommittedHead(s: string, t: string)
    requires ParseHead(s).NoHead? && EndsHead(s) && !Wedged(s) && !ParseHead(s + t).NoHead?
    ensures var h := ParseHead(s + t);
            && h.HeadDone? && h.req.contentLength == Announced(s)
            && h.bodyStart >= |s| + |LineEnd(Remainder(s))|
  {
    hide ParseHead, ParseRequestLine, CStr, Summary, Wedged, LineEnd, LastText, Extent, Split, Remainder, HasLine;
    SplitRemainder(s, t);
    SplitFirstLine(Remainder(s) + t);
    var lines := Split(s);
    if HasLine(Remainder(s) + t) {
      var line, more := CommittedLine(s, t);
      OpenHeadLines(s);
      assert Split(s + t)[0] == lines[0] && Split(s + t)[1..] == lines[1..] + ([line] + more);
      HeadOfLines(s + t, lines[1..], line, more);
      assert [lines[0]] + lines[1..] == lines;
      ExtentJoins(lines, line);
      ExtentOfLines(s);
      var target := ParseRequestLine(CStr(lines[0])).value;
      LengthOfSummary(target.0, target.1, lines[1..]);
    } else {
      assert lines + [] == lines;
      SameLinesSameHead(s, s + t);
    }
  }

  lemma SameLinesSameHead(s: string, u: string)
    requires Split(s) == Split(u)
    ensures ParseHead(s) == ParseHead(u)
  {
  }

  /** Ending the line at once ends the head there. */
  lemma CommittedHeadEnds(s: string)
    requires ParseHead(s).NoHead? && EndsHead(s) && !Wedged(s)
    ensures var h := ParseHead(s + LineEnd(Remainder(s)));
            && h.HeadDone? && h.req.contentLength == Announced(s)
            && h.bodyStart == |s| + |LineEnd(Remainder(s))|
  {
    hide ParseHead, ParseRequestLine, CStr, Summary, BadBreak, LineEnd, LastText, Extent, FirstEmpty,
         Remainder, Split, Wedged;
    var e := LineEnd(Remainder(s));
    var lines := Split(s);
    var empty := LastText(Remainder(s));
    OpenHeadLines(s);
    LineEnds(s, "");
    assert e + "" == e;
    assert Split("") == [] by { NothingLeft(); }
    assert Split(s + e)[0] == lines[0] && Split(s + e)[1..] == lines[1..] + ([empty] + []);
    HeadOfLines(s + e, lines[1..], empty, []);
    CommittedHead(s, e);
    HeadFits(s + e);
  }

  lemma NothingLeft()
    ensures Split("") == []
  {
  }

  lemma {:induction false} ExtentOfFront(s: string, n: nat)
    requires n <= |Split(s)|
    ensures Extent(Split(s)[..n]) <= |s|
    decreases n
  {
    if n == 0 {
      assert Split(s)[..0] == [];
    } else {
      var rest := s[BreakAt(s) + 2..];
      ExtentOfFront(rest, n - 1);
      assert Split(s)[..n][1..] == Split(rest)[..n - 1];
    }
  }

  lemma HeadFits(s: string)
    requires ParseHead(s).HeadDone?
    ensures ParseHead(s).bodyStart <= |s|
  {
    hide ParseRequestLine, Split, Summary, FirstEmpty, CStr;
    var lines := Split(s);
    ExtentOfFront(s, FirstEmpty(lines[1..]) + 2);
  }

  // ----- heads that can still get another header

  /** Ends the line, if one has begun, announces no body, and ends the head. */
  function NoBody(w: string): string {
    (if w == "" then "" else LineEnd(w)) + (LengthHeader(0) + CRLF + ("" + CRLF + ""))
  }

  lemma NoBodyIsShort(w: string)
    ensures |NoBody(w)| <= 23
  {
    assert Decimal(0) == "0";
  }

  lemma NoBodyLines(s: string)
    requires !Wedged(s)
    ensures var w := Remainder(s);
            Split(s + NoBody(w)) == Split(s) + ((if w == "" then [] else [LastText(w)]) + [LengthHeader(0), ""])
  {
    hide LengthHeader, Split, Remainder, Wedged, LineEnd, LastText, IsField, FieldValue, Atol, ToInt32, IsLineText;
    var w := Remainder(s);
    var t := LengthHeader(0) + CRLF + ("" + CRLF + "");
    TwoLines();
    if w == "" {
      SplitRemainder(s, t);
      assert NoBody(w) == t && w + t == t;
      assert [] + [LengthHeader(0), ""] == [LengthHeader(0), ""];
    } else {
      LineEnds(s, t);
    }
  }

  lemma TwoLines()
    ensures Split(LengthHeader(0) + CRLF + ("" + CRLF + "")) == [LengthHeader(0), ""]
  {
    hide LengthHeader, Split, IsField, FieldValue, Atol, ToInt32;
    LengthHeaderReadBack(0);
    EmptyLineText();
    SplitLine(LengthHeader(0), "" + CRLF + "");
    SplitLine("", "");
    NothingLeft();
    assert [LengthHeader(0)] + ([""] + []) == [LengthHeader(0), ""];
  }

  /** The last length wins. */
  lemma LastLengthWins(headers: seq<string>)
    ensures Summary(Get, "", headers + [LengthHeader(0)]).contentLength == 0
  {
    hide LengthHeader, IsField, FieldValue, Atol, ToInt32;
    LengthHeaderReadBack(0);
    var all := headers + [LengthHeader(0)];
    assert all[|all| - 1] == LengthHeader(0);
  }

  /** The lines between the request line and the empty one, and the empty one, are as HeadOfLines wants. */
  lemma NoBodyHead(s: string)
    requires ParseHead(s).NoHead? && !EndsHead(s) && !Wedged(s)
    ensures var h := ParseHead(s + NoBody(Remainder(s)));
            h.BadHead? || (h.HeadDone? && h.req.contentLength == 0)
  {
    hide ParseHead, ParseRequestLine, Summary, Remainder, Split, Wedged, LengthHeader, LastText, NoBody,
         Extent, FirstEmpty, IsField, FieldValue, Atol, ToInt32, CStr;
    var u := s + NoBody(Remainder(s));
    var lines := Split(s);
    NoBodyLines(s);
    HeaderHasText();
    var w := Remainder(s);
    if lines == [] {
      FirstLineHead(u);
    } else {
      OpenHeadLines(s);
      var headers := lines[1..] + (if w == "" then [] else [LastText(w)]);
      assert Split(u)[0] == lines[0] && Split(u)[1..] == headers + [LengthHeader(0)] + ([""] + []);
      assert forall j :: 0 <= j < |headers| ==> CStr(headers[j]) != "";
      HeadOfLines(u, headers + [LengthHeader(0)], "", []);
      LastLengthWins(headers);
      var target := ParseRequestLine(CStr(lines[0])).value;
      LengthOfSummary(target.0, target.1, headers + [LengthHeader(0)]);
    }
  }

  lemma HeaderHasText()
    ensures CStr(LengthHeader(0)) != "" && CStr("") == ""
  {
    hide IsField, FieldValue, Atol, ToInt32, LengthHeader, CStr;
    LengthHeaderReadBack(0);
    LineTextIsItsText(LengthHeader(0));
    LineTextIsItsText("");
  }

  /** Nothing but a first line before the announcement. */
  lemma FirstLineHead(u: string)
    requires Split(u) == [LengthHeader(0), ""] || (|Split(u)| == 3 && Split(u)[1..] == [LengthHeader(0), ""])
    ensures var h := ParseHead(u); h.BadHead? || (h.HeadDone? && h.req.contentLength == 0)
  {
    hide ParseHead, ParseRequestLine, Summary, Split, LengthHeader, Extent, FirstEmpty, CStr;
    HeaderHasText();
    var lines := Split(u);
    if ParseRequestLine(CStr(lines[0])) == None {
      FirstLineBad(u);
    } else {
      var headers := if |lines| == 2 then [] else [LengthHeader(0)];
      assert lines[1..] == headers + ([""] + []);
      HeadOfLines(u, headers, "", []);
      var target := ParseRequestLine(CStr(lines[0])).value;
      LengthOfSummary(target.0, target.1, headers);
      LastLengthWins([]);
      assert [] + [LengthHeader(0)] == [LengthHeader(0)];
      NoHeadersNoLength();
    }
  }

  lemma NoHeadersNoLength()
    ensures Summary(Get, "", []).contentLength == 0
  {
  }

  lemma FirstLineBad(u: string)
    requires Split(u) != [] && ParseRequestLine(CStr(Split(u)[0])) == None
    ensures ParseHead(u) == BadHead
  {
  }

  // ----- exactly these are never answered

  predicate Answered(o: Outcome) { o.BadRequest? || o.Complete? }

  lemma AnsweredWithoutBody(u: string)
    requires var h := ParseHead(u); h.BadHead? || (h.HeadDone? && h.req.contentLength == 0)
    ensures Answered(ParseWhole(u))
  {
    hide ParseHead, ParseWhole;
    OneCallMeetsGrammar(u);
  }

  /** Bytes in front of which the request is decided, where there are any. */
  function Decider(s: string): string {
    var w := Remainder(s);
    if !EndsHead(s) then NoBody(w)
    else LineEnd(w) + Filler(if 0 < Announced(s) <= READ_BUFFER_SIZE then Announced(s) else 0)
  }

  function Filler(n: nat): string { seq(n, _ => 'x') }

  lemma CommittedDecided(s: string)
    requires ParseHead(s).NoHead? && EndsHead(s) && !Wedged(s) && !TooLong(s) && |s| + 23 <= READ_BUFFER_SIZE
    ensures |s + Decider(s)| <= READ_BUFFER_SIZE && !ParseWhole(s + Decider(s)).NoRequest?
    ensures !NoDefinedEnd(s) ==> Answered(ParseWhole(s + Decider(s)))
  {
    hide ParseHead, ParseWhole, Remainder, Wedged, Split, Announced;
    var e := LineEnd(Remainder(s));
    var f := Decider(s)[|e|..];
    CommittedHeadEnds(s);
    assert Decider(s) == e + f;
    assert s + Decider(s) == s + e + f;
    HeadIsStable(s + e, f);
    OneCallMeetsGrammar(s + Decider(s));
  }

  lemma OpenHeadDecided(s: string)
    requires ParseHead(s).NoHead? && !Wedged(s) && !TooLong(s) && |s| + 23 <= READ_BUFFER_SIZE
    ensures |s + Decider(s)| <= READ_BUFFER_SIZE && !ParseWhole(s + Decider(s)).NoRequest?
    ensures !NoDefinedEnd(s) ==> Answered(ParseWhole(s + Decider(s)))
  {
    hide ParseHead, ParseWhole, Remainder, Wedged, NoBody, Answered, EndsHead;
    if EndsHead(s) {
      CommittedDecided(s);
    } else {
      NoBodyHead(s);
      NoBodyIsShort(Remainder(s));
      AnsweredWithoutBody(s + NoBody(Remainder(s)));
      AnsweredIsDecided(ParseWhole(s + NoBody(Remainder(s))));
    }
  }

  lemma AnsweredIsDecided(o: Outcome)
    ensures Answered(o) ==> !o.NoRequest?
  {
  }

  /** A body that is sure to end behind the buffer keeps the request open as long as the buffer lasts. */
  lemma TooLongStaysOpen(s: string, t: string)
    requires ParseHead(s).NoHead? && TooLong(s) && !Wedged(s) && |s + t| <= READ_BUFFER_SIZE
    ensures ParseWhole(s + t).NoRequest?
  {
    hide ParseHead, ParseWhole, Remainder, Wedged, Split, Announced, LineEnd;
    OneCallMeetsGrammar(s + t);
    if ParseHead(s + t) != NoHead { CommittedHead(s, t); }
  }

  lemma NoDefinedEndStays(s: string, t: string)
    requires ParseHead(s).NoHead? && NoDefinedEnd(s) && !Wedged(s) && |s + t| <= READ_BUFFER_SIZE
    ensures !Answered(ParseWhole(s + t))
  {
    hide ParseHead, ParseWhole, Remainder, Wedged, Split, Announced, LineEnd;
    OneCallMeetsGrammar(s + t);
    if ParseHead(s + t) != NoHead { CommittedHead(s, t); }
  }

  /** An open head with room for one more header stays open, whatever bytes the buffer still takes,
      exactly if its last line is bad, or is the empty one in front of a body too long for the buffer. */
  lemma StaysOpenExactly(s: string)
    requires ParseHead(s).NoHead? && |s| + 23 <= READ_BUFFER_SIZE
    ensures Wedged(s) || TooLong(s)
       <==> forall t | |s + t| <= READ_BUFFER_SIZE :: ParseWhole(s + t).NoRequest?
  {
    hide ParseHead, ParseWhole, Wedged, TooLong, Decider, NoDefinedEnd, Answered;
    if Wedged(s) || TooLong(s) {
      forall t | |s + t| <= READ_BUFFER_SIZE ensures ParseWhole(s + t).NoRequest? {
        if Wedged(s) { WedgedStaysOpen(s, t); } else { TooLongStaysOpen(s, t); }
      }
    } else {
      OpenHeadDecided(s);
    }
  }

  /** And it has no answer, be it because the outcome is not defined, exactly if besides these the body
      that must follow has no defined length or end. */
  lemma NeverAnsweredExactly(s: string)
    requires ParseHead(s).NoHead? && |s| + 23 <= READ_BUFFER_SIZE
    ensures Wedged(s) || TooLong(s) || NoDefinedEnd(s)
       <==> forall t | |s + t| <= READ_BUFFER_SIZE :: !Answered(ParseWhole(s + t))
  {
    hide ParseHead, ParseWhole, Wedged, TooLong, Decider, NoDefinedEnd, Answered;
    if Wedged(s) || TooLong(s) || NoDefinedEnd(s) {
      forall t | |s + t| <= READ_BUFFER_SIZE ensures !Answered(ParseWhole(s + t)) {
        AnsweredIsDecided(ParseWhole(s + t));
        if Wedged(s) { WedgedStaysOpen(s, t); }
        else if TooLong(s) { TooLongStaysOpen(s, t); }
        else { NoDefinedEndStays(s, t); }
      }
    } else {
      OpenHeadDecided(s);
    }
  }

  // ----- in pieces

  /** And in pieces: from a bad line on, no call ever decides. */
  lemma WedgedInPieces(frags: seq<string>, k: nat)
    requires k <= |frags|
    requires ParseHead(Concat(frags[..k])).NoHead? && Wedged(Concat(frags[..k]))
    ensures Feed("", INITIAL, frags).NoRequest?
  {
    hide ParseWhole, ParseHead, Wedged, Derails;
    var s := Concat(frags);
    ConcatSplits(frags, k);
    WedgedStaysOpen(Concat(frags[..k]), Concat(frags[k..]));
    forall j | 0 <= j < |frags| ensures !Derails(Concat(frags[..j])) {
      ConcatSplits(frags, j);
      if ParseHead(Concat(frags[..j])) != NoHead { HeadIsStable(Concat(frags[..j]), Concat(frags[j..])); }
      OpenDoesNotDerail(Concat(frags[..j]));
    }
    FragmentsAgree(frags);
  }

  lemma OpenDoesNotDerail(s: string)
    ensures ParseHead(s).NoHead? ==> !Derails(s)
  {
  }

  /** Nor in front of a body too long for the buffer, as long as the pieces fit it. */
  lemma TooLongInPieces(frags: seq<string>, k: nat)
    requires k <= |frags| && |Concat(frags)| <= READ_BUFFER_SIZE
    requires var s := Concat(frags[..k]); ParseHead(s).NoHead? && !Wedged(s) && TooLong(s)
    ensures Feed("", INITIAL, frags).NoRequest?
  {
    hide ParseWhole, ParseHead, Wedged, Derails, TooLong;
    var s := Concat(frags[..k]);
    var t := Concat(frags[k..]);
    ConcatSplits(frags, k);
    if forall j :: 0 <= j < |frags| ==> !Derails(Concat(frags[..j])) {
      FragmentsAgree(frags);
      TooLongStaysOpen(s, t);
    } else {
      var j := FirstDerailed(frags, 0);
      DerailedIsDone(Concat(frags[..j]));
      ConcatSplits(frags, j);
      HeadIsStable(Concat(frags[..j]), Concat(frags[j..]));
      TooLongHead(s, t);
      DerailedRunStarves(frags, j);
    }
  }

  lemma DerailedIsDone(s: string)
    requires Derails(s)
    ensures ParseHead(s).HeadDone?
  {
  }

  lemma TooLongHead(s: string, t: string)
    requires ParseHead(s).NoHead? && TooLong(s) && !Wedged(s) && ParseHead(s + t).HeadDone?
    ensures var h := ParseHead(s + t); h.bodyStart + h.req.contentLength > READ_BUFFER_SIZE
  {
    hide ParseHead, Remainder, Wedged, Split, Announced, LineEnd;
    CommittedHead(s, t);
  }
}
