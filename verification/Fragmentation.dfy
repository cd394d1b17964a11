/** The kernel hands the request over in pieces and process_read runs after each. When does this
    agree with one call on everything? */
module Fragmentation {
  import opened Wrappers
  import opened CStrings
  import opened RequestMachine
  import opened RequestGrammar

  function Concat(frags: seq<string>): string {
    if frags == [] then "" else frags[0] + Concat(frags[1..])
  }

  lemma ConcatFirst(frags: seq<string>)
    requires frags != []
    ensures Concat(frags) == frags[0] + Concat(frags[1..])
  {
  }

  lemma InvExtends(s: string, t: string, p: Parser)
    requires Inv(s, p)
    ensures Inv(s + t, p)
  {
    if p.checked > 0 {
      assert (s + t)[p.checked - 1] == s[p.checked - 1];
    }
  }

  /** recv, process_read, recv, process_read, ... until a call decides. */
  function Feed(received: string, p: Parser, frags: seq<string>): Outcome
    requires Inv(received, p)
    decreases |frags|
  {
    if frags == [] then NoRequest(p)
    else
      hide Run;
      var s := received + frags[0];
      InvExtends(received, frags[0], p);
      RunKeepsInv(s, p, true);
      match Run(s, p, true)
      case NoRequest(q) => Feed(s, q, frags[1..])
      case other => other
  }

  lemma {:induction false} FeedCompletes(received: string, p: Parser, frags: seq<string>)
    requires Inv(received, p)
    ensures WellCompleted(Feed(received, p, frags))
    decreases |frags|
  {
    hide Run;
    if frags == [] {
    } else {
      var s := received + frags[0];
      InvExtends(received, frags[0], p);
      RunKeepsInv(s, p, true);
      var o := Run(s, p, true);
      if o.NoRequest? { FeedCompletes(s, o.parser, frags[1..]); }
    }
  }

  /** A piece w of the body from which parse_line moves m_checked_idx: it starts with a byte other
      than CR and LF, or with CR LF. */
  predicate Moves(w: string) {
    w != "" && (!IsBreak(w[0]) || (|w| >= 2 && w[0] == CR && w[1] == LF))
  }

  /** The bytes s end inside a body, and the call on them moves into it. */
  predicate Derails(s: string) {
    match ParseHead(s)
    case HeadDone(req, at) =>
      && 0 < req.contentLength <= INT_MAX - READ_BUFFER_SIZE
      && at <= |s| < at + req.contentLength
      && Moves(s[at..])
    case _ => false
  }

  // ----- later bytes change nothing that is already decided

  lemma {:induction false} ScanLineExtends(s: string, t: string, i: nat)
    requires i <= |s| && NotAfterCR(s, i)
    ensures var r := ScanLine(s, i);
            if r.LineOk? then ScanLine(s + t, i) == r else ScanLine(s + t, i) == ScanLine(s + t, r.at)
    decreases |s| - i
  {
    if i == |s| || IsBreak(s[i]) {
    } else {
      ScanLineExtends(s, t, i + 1);
      assert (s + t)[i] == s[i];
    }
  }

  lemma LineExtends(s: string, t: string)
    requires HasLine(s)
    ensures HasLine(s + t) && BreakAt(s + t) == BreakAt(s)
  {
    var k := BreakAt(s);
    IndexOfUnique(s + t, IsBreak, k);
  }

  lemma {:induction false} SplitExtends(s: string, t: string)
    ensures Split(s) <= Split(s + t)
    decreases |s|
  {
    hide BreakAt, HasLine;
    if !HasLine(s) {
    } else {
      LineExtends(s, t);
      var k := BreakAt(s);
      assert (s + t)[..k] == s[..k];
      assert (s + t)[k + 2..] == s[k + 2..] + t;
      SplitExtends(s[k + 2..], t);
    }
  }

  lemma {:induction false} FirstEmptyExtends(lines: seq<string>, more: seq<string>)
    requires lines <= more && FirstEmpty(lines) < |lines|
    ensures FirstEmpty(more) == FirstEmpty(lines)
  {
    if CStr(lines[0]) == "" {
    } else {
      FirstEmptyExtends(lines[1..], more[1..]);
    }
  }

  lemma HeadIsStable(s: string, t: string)
    requires ParseHead(s) != NoHead
    ensures ParseHead(s + t) == ParseHead(s)
  {
    hide ParseRequestLine, CStr, Summary, Split, FirstEmpty;
    SplitExtends(s, t);
    var lines := Split(s);
    var more := Split(s + t);
    assert more[..|lines|] == lines;
    if ParseRequestLine(CStr(lines[0])).Some? {
      FirstEmptyExtends(lines[1..], more[1..]);
      var h := FirstEmpty(lines[1..]);
      assert more[..h + 2] == lines[..h + 2];
      assert more[1..1 + h] == lines[1..1 + h];
    }
  }

  /** A decision stands, whatever arrives behind the request. */
  lemma DecisionIsStable(s: string, t: string)
    requires !ParseWhole(s).NoRequest?
    ensures ParseWhole(s + t) == ParseWhole(s)
  {
    hide ParseHead, ParseWhole;
    OneCallMeetsGrammar(s);
    OneCallMeetsGrammar(s + t);
    HeadIsStable(s, t);
    match ParseHead(s)
    case HeadDone(req, at) =>
      if 0 < req.contentLength && at + req.contentLength <= |s| {
        assert (s + t)[at..at + req.contentLength] == s[at..at + req.contentLength];
      }
    case _ =>
  }

  // ----- resuming

  lemma {:induction false} ResumeInLines(s: string, t: string, p: Parser)
    requires Inv(s, p) && p.phase != Content && p.start == p.checked
    requires Run(s, p, true).NoRequest? && Run(s, p, true).parser.phase != Content
    ensures Inv(s + t, p) && Inv(s + t, Run(s, p, true).parser)
    ensures Run(s + t, Run(s, p, true).parser, true) == Run(s + t, p, true)
    decreases |s| - p.checked
  {
    hide ParseRequestLine, ParseHeader, CStr, ScanLine;
    InvExtends(s, t, p);
    RunKeepsInv(s, p, true);
    InvExtends(s, t, Run(s, p, true).parser);
    ScanLineExtends(s, t, p.start);
    var r := ScanLine(s, p.start);
    if r.LineOk? {
      assert (s + t)[p.start..r.end] == s[p.start..r.end];
      var step := TakeLine(p, CStr(s[p.start..r.end]), r.next);
      RunTakesLine(s, p, r, step);
      RunTakesLine(s + t, p, r, step);
      if step.parser.phase == Content {
        RunStaysInContent(s, step.parser, true);
      } else {
        ResumeInLines(s, t, step.parser);
      }
    }
  }

  lemma {:induction false} RunStaysInContent(s: string, p: Parser, pending: bool)
    requires Inv(s, p) && p.phase == Content
    ensures Run(s, p, pending).NoRequest? ==> Run(s, p, pending).parser.phase == Content
    decreases |s| - p.checked, pending
  {
    hide TakeLine, CStr, ScanLine;
    if pending {
      RunStaysInContent(s, p.(start := p.checked), false);
    } else if ScanLine(s, p.checked).LineOk? {
      RunStaysInContent(s, p.(checked := ScanLine(s, p.checked).next), true);
    }
  }

  /** The content call at the first byte of the body: it stays there or moves on, as Moves says. */
  lemma ContentCall(s: string, p: Parser)
    requires Inv(s, p) && p.phase == Content && p.start == p.checked
    requires 0 < p.req.contentLength <= INT_MAX - READ_BUFFER_SIZE
    requires p.checked + p.req.contentLength > |s|
    ensures Run(s, p, true).NoRequest? && Run(s, p, true).parser.phase == Content
    ensures Run(s, p, true).parser.req == p.req
    ensures if Moves(s[p.checked..]) then Run(s, p, true).parser.checked > p.checked
            else Run(s, p, true) == NoRequest(p)
  {
    hide Run, ScanLine, IndexOf;
    RunShortBody(s, p, true);
    RunTakesBody(s, p);
    var r := ScanLine(s, p.checked);
    ScanLineFromLineStart(s, p.checked);
    FirstBreak(s[p.checked..]);
    RunScansBody(s, p, r);
    if r.LineOk? {
      RunKeepsInv(s, p.(checked := r.next), true);
    }
  }

  lemma FirstBreak(w: string)
    ensures IndexOf(w, IsBreak) > 0 <==> w != "" && !IsBreak(w[0])
  {
  }

  /** After a call that did not derail, going on equals starting again on all bytes. */
  lemma Resume(s: string, t: string)
    requires ParseWhole(s).NoRequest? && !Derails(s)
    ensures Inv(s + t, ParseWhole(s).parser)
    ensures Run(s + t, ParseWhole(s).parser, true) == ParseWhole(s + t)
  {
    hide Run, ParseHead;
    HeadReached(s);
    match ParseHead(s)
    case NoHead => ResumeInLines(s, t, INITIAL);
    case HeadDone(req, at) =>
      HeadIsStable(s, t);
      HeadReached(s + t);
      OneCallMeetsGrammar(s);
      ContentCall(s, Parser(Content, at, at, req));
      InvExtends(s, t, Parser(Content, at, at, req));
    case BadHead =>
  }

  // ----- whole runs

  lemma {:induction false} FeedFrom(received: string, p: Parser, frags: seq<string>, k: nat)
    requires Inv(received, p) && ParseWhole(received) == NoRequest(p)
    requires k <= |frags|
    requires forall j :: 0 <= j < k ==> !Derails(received + Concat(frags[..j]))
    ensures var s := received + Concat(frags[..k]);
            var o := ParseWhole(s);
            if o.NoRequest? then Inv(s, o.parser) && Feed(received, p, frags) == Feed(s, o.parser, frags[k..])
            else Feed(received, p, frags) == o
    decreases k
  {
    hide Run, Derails, ParseWhole;
    if k == 0 {
      assert received + Concat(frags[..0]) == received;
      assert frags[0..] == frags;
    } else {
      var s := received + frags[0];
      assert received + Concat(frags[..0]) == received;
      Resume(received, frags[0]);
      forall j | 0 <= j < k
        ensures s + Concat(frags[1..][..j]) == received + Concat(frags[..j + 1])
      {
        assert frags[..j + 1][1..] == frags[1..][..j];
      }
      var rest := Concat(frags[1..][..k - 1]);
      if ParseWhole(s).NoRequest? {
        RunKeepsInv(s, p, true);
        FeedFrom(s, ParseWhole(s).parser, frags[1..], k - 1);
        assert frags[1..][k - 1..] == frags[k..];
      } else {
        DecisionIsStable(s, rest);
      }
    }
  }

  lemma NothingReceived()
    ensures ParseWhole("") == NoRequest(INITIAL)
  {
  }

  /** Fragmentation independence. If no call before the last derails, the pieces give exactly the
      outcome of one call: the same verdict, request, cursors and body. */
  lemma FragmentsAgree(frags: seq<string>)
    requires forall k :: 0 <= k < |frags| ==> !Derails(Concat(frags[..k]))
    ensures Feed("", INITIAL, frags) == ParseWhole(Concat(frags))
  {
    NothingReceived();
    assert forall k :: 0 <= k < |frags| ==> "" + Concat(frags[..k]) == Concat(frags[..k]);
    FeedFrom("", INITIAL, frags, |frags|);
    assert frags[..|frags|] == frags && "" + Concat(frags) == Concat(frags);
  }

  /** Once a cursor has moved so far that the body would end behind the stream, no call decides. */
  lemma {:induction false} NeverDecides(received: string, p: Parser, frags: seq<string>)
    requires Inv(received, p) && p.phase == Content
    requires 0 < p.req.contentLength <= INT_MAX - READ_BUFFER_SIZE
    requires p.checked + p.req.contentLength > |received| + |Concat(frags)|
    ensures Feed(received, p, frags).NoRequest?
    decreases |frags|
  {
    hide Run;
    if frags == [] {
    } else {
      var s := received + frags[0];
      InvExtends(received, frags[0], p);
      RunShortBody(s, p, true);
      RunKeepsInv(s, p, true);
      NeverDecides(s, Run(s, p, true).parser, frags[1..]);
    }
  }

  lemma {:induction false} ConcatSplits(frags: seq<string>, k: nat)
    requires k <= |frags|
    ensures Concat(frags) == Concat(frags[..k]) + Concat(frags[k..])
  {
    if k > 0 {
      ConcatSplits(frags[1..], k - 1);
      assert frags[..k][1..] == frags[1..][..k - 1];
      assert frags[1..][k - 1..] == frags[k..];
    } else {
      assert frags[..0] == [] && frags[0..] == frags;
    }
  }

  /** If a call derails, a stream that ends with the body, or before its end, is never answered. */
  lemma DerailedRunStarves(frags: seq<string>, k: nat)
    requires k < |frags| && Derails(Concat(frags[..k]))
    requires forall j :: 0 <= j < k ==> !Derails(Concat(frags[..j]))
    requires ParseHead(Concat(frags)).HeadDone?
    requires var h := ParseHead(Concat(frags)); |Concat(frags)| <= h.bodyStart + h.req.contentLength
    ensures Feed("", INITIAL, frags).NoRequest?
  {
    hide Run, ParseHead, ParseWhole;
    var s := Concat(frags[..k]);
    var rest := Concat(frags[k..]);
    ConcatSplits(frags, k);
    NothingReceived();
    assert forall j :: 0 <= j <= k ==> "" + Concat(frags[..j]) == Concat(frags[..j]);
    FeedFrom("", INITIAL, frags, k);
    HeadReached(s);
    HeadIsStable(s, rest);
    var h := ParseHead(s);
    ContentCall(s, Parser(Content, h.bodyStart, h.bodyStart, h.req));
    assert ParseWhole(s) == Run(s, Parser(Content, h.bodyStart, h.bodyStart, h.req), true);
    NeverDecides(s, ParseWhole(s).parser, frags[k..]);
  }

  /** For a stream that ends with its body, the pieces give the outcome of one call exactly if no
      call before the last sees a piece of the body that moves the cursor. */
  lemma FragmentsAgreeExactly(frags: seq<string>)
    requires var h := ParseHead(Concat(frags));
             h.HeadDone? && 0 < h.req.contentLength <= INT_MAX - READ_BUFFER_SIZE
             && |Concat(frags)| == h.bodyStart + h.req.contentLength
    ensures Feed("", INITIAL, frags) == ParseWhole(Concat(frags))
       <==> forall k :: 0 <= k < |frags| ==> !Derails(Concat(frags[..k]))
  {
    hide Run, ParseHead, Derails, ParseWhole;
    OneCallMeetsGrammar(Concat(frags));
    if forall k :: 0 <= k < |frags| ==> !Derails(Concat(frags[..k])) {
      FragmentsAgree(frags);
    } else {
      var k := FirstDerailed(frags, 0);
      DerailedRunStarves(frags, k);
    }
  }

  lemma FirstDerailed(frags: seq<string>, from: nat) returns (k: nat)
    requires exists j :: from <= j < |frags| && Derails(Concat(frags[..j]))
    requires forall j :: 0 <= j < from ==> !Derails(Concat(frags[..j]))
    ensures k < |frags| && Derails(Concat(frags[..k]))
    ensures forall j :: 0 <= j < k ==> !Derails(Concat(frags[..j]))
    decreases |frags| - from
  {
    hide Derails;
    if Derails(Concat(frags[..from])) {
      k := from;
    } else {
      k := FirstDerailed(frags, from + 1);
    }
  }
}
