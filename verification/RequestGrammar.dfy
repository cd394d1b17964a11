/** What a request is, said without cursors: cut the bytes at CR LF, classify the first line, take
    the headers up to the first empty line together, and count off the body. */
module RequestGrammar {
  import opened Wrappers
  import opened CStrings
  import opened RequestMachine

  function BreakAt(s: string): (k: nat)
    ensures k <= |s|
  {
    IndexOf(s, IsBreak)
  }

  /** The first CR or LF is a CR LF. */
  predicate HasLine(s: string): (has: bool)
    ensures has ==> BreakAt(s) + 2 <= |s|
  {
    var k := BreakAt(s);
    k + 1 < |s| && s[k] == CR && s[k + 1] == LF
  }

  /** The complete lines at the front of s. A CR or LF on its own ends the search. */
  function Split(s: string): seq<string>
    decreases |s|
  {
    if HasLine(s) then [s[..BreakAt(s)]] + Split(s[BreakAt(s) + 2..]) else []
  }

  /** Bytes taken by lines, their CR LF included. */
  function Extent(lines: seq<string>): nat {
    if lines == [] then 0 else |lines[0]| + 2 + Extent(lines[1..])
  }

  /** Index of the first line whose text is empty, or |lines|. */
  function FirstEmpty(lines: seq<string>): (h: nat)
    ensures h <= |lines|
    ensures h < |lines| ==> CStr(lines[h]) == ""
    ensures forall j :: 0 <= j < h ==> CStr(lines[j]) != ""
  {
    if lines == [] || CStr(lines[0]) == "" then 0 else 1 + FirstEmpty(lines[1..])
  }

  // ----- headers, taken together

  predicate IsField(line: string, name: string) { HasPrefixIgnoringCase(CStr(line), name) }

  function FieldValue(line: string, name: string): string
    requires IsField(line, name)
  {
    SkipBlanks(CStr(line)[|name|..])
  }

  /** Index of the last line carrying the field, or -1. */
  function LastField(headers: seq<string>, name: string): (k: int)
    ensures -1 <= k < |headers|
    ensures k >= 0 ==> IsField(headers[k], name)
    ensures forall j :: k < j < |headers| ==> !IsField(headers[j], name)
  {
    if headers == [] then -1
    else if IsField(headers[|headers| - 1], name) then |headers| - 1
    else LastField(headers[..|headers| - 1], name)
  }

  predicate AsksKeepAlive(line: string) {
    IsField(line, CONNECTION) && SameIgnoringCase(FieldValue(line, CONNECTION), "keep-alive")
  }

  /** The last Content-length and the last Host win; one keep-alive is enough. */
  function Summary(verb: Method, url: string, headers: seq<string>): Request {
    var c := LastField(headers, CONTENT_LENGTH);
    var h := LastField(headers, HOST);
    Request(verb, url,
            if h < 0 then None else Some(FieldValue(headers[h], HOST)),
            exists k :: 0 <= k < |headers| && AsksKeepAlive(headers[k]),
            if c < 0 then 0 else ToInt32(Atol(FieldValue(headers[c], CONTENT_LENGTH))))
  }

  // ----- the whole request

  datatype Head = NoHead | BadHead | HeadDone(req: Request, bodyStart: nat)

  /** The request line and headers at the front of s, once they are there. */
  function ParseHead(s: string): Head {
    var lines := Split(s);
    if lines == [] then NoHead
    else
      match ParseRequestLine(CStr(lines[0]))
      case None => BadHead
      case Some(target) =>
        var h := FirstEmpty(lines[1..]);
        if h == |lines| - 1 then NoHead
        else HeadDone(Summary(target.0, target.1, lines[1..1 + h]), Extent(lines[..h + 2]))
  }

  datatype Verdict =
    | Incomplete
    | Malformed
    | Accepted(req: Request, bodyStart: nat, body: Option<string>)
    | NoDefinedVerdict

  function Judge(s: string): Verdict {
    match ParseHead(s)
    case NoHead => Incomplete
    case BadHead => Malformed
    case HeadDone(req, at) =>
      if req.contentLength == 0 then Accepted(req, at, None)
      else if req.contentLength < 0 || req.contentLength > INT_MAX - READ_BUFFER_SIZE then NoDefinedVerdict
      else if |s| < at + req.contentLength then Incomplete
      else if at + req.contentLength >= READ_BUFFER_SIZE then NoDefinedVerdict
      else Accepted(req, at, Some(s[at..at + req.contentLength]))
  }

  // ----- folding headers one by one gives the summary

  function FoldHeaders(headers: seq<string>, req: Request): Request {
    if headers == [] then req
    else ParseHeader(CStr(headers[|headers| - 1]), FoldHeaders(headers[..|headers| - 1], req))
  }

  lemma {:induction false} FoldHeadersFront(line: string, headers: seq<string>, req: Request)
    ensures FoldHeaders([line] + headers, req) == FoldHeaders(headers, ParseHeader(CStr(line), req))
    decreases |headers|
  {
    var all := [line] + headers;
    if headers != [] {
      assert all[..|all| - 1] == [line] + headers[..|headers| - 1];
      FoldHeadersFront(line, headers[..|headers| - 1], req);
    } else {
      assert all[..0] == [];
    }
  }

  /** The three field names differ in their first characters, so a line carries at most one. */
  lemma FieldsExclusive(line: string)
    ensures !(IsField(line, CONNECTION) && IsField(line, CONTENT_LENGTH))
    ensures !(IsField(line, CONNECTION) && IsField(line, HOST))
    ensures !(IsField(line, CONTENT_LENGTH) && IsField(line, HOST))
  {
    var t := CStr(line);
    if |t| > 3 {
      assert IsField(line, CONNECTION) ==> Lower(t[..11][3]) == 'n' && t[..11][3] == t[3];
      assert IsField(line, CONTENT_LENGTH) ==> Lower(t[..15][3]) == 't' && t[..15][3] == t[3];
      assert IsField(line, CONTENT_LENGTH) ==> Lower(t[..15][0]) == 'c' && t[..15][0] == t[0];
      assert IsField(line, CONNECTION) ==> Lower(t[..11][0]) == 'c' && t[..11][0] == t[0];
      assert IsField(line, HOST) ==> Lower(t[..5][0]) == 'h' && t[..5][0] == t[0];
    }
  }

  lemma {:induction false} FoldIsSummary(verb: Method, url: string, headers: seq<string>)
    ensures FoldHeaders(headers, Request(verb, url, None, false, 0)) == Summary(verb, url, headers)
    decreases |headers|
  {
    if headers == [] {
    } else {
      var n := |headers| - 1;
      var line := headers[n];
      FoldIsSummary(verb, url, headers[..n]);
      FieldsExclusive(line);
      assert forall k :: 0 <= k < n ==> headers[..n][k] == headers[k];
      assert (exists k :: 0 <= k < n + 1 && AsksKeepAlive(headers[k]))
          == (AsksKeepAlive(line) || exists k :: 0 <= k < n && AsksKeepAlive(headers[..n][k]));
      assert |CONNECTION| == 11 && |CONTENT_LENGTH| == 15 && |HOST| == 5;
    }
  }

  // ----- the machine computes this

  lemma SplitAgreesWithScan(s: string, i: nat)
    requires i <= |s| && NotAfterCR(s, i)
    ensures var lines := Split(s[i..]);
            var r := ScanLine(s, i);
            if lines == [] then !r.LineOk?
            else
              var next := i + |lines[0]| + 2;
              r == LineOk(next - 2, next) && lines[0] == s[i..next - 2] && Split(s[next..]) == lines[1..]
  {
    hide ScanLine, BreakAt, HasLine, Split;
    LineIsScanned(s, i);
    SplitFirstLine(s[i..]);
    var k := BreakAt(s[i..]);
    if HasLine(s[i..]) {
      PiecesOfTail(s, i, k);
      PiecesOfTail(s, i, k + 2);
    }
  }

  lemma SplitFirstLine(w: string)
    ensures Split(w) == if HasLine(w) then [w[..BreakAt(w)]] + Split(w[BreakAt(w) + 2..]) else []
  {
  }

  lemma PiecesOfTail(s: string, i: nat, k: nat)
    requires i + k <= |s|
    ensures s[i..][..k] == s[i..i + k] && s[i..][k..] == s[i + k..]
  {
  }

  lemma LineIsScanned(s: string, i: nat)
    requires i <= |s| && NotAfterCR(s, i)
    ensures var k := i + BreakAt(s[i..]);
            if HasLine(s[i..]) then ScanLine(s, i) == LineOk(k, k + 2) else !ScanLine(s, i).LineOk?
  {
    ScanLineFromLineStart(s, i);
    hide ScanLine, IndexOf;
    var w := s[i..];
    var k := BreakAt(w);
    assert k < |w| ==> w[k] == s[i + k];
    assert k + 1 < |w| ==> w[k + 1] == s[i + k + 1];
  }

  datatype Eaten = StillOpen(at: nat, req: Request) | EmptyLine(at: nat, req: Request)

  /** Eating header lines one by one, the first at index i. */
  function EatHeaders(lines: seq<string>, i: nat, req: Request): Eaten {
    if lines == [] then StillOpen(i, req)
    else
      var next := i + |lines[0]| + 2;
      var text := CStr(lines[0]);
      if text == "" then EmptyLine(next, req) else EatHeaders(lines[1..], next, ParseHeader(text, req))
  }

  /** What a call makes of header lines eaten. */
  ghost predicate GoesOn(s: string, o: Outcome, e: Eaten) {
    match e
    case StillOpen(at, req) => o.NoRequest? && o.parser == Parser(Header, at, o.parser.checked, req)
    case EmptyLine(at, req) =>
      Inv(s, Parser(Content, at, at, req)) &&
      o == if req.contentLength == 0 then Complete(Parser(Header, at, at, req), None)
           else Run(s, Parser(Content, at, at, req), true)
  }

  lemma HeaderStep(p: Parser, line: string, next: nat)
    requires p.phase == Header
    ensures TakeLine(p, line, next) ==
            if line != "" then Continue(Parser(Header, next, next, ParseHeader(line, p.req)))
            else if p.req.contentLength != 0 then Continue(Parser(Content, next, next, p.req))
            else Finish(Parser(Header, next, next, p.req))
  {
    hide ParseHeader;
  }

  lemma EatFirst(lines: seq<string>, i: nat, req: Request)
    requires lines != []
    ensures var next := i + |lines[0]| + 2;
            var text := CStr(lines[0]);
            EatHeaders(lines, i, req) ==
            if text == "" then EmptyLine(next, req) else EatHeaders(lines[1..], next, ParseHeader(text, req))
  {
  }

  lemma NoLineEaten(s: string, p: Parser)
    requires Inv(s, p) && p.phase == Header && p.start == p.checked && Split(s[p.start..]) == []
    ensures GoesOn(s, Run(s, p, true), EatHeaders([], p.start, p.req))
  {
    SplitAgreesWithScan(s, p.start);
    RunTakesLine(s, p, ScanLine(s, p.start), Reject);
    hide Run, ScanLine, Split;
  }

  /** One header line: the call goes on behind it. */
  lemma LineEaten(s: string, p: Parser) returns (line: string, next: nat, rest: seq<string>)
    requires Inv(s, p) && p.phase == Header && p.start == p.checked && Split(s[p.start..]) != []
    ensures p.start < next <= |s| && Inv(s, Parser(Header, next, next, p.req)) && rest == Split(s[next..])
    ensures EatHeaders(Split(s[p.start..]), p.start, p.req)
            == if line == "" then EmptyLine(next, p.req) else EatHeaders(rest, next, ParseHeader(line, p.req))
    ensures Run(s, p, true)
            == if line != "" then Run(s, Parser(Header, next, next, ParseHeader(line, p.req)), true)
               else if p.req.contentLength != 0 then Run(s, Parser(Content, next, next, p.req), true)
               else Complete(Parser(Header, next, next, p.req), None)
  {
    hide ParseHeader, CStr, Split, ScanLine, TakeLine, EatHeaders, Run;
    var lines := Split(s[p.start..]);
    SplitAgreesWithScan(s, p.start);
    var r := ScanLine(s, p.start);
    line, next, rest := CStr(lines[0]), r.next, lines[1..];
    HeaderStep(p, line, next);
    RunTakesLine(s, p, r, TakeLine(p, line, next));
    EatFirst(lines, p.start, p.req);
  }

  lemma {:induction false} RunEatsHeaders(s: string, p: Parser)
    requires Inv(s, p) && p.phase == Header && p.start == p.checked
    ensures GoesOn(s, Run(s, p, true), EatHeaders(Split(s[p.start..]), p.start, p.req))
    decreases |s| - p.checked
  {
    hide ParseHeader, Split, EatHeaders, Run, GoesOn;
    if Split(s[p.start..]) == [] {
      NoLineEaten(s, p);
    } else {
      var line, next, rest := LineEaten(s, p);
      if line == "" {
        EmptyLineGoesOn(s, Run(s, p, true), next, p.req);
      } else {
        RunEatsHeaders(s, Parser(Header, next, next, ParseHeader(line, p.req)));
      }
    }
  }

  lemma EmptyLineGoesOn(s: string, o: Outcome, at: nat, req: Request)
    requires Inv(s, Parser(Content, at, at, req))
    requires o == if req.contentLength == 0 then Complete(Parser(Header, at, at, req), None)
                  else Run(s, Parser(Content, at, at, req), true)
    ensures GoesOn(s, o, EmptyLine(at, req))
  {
  }

  /** The headers up to the first empty line, taken together. */
  function EatenTogether(lines: seq<string>, i: nat, req: Request): Eaten {
    var h := FirstEmpty(lines);
    if h == |lines| then StillOpen(i + Extent(lines), FoldHeaders(lines, req))
    else EmptyLine(i + Extent(lines[..h + 1]), FoldHeaders(lines[..h], req))
  }

  lemma TogetherFirst(lines: seq<string>, i: nat, req: Request)
    requires lines != [] && CStr(lines[0]) != ""
    ensures EatenTogether(lines, i, req)
            == EatenTogether(lines[1..], i + |lines[0]| + 2, ParseHeader(CStr(lines[0]), req))
  {
    hide ParseHeader, CStr;
    var rest := lines[1..];
    var h := FirstEmpty(lines);
    assert h == 1 + FirstEmpty(rest);
    hide FoldHeaders, FirstEmpty;
    FoldHeadersFront(lines[0], rest[..h - 1], req);
    assert lines[..h] == [lines[0]] + rest[..h - 1];
    if h < |lines| {
      assert lines[..h + 1][1..] == rest[..h] && lines[..h + 1][0] == lines[0];
    } else {
      assert rest[..h - 1] == rest && lines[..h] == lines;
    }
  }

  lemma EmptyFirst(lines: seq<string>, i: nat, req: Request)
    requires lines != [] && CStr(lines[0]) == ""
    ensures EatenTogether(lines, i, req) == EmptyLine(i + |lines[0]| + 2, req)
  {
    hide CStr;
    assert FirstEmpty(lines) == 0;
    assert lines[..1] == [lines[0]] && [lines[0]][1..] == [] && lines[..0] == [];
    assert Extent([lines[0]]) == |lines[0]| + 2;
  }

  lemma {:induction false} EatHeadersTogether(lines: seq<string>, i: nat, req: Request)
    ensures EatHeaders(lines, i, req) == EatenTogether(lines, i, req)
  {
    hide ParseHeader, CStr, EatenTogether;
    if lines == [] {
      NothingTogether(i, req);
    } else if CStr(lines[0]) == "" {
      EmptyFirst(lines, i, req);
    } else {
      EatHeadersTogether(lines[1..], i + |lines[0]| + 2, ParseHeader(CStr(lines[0]), req));
      TogetherFirst(lines, i, req);
    }
  }

  lemma NothingTogether(i: nat, req: Request)
    ensures EatenTogether([], i, req) == StillOpen(i, req)
  {
  }

  /** A body that is not all there is not accepted by scanning further into it. */
  lemma {:induction false} RunShortBody(s: string, p: Parser, pending: bool)
    requires Inv(s, p) && p.phase == Content
    requires 0 <= p.req.contentLength <= INT_MAX - READ_BUFFER_SIZE
    requires p.checked + p.req.contentLength > |s|
    ensures var o := Run(s, p, pending);
            o.NoRequest? && o.parser.phase == Content && o.parser.req == p.req
    decreases |s| - p.checked, pending
  {
    if pending {
      RunShortBody(s, p.(start := p.checked), false);
    } else {
      var r := ScanLine(s, p.checked);
      if r.LineOk? {
        ScanLineFromLineStart(s, p.checked);
        RunShortBody(s, p.(checked := r.next), true);
      }
    }
  }

  lemma FirstLineTaken(s: string, p: Parser, req: Request)
    requires var t := if Split(s) == [] then None else ParseRequestLine(CStr(Split(s)[0]));
             t.Some? ==> req == NO_REQUEST_YET.(verb := t.value.0, url := t.value.1)
    requires Split(s) != [] ==> var i := |Split(s)[0]| + 2; p == Parser(Header, i, i, req)
    ensures Split(s) == [] ==> ParseWhole(s).NoRequest? && ParseWhole(s).parser.phase == RequestLine
    ensures Split(s) != [] && ParseRequestLine(CStr(Split(s)[0])) == None ==> ParseWhole(s) == BadRequest
    ensures Split(s) != [] && ParseRequestLine(CStr(Split(s)[0])).Some? ==>
              Inv(s, p) && ParseWhole(s) == Run(s, p, true) && Split(s[p.start..]) == Split(s)[1..]
  {
    hide ParseHeader, ParseRequestLine, CStr, Split, ScanLine, Run;
    assert s[0..] == s;
    SplitAgreesWithScan(s, 0);
    var scan := ScanLine(s, 0);
    RunTakesLine(s, INITIAL, scan, if scan.LineOk? then TakeLine(INITIAL, CStr(s[..scan.end]), scan.next) else Reject);
  }

  lemma HeadersEaten(lines: seq<string>, verb: Method, url: string)
    requires lines != []
    ensures var h := FirstEmpty(lines[1..]);
            var e := EatHeaders(lines[1..], |lines[0]| + 2, Request(verb, url, None, false, 0));
            if h == |lines| - 1 then e.StillOpen?
            else e == EmptyLine(Extent(lines[..h + 2]), Summary(verb, url, lines[1..1 + h]))
  {
    hide CStr, Summary, FoldHeaders, EatHeaders, FirstEmpty;
    var rest := lines[1..];
    var h := FirstEmpty(rest);
    EatHeadersTogether(rest, |lines[0]| + 2, Request(verb, url, None, false, 0));
    if h < |rest| {
      assert lines[1..1 + h] == rest[..h];
      FoldIsSummary(verb, url, rest[..h]);
      assert lines[..h + 2][1..] == rest[..h + 1];
    }
  }

  /** Where one call stands once the head of the request is decided. */
  lemma HeadReached(s: string)
    ensures ParseHead(s).NoHead? ==> ParseWhole(s).NoRequest? && ParseWhole(s).parser.phase != Content
    ensures ParseHead(s).BadHead? ==> ParseWhole(s) == BadRequest
    ensures ParseHead(s).HeadDone? ==>
              var req, at := ParseHead(s).req, ParseHead(s).bodyStart;
              Inv(s, Parser(Content, at, at, req)) &&
              ParseWhole(s) == if req.contentLength == 0 then Complete(Parser(Header, at, at, req), None)
                               else Run(s, Parser(Content, at, at, req), true)
  {
    hide ParseRequestLine, CStr, Summary, Split, EatHeaders, FirstEmpty, Run, ParseWhole, Inv, Extent;
    var lines := Split(s);
    if lines == [] {
      FirstLineTaken(s, INITIAL, NO_REQUEST_YET);
    } else {
      var target := ParseRequestLine(CStr(lines[0]));
      var req := if target == None then NO_REQUEST_YET
                 else NO_REQUEST_YET.(verb := target.value.0, url := target.value.1);
      var i := |lines[0]| + 2;
      FirstLineTaken(s, Parser(Header, i, i, req), req);
      if target.Some? {
        RunEatsHeaders(s, Parser(Header, i, i, req));
        HeadersEaten(lines, target.value.0, target.value.1);
      }
    }
  }

  lemma RunAtBody(s: string, p: Parser)
    requires Inv(s, p) && p.phase == Content && p.start == p.checked
    ensures var n := p.req.contentLength;
            var o := Run(s, p, true);
            if n < 0 || n > INT_MAX - READ_BUFFER_SIZE then o == RequestMachine.Undefined
            else if |s| < p.start + n then o.NoRequest?
            else if p.start + n >= READ_BUFFER_SIZE then o == RequestMachine.Undefined
            else o == Complete(p, Some(s[p.start..p.start + n]))
  {
    hide CStr, TakeLine, ScanLine;
    var n := p.req.contentLength;
    if 0 <= n <= INT_MAX - READ_BUFFER_SIZE && |s| < p.start + n {
      RunShortBody(s, p, true);
    }
  }

  /** One call on any bytes gives the verdict of the grammar, with the same request, body and cursor. */
  lemma OneCallMeetsGrammar(s: string)
    ensures match Judge(s)
            case Incomplete => ParseWhole(s).NoRequest?
            case Malformed => ParseWhole(s) == BadRequest
            case NoDefinedVerdict => ParseWhole(s) == RequestMachine.Undefined
            case Accepted(req, at, body) =>
              ParseWhole(s) == Complete(Parser(if body == None then Header else Content, at, at, req), body)
  {
    hide ParseHead, ParseWhole, Run;
    HeadReached(s);
    match ParseHead(s)
    case HeadDone(req, at) => RunAtBody(s, Parser(Content, at, at, req));
    case _ =>
  }
}
