/** The incremental request parser as a function of the bytes received so far.
    It keeps the two cursors of the original and re-enters at the same places. */
module RequestMachine {
  import opened Wrappers
  import opened CStrings

  const CR: char := '\r'
  const LF: char := '\n'
  const READ_BUFFER_SIZE: int := 2048

  datatype Method = Get | Post
  datatype Phase = RequestLine | Header | Content

  /** What the parser has learnt about the request. */
  datatype Request = Request(verb: Method, url: string, host: Option<string>, linger: bool, contentLength: int)

  /** start: where the current line or body begins; checked: the first byte not yet scanned. */
  datatype Parser = Parser(phase: Phase, start: nat, checked: nat, req: Request)

  /** Undefined marks the calls that may have no defined result in C: a negative Content-length, one
      so large that adding a cursor can overflow an int, a body that ends outside the buffer. */
  datatype Outcome =
    | NoRequest(parser: Parser)
    | BadRequest
    | Complete(parser: Parser, body: Option<string>)
    | Undefined

  const NO_REQUEST_YET := Request(Get, "", None, false, 0)
  const INITIAL := Parser(RequestLine, 0, 0, NO_REQUEST_YET)

  // ----- lines

  /** LineOk: the line ends before index end and the next one begins at next. */
  datatype Scan = LineOk(end: int, next: nat) | LineBad(at: nat) | LineOpen(at: nat)

  /** parse_line: from index i, find the line's end in the bytes s. */
  function ScanLine(s: string, i: nat): (r: Scan)
    requires i <= |s|
    ensures r.LineOk? ==> i < r.next <= |s| && r.end == r.next - 2
    ensures !r.LineOk? ==> i <= r.at <= |s|
    ensures r.LineOk? ==> s[r.next - 1] == LF
    ensures NotAfterCR(s, i) ==> if r.LineOk? then i <= r.end else NotAfterCR(s, r.at)
    decreases |s| - i
  {
    if i == |s| then LineOpen(i)
    else if s[i] == CR then
      if i + 1 == |s| then LineOpen(i)
      else if s[i + 1] == LF then LineOk(i, i + 2)
      else LineBad(i)
    else if s[i] == LF then
      if i > 1 && s[i - 1] == CR then LineOk(i - 1, i + 1) else LineBad(i)
    else ScanLine(s, i + 1)
  }

  /** The byte before index i is not CR: parse_line is only ever entered there. */
  predicate NotAfterCR(s: string, i: nat)
    requires i <= |s|
  {
    i > 0 ==> s[i - 1] != CR
  }

  predicate IsBreak(c: char) { c == CR || c == LF }

  /** Entered after a byte other than CR, the scan stops at the first CR or LF, and succeeds only on
      CR LF: the branch for LF preceded by an earlier CR is never taken. */
  lemma {:induction false} ScanLineFromLineStart(s: string, i: nat)
    requires i <= |s| && NotAfterCR(s, i)
    ensures var k := i + IndexOf(s[i..], IsBreak);
            ScanLine(s, i) ==
            if k + 1 < |s| && s[k] == CR && s[k + 1] == LF then LineOk(k, k + 2)
            else if k == |s| || (s[k] == CR && k + 1 == |s|) then LineOpen(k)
            else LineBad(k)
    decreases |s| - i
  {
    var w := s[i..];
    if i < |s| && !IsBreak(s[i]) {
      ScanLineFromLineStart(s, i + 1);
      assert w[1..] == s[i + 1..];
      assert IndexOf(w, IsBreak) == 1 + IndexOf(w[1..], IsBreak);
      assert ScanLine(s, i) == ScanLine(s, i + 1);
      hide IndexOf, ScanLine;
    } else {
      assert i < |s| ==> w[0] == s[i];
      assert IndexOf(w, IsBreak) == 0;
      hide IndexOf;
    }
  }

  // ----- one line's meaning

  /** parse_request_line on the line's text: the method and the URL, or None for BAD_REQUEST. */
  function ParseRequestLine(line: string): (r: Option<(Method, string)>)
    ensures r.Some? ==> |r.value.1| >= 2 && r.value.1[0] == '/'
  {
    var k := IndexOf(line, IsBlank);
    if k == |line| then None
    else if SameIgnoringCase(line[..k], "GET") then WithVerb(Get, ParseTarget(SkipBlanks(line[k + 1..])))
    else if SameIgnoringCase(line[..k], "POST") then WithVerb(Post, ParseTarget(SkipBlanks(line[k + 1..])))
    else None
  }

  function WithVerb(verb: Method, path: Option<string>): Option<(Method, string)> {
    match path
    case None => None
    case Some(p) => Some((verb, p))
  }

  /** What follows the method: the URL's path, if "HTTP/1.1" follows and the path starts with '/'. */
  function ParseTarget(target: string): (r: Option<string>)
    ensures r.Some? ==> |r.value| >= 2 && r.value[0] == '/'
  {
    var m := IndexOf(target, IsBlank);
    if m == |target| || !SameIgnoringCase(SkipBlanks(target[m + 1..]), "HTTP/1.1") then None
    else
      var path := StripScheme(target[..m]);
      if path == "" || path[0] != '/' then None
      else if |path| == 1 then Some("/judge.html")
      else Some(path)
  }

  /** The path of an absolute-form URL: from the first '/' after the scheme. */
  function StripScheme(url: string): string {
    var u := if HasPrefixIgnoringCase(url, "http://") then FromSlash(url[7..]) else url;
    if HasPrefixIgnoringCase(u, "https://") then FromSlash(u[8..]) else u
  }

  /** A URL that starts with its path has no scheme. */
  lemma NoScheme(url: string)
    requires url != "" && url[0] == '/'
    ensures StripScheme(url) == url
  {
    hide SameIgnoringCase, HasPrefixIgnoringCase, FromSlash;
    FirstDiffers(url, "http://");
    FirstDiffers(url, "https://");
  }

  function FromSlash(s: string): string { s[IndexOf(s, IsSlash)..] }

  const CONNECTION: string := "Connection:"
  const CONTENT_LENGTH: string := "Content-length:"
  const HOST: string := "Host:"

  /** parse_headers on a non-empty line. */
  function ParseHeader(line: string, req: Request): Request {
    if HasPrefixIgnoringCase(line, CONNECTION) then
      if SameIgnoringCase(SkipBlanks(line[11..]), "keep-alive") then req.(linger := true) else req
    else if HasPrefixIgnoringCase(line, CONTENT_LENGTH) then
      req.(contentLength := ToInt32(Atol(SkipBlanks(line[15..]))))
    else if HasPrefixIgnoringCase(line, HOST) then
      req.(host := Some(SkipBlanks(line[5..])))
    else req
  }

  // ----- the machine

  /** Cursors in order, and the scan never resumes behind a CR. */
  predicate Inv(s: string, p: Parser) {
    p.start <= p.checked <= |s| && NotAfterCR(s, p.checked)
  }

  /** What one complete line makes of the state, its text and the cursor behind it given. */
  datatype LineStep = Reject | Continue(parser: Parser) | Finish(parser: Parser)

  function TakeLine(p: Parser, line: string, next: nat): (r: LineStep)
    requires p.phase != Content
    ensures r.Continue? ==> r.parser.start == r.parser.checked == next
    ensures r.Finish? ==> r.parser.start == r.parser.checked == next && r.parser.phase == Header
  {
    var q := p.(start := next, checked := next);
    if p.phase == RequestLine then
      match ParseRequestLine(line)
      case None => Reject
      case Some(target) => Continue(q.(phase := Header, req := p.req.(verb := target.0, url := target.1)))
    else if line != "" then Continue(q.(req := ParseHeader(line, p.req)))
    else if p.req.contentLength != 0 then Continue(q.(phase := Content))
    else assert p.phase.Header?; Finish(q)
  }

  lemma TakeLineIgnoresScan(p: Parser, checked: nat, line: string, next: nat)
    requires p.phase != Content
    ensures TakeLine(p.(checked := checked), line, next) == TakeLine(p, line, next)
  {
    hide ParseRequestLine, ParseHeader;
  }

  datatype ContentStep = Wait | Ready | NoDefinedResult

  /** parse_content with the body's text at index text, once m_start_line has moved on to checked. */
  function ParseContent(received: nat, text: nat, checked: nat, contentLength: int): (r: ContentStep)
    ensures r.Ready? ==> 0 <= contentLength && checked + contentLength <= received
                         && text + contentLength < READ_BUFFER_SIZE
    ensures r.Wait? ==> contentLength > received - checked
  {
    if contentLength < 0 || contentLength > INT_MAX - READ_BUFFER_SIZE then NoDefinedResult
    else if received < contentLength + checked then Wait
    else if text + contentLength >= READ_BUFFER_SIZE then NoDefinedResult
    else Ready
  }

  /** process_read on the bytes s from state p; pending tells that the last line status is LINE_OK.
      The measure is the loop's: bytes not yet scanned, then the pending content step. */
  function Run(s: string, p: Parser, pending: bool): (o: Outcome)
    requires Inv(s, p)
    decreases |s| - p.checked, pending
  {
    hide TakeLine, CStr, ScanLine, ParseContent;
    if p.phase == Content && pending then
      match ParseContent(|s|, p.start, p.checked, p.req.contentLength)
      case NoDefinedResult => Undefined
      case Ready => Complete(p.(start := p.checked), Some(s[p.start..p.start + p.req.contentLength]))
      case Wait => Run(s, p.(start := p.checked), false)
    else
      match ScanLine(s, p.checked)
      case LineOpen(at) => NoRequest(p.(checked := at))
      case LineBad(at) => NoRequest(p.(checked := at))
      case LineOk(end, next) =>
        if p.phase == Content then Run(s, p.(checked := next), true)
        else
          match TakeLine(p, CStr(s[p.start..end]), next)
          case Reject => BadRequest
          case Finish(q) => Complete(q, None)
          case Continue(q) => Run(s, q, true)
  }

  /** Outside the body, the loop stops in the current line or takes it complete. */
  lemma RunTakesLine(s: string, p: Parser, r: Scan, step: LineStep)
    requires Inv(s, p) && p.phase != Content && r == ScanLine(s, p.checked)
    requires r.LineOk? ==> step == TakeLine(p, CStr(s[p.start..r.end]), r.next)
    ensures !r.LineOk? ==> Run(s, p, true) == NoRequest(p.(checked := r.at))
    ensures r.LineOk? && step.Reject? ==> Run(s, p, true) == BadRequest
    ensures r.LineOk? && step.Finish? ==> Run(s, p, true) == Complete(step.parser, None)
    ensures r.LineOk? && step.Continue? ==>
              Inv(s, step.parser) && Run(s, p, true) == Run(s, step.parser, true)
  {
    hide TakeLine, CStr, ScanLine, ParseContent;
  }

  /** Inside the body, once parse_content has said no, the loop scans on. */
  lemma RunScansBody(s: string, p: Parser, r: Scan)
    requires Inv(s, p) && p.phase == Content && r == ScanLine(s, p.checked)
    ensures !r.LineOk? ==> Run(s, p, false) == NoRequest(p.(checked := r.at))
    ensures r.LineOk? ==>
              Inv(s, p.(checked := r.next)) && Run(s, p, false) == Run(s, p.(checked := r.next), true)
  {
    hide TakeLine, CStr, ScanLine, ParseContent;
  }

  lemma RunTakesBody(s: string, p: Parser)
    requires Inv(s, p) && p.phase == Content
    ensures Run(s, p, true) ==
            match ParseContent(|s|, p.start, p.checked, p.req.contentLength)
            case NoDefinedResult => Undefined
            case Ready => Complete(p.(start := p.checked), Some(s[p.start..p.start + p.req.contentLength]))
            case Wait => Run(s, p.(start := p.checked), false)
  {
    hide TakeLine, CStr, ScanLine, ParseContent;
  }

  /** What one call leaves behind: cursors in order and not moved back, no resumption behind a CR, and
      of a complete request the body exactly if it is in content state, as long as announced. */
  lemma {:induction false} RunKeepsInv(s: string, p: Parser, pending: bool)
    requires Inv(s, p)
    ensures var o := Run(s, p, pending);
            && (o.NoRequest? || o.Complete? ==> Inv(s, o.parser) && p.checked <= o.parser.checked)
            && WellCompleted(o)
    decreases |s| - p.checked, pending
  {
    hide TakeLine, CStr, ScanLine, ParseContent;
    if p.phase == Content && pending {
      RunKeepsInv(s, p.(start := p.checked), false);
    } else {
      var r := ScanLine(s, p.checked);
      if r.LineOk? {
        if p.phase == Content {
          RunKeepsInv(s, p.(checked := r.next), true);
        } else {
          var step := TakeLine(p, CStr(s[p.start..r.end]), r.next);
          if step.Continue? {
            RunKeepsInv(s, step.parser, true);
          }
        }
      }
    }
  }

  predicate WellCompleted(o: Outcome) {
    o.Complete? ==>
      && (if o.body == None then o.parser.phase == Header else o.parser.phase == Content)
      && (o.body.Some? ==> |o.body.value| == o.parser.req.contentLength)
  }

  /** One call on everything at once. */
  function ParseWhole(s: string): Outcome { Run(s, INITIAL, true) }
}
