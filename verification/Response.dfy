/** The response printer: a bounded buffer, and what process_write puts into it. */
module Response {
  import opened Wrappers
  import opened CStrings
  import opened RequestMachine
  import opened RequestGrammar
  import opened Rendering
  import Sending

  const WRITE_BUFFER_SIZE: nat := 1024

  datatype HttpCode =
    | NoRequestCode | GetRequestCode | BadRequestCode | NoResourceCode
    | ForbiddenCode | FileCode | InternalErrorCode | ClosedCode

  const ERROR_404_FORM: string := "The requested file was not found on this server.\n"
  const ERROR_403_FORM: string := "You do not have permission to get file form this server.\n"
  const ERROR_500_FORM: string := "There was an unusual problem serving the request file.\n"

  function StatusLine(status: nat, title: string): string {
    "HTTP/1.1" + " " + Decimal(status) + " " + title + CRLF
  }

  function LengthLine(n: int): string { "Content-Length:" + SignedDecimal(n) }

  function LingerLine(linger: bool): string { "Connection:" + (if linger then "keep-alive" else "close") }

  function HeadersText(n: int, linger: bool): string {
    LengthLine(n) + CRLF + LingerLine(linger) + CRLF + CRLF
  }

  function ErrorText(status: nat, title: string, form: string, linger: bool): string {
    StatusLine(status, title) + HeadersText(|form|, linger) + form
  }

  /** The text in front of the file, or the whole answer; None if the connection is closed instead.
      An empty file falls through to the default case and is closed. */
  function ResponseText(code: HttpCode, linger: bool, fileSize: nat): Option<string> {
    match code
    case InternalErrorCode => Some(ErrorText(500, "Internal Error", ERROR_500_FORM, linger))
    case BadRequestCode => Some(ErrorText(404, "Not Found", ERROR_404_FORM, linger))
    case ForbiddenCode => Some(ErrorText(403, "Forbidden", ERROR_403_FORM, linger))
    case FileCode =>
      if fileSize == 0 then None
      else Some(StatusLine(200, "OK") + HeadersText(ToInt32(fileSize), linger))
    case _ => None
  }

  lemma Regroup(a: string, b: string, c: string, d: string)
    ensures a + b + c + d == a + (b + c + d)
  {
  }

  /** Both iovecs by the offset of their base, in the write buffer and the mapped file, and their length. */
  class ResponseBuffer {
    const writeBuf: array<char>
    var writeIdx: int
    var base0: int
    var len0: nat
    var base1: int
    var len1: nat
    var iovCount: int
    var bytesToSend: int

    ghost predicate Valid()
      reads this
    {
      writeBuf.Length == WRITE_BUFFER_SIZE && 0 <= writeIdx < WRITE_BUFFER_SIZE
    }

    ghost function Text(): string
      requires Valid()
      reads this, writeBuf
    {
      writeBuf[..writeIdx]
    }

    constructor ()
      ensures Valid() && fresh(writeBuf) && Text() == ""
    {
      writeBuf := new char[WRITE_BUFFER_SIZE](_ => NUL);
      writeIdx, iovCount, bytesToSend := 0, 0, 0;
      base0, len0, base1, len1 := 0, 0, 0, 0;
    }

    /** add_response with the formatted text: vsnprintf stores what fits with a NUL behind it, and the
        cursor moves only if all of it fits. */
    method AddResponse(text: string) returns (ok: bool)
      requires Valid()
      modifies this`writeIdx, writeBuf
      ensures Valid() && ok == (old(writeIdx) + |text| < 1023)
      ensures Text() == if ok then old(Text()) + text else old(Text())
    {
      if writeIdx >= WRITE_BUFFER_SIZE { return false; }
      var room := WRITE_BUFFER_SIZE - 1 - writeIdx;
      var stored := if |text| < room then |text| else if room > 0 then room - 1 else 0;
      forall i | 0 <= i < stored { writeBuf[writeIdx + i] := text[i]; }
      if room > 0 { writeBuf[writeIdx + stored] := NUL; }
      if |text| >= room { return false; }
      writeIdx := writeIdx + |text|;
      ok := true;
    }

    method AddHeaders(contentLength: int, linger: bool)
      requires Valid() && -INT_MAX - 1 <= contentLength <= INT_MAX
      requires writeIdx + |HeadersText(contentLength, linger)| < WRITE_BUFFER_SIZE - 1
      modifies this`writeIdx, writeBuf
      ensures Valid() && Text() == old(Text()) + HeadersText(contentLength, linger)
    {
      var t := LengthLine(contentLength) + CRLF;
      var u := LingerLine(linger) + CRLF;
      assert HeadersText(contentLength, linger) == t + u + CRLF;
      Regroup(Text(), t, u, CRLF);
      hide SignedDecimal, LengthLine, LingerLine, HeadersText, Text;
      var ok := AddResponse(t);
      ok := AddResponse(u);
      ok := AddResponse(CRLF);
    }

    method AddError(status: nat, title: string, form: string, linger: bool) returns (ok: bool)
      requires Valid() && Text() == "" && |form| <= 100 && |title| <= 20 && 100 <= status < 1000
      modifies this`writeIdx, writeBuf
      ensures Valid() && ok && Text() == ErrorText(status, title, form, linger)
    {
      hide HeadersText, StatusLine;
      StatusLineFits(status, title);
      HeadersFit(|form|, linger);
      ok := AddResponse(StatusLine(status, title));
      AddHeaders(|form|, linger);
      ok := AddResponse(form);
    }

    /** The transfer that writev is to make of the iovecs in use. */
    ghost function Transfer(): Sending.Transfer
      reads this
    {
      Sending.Transfer(base0, len0, if iovCount == 2 then base1 else 0, if iovCount == 2 then len1 else 0,
                       0, bytesToSend, [])
    }

    /** The response handed to write() is so many bytes of text and then of the file; the count left to
        send is stored in an int. */
    ghost predicate HandsOver(text: nat, file: nat)
      reads this
    {
      && bytesToSend == ToInt32(text + file)
      && Transfer() == Sending.Start(Sending.Job(text, file)).(toSend := bytesToSend)
    }

    /** process_write: the whole text is stored, whatever the code, flag and size, although no result of
        add_status_line and add_headers is looked at. */
    method ProcessWrite(code: HttpCode, linger: bool, fileSize: nat) returns (ok: bool)
      requires Valid() && Text() == ""
      modifies this, writeBuf
      ensures Valid()
      ensures ok <==> code == InternalErrorCode || code == BadRequestCode || code == ForbiddenCode
                      || (code == FileCode && fileSize > 0)
      ensures ok ==>
                && Text() == ResponseText(code, linger, fileSize).value
                && RightAnswer(code, Text(), linger, fileSize)
                && iovCount == (if code == FileCode then 2 else 1)
                && HandsOver(|Text()|, if code == FileCode then fileSize else 0)
    {
      hide HandsOver, HeadersText, StatusLine, ErrorText, ToInt32, RightAnswer;
      FormsAreShort();
      if ResponseText(code, linger, fileSize).Some? { AnswerDelimitsItself(code, linger, fileSize); }
      match code {
        case InternalErrorCode => ok := AddError(500, "Internal Error", ERROR_500_FORM, linger);
        case BadRequestCode => ok := AddError(404, "Not Found", ERROR_404_FORM, linger);
        case ForbiddenCode => ok := AddError(403, "Forbidden", ERROR_403_FORM, linger);
        case FileCode =>
          StatusLineFits(200, "OK");
          ok := AddResponse(StatusLine(200, "OK"));
          if fileSize != 0 {
            HeadersFit(ToInt32(fileSize), linger);
            AddHeaders(ToInt32(fileSize), linger);
            HandOverFile(fileSize);
            return true;
          }
          var empty := "<html><body></body></html>";
          HeadersFit(|empty|, linger);
          AddHeaders(|empty|, linger);
          ok := AddResponse(empty);
          return false;
        case _ => return false;
      }
      HandOverText();
    }

    method HandOverFile(fileSize: nat)
      requires Valid()
      modifies this`base0, this`len0, this`base1, this`len1, this`iovCount, this`bytesToSend
      ensures iovCount == 2 && HandsOver(writeIdx, fileSize)
    {
      base0, len0 := 0, writeIdx;
      base1, len1 := 0, fileSize;
      iovCount := 2;
      bytesToSend := ToInt32(writeIdx + fileSize);
    }

    method HandOverText()
      requires Valid()
      modifies this`base0, this`len0, this`iovCount, this`bytesToSend
      ensures iovCount == 1 && HandsOver(writeIdx, 0)
    {
      base0, len0 := 0, writeIdx;
      iovCount := 1;
      bytesToSend := ToInt32(writeIdx);
    }
  }

  lemma FormsAreShort()
    ensures |ERROR_500_FORM| <= 100 && |ERROR_404_FORM| <= 100 && |ERROR_403_FORM| <= 100
    ensures forall n: nat :: n < WRITE_BUFFER_SIZE ==> ToInt32(n) == n
  {
  }

  function PowerOfTen(k: nat): nat { if k == 0 then 1 else 10 * PowerOfTen(k - 1) }

  lemma {:induction false} DecimalFits(n: nat, k: nat)
    requires k > 0 && n < PowerOfTen(k)
    ensures |Decimal(n)| <= k
  {
    if n < 10 {
    } else {
      DecimalFits(n / 10, k - 1);
    }
  }

  lemma StatusLineFits(status: nat, title: string)
    requires status < 1000
    ensures |StatusLine(status, title)| <= 20 + |title|
  {
    hide Decimal;
    assert PowerOfTen(3) == 1000;
    DecimalFits(status, 3);
  }

  lemma HeadersFit(n: int, linger: bool)
    requires -INT_MAX - 1 <= n <= INT_MAX
    ensures |HeadersText(n, linger)| <= 60
  {
    hide Decimal;
    assert PowerOfTen(10) == 10 * PowerOfTen(9) == 100 * PowerOfTen(8) == 1_0000 * PowerOfTen(6) == 1_000_000 * PowerOfTen(4);
    assert PowerOfTen(4) == 10000;
    DecimalFits(if n < 0 then -n else n, 10);
  }

  /** Printed headers are read back: whatever follows them, a parser in header state that is fed the
      bytes of add_headers has the same length and the same linger flag at the empty line, where they
      end. */
  lemma HeadersReadBack(n: int, linger: bool, rest: string)
    requires -INT_MAX - 1 <= n <= INT_MAX
    ensures var s := HeadersText(n, linger) + rest;
            var at := |HeadersText(n, linger)|;
            var req := NO_REQUEST_YET.(linger := linger, contentLength := n);
            && EatHeaders(Split(s), 0, NO_REQUEST_YET) == EmptyLine(at, req)
            && Inv(s, Parser(Content, at, at, req))
            && Run(s, Parser(Header, 0, 0, NO_REQUEST_YET), true) ==
               if n == 0 then Complete(Parser(Header, at, at, req), None)
               else Run(s, Parser(Content, at, at, req), true)
  {
    hide Run, Split, EatHeaders, HeadersText;
    var s := HeadersText(n, linger) + rest;
    HeaderLines(n, linger, rest);
    HeaderLinesEaten(n, linger, Split(rest));
    assert s[0..] == s;
    RunEatsHeaders(s, Parser(Header, 0, 0, NO_REQUEST_YET));
  }

  lemma HeaderLines(n: int, linger: bool, rest: string)
    requires -INT_MAX - 1 <= n <= INT_MAX
    ensures Split(HeadersText(n, linger) + rest) == [LengthLine(n), LingerLine(linger), ""] + Split(rest)
  {
    hide Split, LengthLine, LingerLine, IsLineText, IsField, FieldValue, AsksKeepAlive;
    var a, b := LengthLine(n), LingerLine(linger);
    LengthLineReadBack(n);
    LingerLineReadBack(linger);
    EmptyLineText();
    var last := CRLF + rest;
    assert HeadersText(n, linger) + rest == a + CRLF + (b + CRLF + last);
    SplitLine(a, b + CRLF + last);
    SplitLine(b, last);
    assert last == "" + CRLF + rest;
    SplitLine("", rest);
    assert [a] + ([b] + ([""] + Split(rest))) == [a, b, ""] + Split(rest);
  }

  lemma HeaderLinesEaten(n: int, linger: bool, more: seq<string>)
    requires -INT_MAX - 1 <= n <= INT_MAX
    ensures EatHeaders([LengthLine(n), LingerLine(linger), ""] + more, 0, NO_REQUEST_YET) ==
            EmptyLine(|HeadersText(n, linger)|, NO_REQUEST_YET.(linger := linger, contentLength := n))
  {
    hide LengthLine, LingerLine, CStr, Summary, FoldHeaders, IsField, FieldValue, AsksKeepAlive, EatHeaders;
    var a, b := LengthLine(n), LingerLine(linger);
    var headers := [a, b];
    var lines := headers + [""] + more;
    LengthLineReadBack(n);
    LingerLineReadBack(linger);
    LineTextIsItsText(a);
    LineTextIsItsText(b);
    LineTextIsItsText("");
    assert [a, b, ""] + more == lines;
    EatHeadersTogether(lines, 0, NO_REQUEST_YET);
    FirstEmptyAfter(headers, more);
    ExtentOfThree(a, b, "");
    assert lines[..3] == [a, b, ""] && lines[..2] == headers;
    FoldIsSummary(Get, "", headers);
    SummaryOfTwo(a, b);
  }

  lemma ExtentOfThree(a: string, b: string, c: string)
    ensures Extent([a, b, c]) == |a| + |b| + |c| + 6
  {
    assert [a, b, c][1..] == [b, c] && [b, c][1..] == [c] && [c][1..] == [];
    assert Extent([c]) == |c| + 2 && Extent([b, c]) == |b| + 2 + Extent([c]);
  }

  /** The bytes of an answer: this first line, headers that are read back as this flag and the length of
      what follows, and behind the empty line this content; a file follows the bytes. */
  predicate IsAnswer(text: string, line: string, linger: bool, content: string, file: nat) {
    var lines := Split(text);
    && lines != [] && lines[0] == line && |line| + 2 <= |text|
    && var e := EatHeaders(Split(text[|line| + 2..]), 0, NO_REQUEST_YET);
       && e.EmptyLine? && e.req.linger == linger && e.req.contentLength == ToInt32(|content| + file)
       && |line| + 2 + e.at <= |text| && text[|line| + 2 + e.at..] == content
  }

  /** Which answer each code has. */
  predicate RightAnswer(code: HttpCode, text: string, linger: bool, fileSize: nat) {
    match code
    case InternalErrorCode =>
      IsAnswer(text, "HTTP/1.1 500 Internal Error", linger, "There was an unusual problem serving the request file.\n", 0)
    case BadRequestCode =>
      IsAnswer(text, "HTTP/1.1 404 Not Found", linger, "The requested file was not found on this server.\n", 0)
    case ForbiddenCode =>
      IsAnswer(text, "HTTP/1.1 403 Forbidden", linger, "You do not have permission to get file form this server.\n", 0)
    case FileCode => IsAnswer(text, "HTTP/1.1 200 OK", linger, "", fileSize)
    case _ => false
  }

  /** Every answer is the right one and delimits itself: behind its status line the headers give the
      linger flag and a length that is exactly what follows them, in the buffer or from the file. */
  lemma AnswerDelimitsItself(code: HttpCode, linger: bool, fileSize: nat)
    requires ResponseText(code, linger, fileSize).Some?
    ensures RightAnswer(code, ResponseText(code, linger, fileSize).value, linger, fileSize)
  {
    hide StatusLine, HeadersText, IsAnswer, ToInt32;
    FormsAreShort();
    Printed();
    match code
    case InternalErrorCode => FramedText(500, "Internal Error", linger, ERROR_500_FORM, 0);
    case BadRequestCode => FramedText(404, "Not Found", linger, ERROR_404_FORM, 0);
    case ForbiddenCode => FramedText(403, "Forbidden", linger, ERROR_403_FORM, 0);
    case FileCode =>
      FramedText(200, "OK", linger, "", fileSize);
      var n := ToInt32(fileSize);
      assert StatusLine(200, "OK") + HeadersText(n, linger) + "" == StatusLine(200, "OK") + HeadersText(n, linger);
    case _ =>
  }

  lemma Printed()
    ensures FirstLine(500, "Internal Error") == "HTTP/1.1 500 Internal Error"
    ensures FirstLine(404, "Not Found") == "HTTP/1.1 404 Not Found"
    ensures FirstLine(403, "Forbidden") == "HTTP/1.1 403 Forbidden"
    ensures FirstLine(200, "OK") == "HTTP/1.1 200 OK"
    ensures IsLineText("Internal Error") && IsLineText("Not Found") && IsLineText("Forbidden") && IsLineText("OK")
  {
    hide FirstLine;
    Line500();
    Line404();
    Line403();
    Line200();
  }

  lemma Line500()
    ensures FirstLine(500, "Internal Error") == "HTTP/1.1 500 Internal Error"
  {
    hide Decimal;
    ThreeDigits(500);
    assert "HTTP/1.1" + " " + "500" + " " + "Internal Error" == "HTTP/1.1 500 Internal Error";
  }

  lemma Line404()
    ensures FirstLine(404, "Not Found") == "HTTP/1.1 404 Not Found"
  {
    hide Decimal;
    ThreeDigits(404);
    assert "HTTP/1.1" + " " + "404" + " " + "Not Found" == "HTTP/1.1 404 Not Found";
  }

  lemma Line403()
    ensures FirstLine(403, "Forbidden") == "HTTP/1.1 403 Forbidden"
  {
    hide Decimal;
    ThreeDigits(403);
    assert "HTTP/1.1" + " " + "403" + " " + "Forbidden" == "HTTP/1.1 403 Forbidden";
  }

  lemma Line200()
    ensures FirstLine(200, "OK") == "HTTP/1.1 200 OK"
  {
    hide Decimal;
    ThreeDigits(200);
    assert "HTTP/1.1" + " " + "200" + " " + "OK" == "HTTP/1.1 200 OK";
  }

  lemma ThreeDigits(n: nat)
    requires 100 <= n < 1000
    ensures Decimal(n) == [('0' as int + n / 100) as char, ('0' as int + n / 10 % 10) as char, ('0' as int + n % 10) as char]
  {
    assert n / 10 / 10 == n / 100;
    assert Decimal(n / 10 / 10) == [('0' as int + n / 100) as char];
    assert Decimal(n / 10) == Decimal(n / 10 / 10) + [('0' as int + n / 10 % 10) as char];
  }

  function FirstLine(status: nat, title: string): string { "HTTP/1.1" + " " + Decimal(status) + " " + title }

  lemma FramedText(status: nat, title: string, linger: bool, rest: string, file: nat)
    requires IsLineText(title)
    ensures IsAnswer(StatusLine(status, title) + HeadersText(ToInt32(|rest| + file), linger) + rest,
                     FirstLine(status, title), linger, rest, file)
  {
    hide HeadersText, Split, EatHeaders, Run, ToInt32;
    var line := FirstLine(status, title);
    StatusIsLineText(status, title);
    var n := ToInt32(|rest| + file);
    var text := HeadersText(n, linger) + rest;
    assert StatusLine(status, title) + HeadersText(n, linger) + rest == line + CRLF + text;
    SplitLine(line, text);
    assert (line + CRLF + text)[|line| + 2..] == text;
    HeadersReadBack(n, linger, rest);
    var at := |HeadersText(n, linger)|;
    assert (line + CRLF + text)[|line| + 2 + at..] == rest;
  }

  lemma StatusIsLineText(status: nat, title: string)
    requires IsLineText(title)
    ensures IsLineText("HTTP/1.1" + " " + Decimal(status) + " " + title)
  {
    hide Decimal;
    var d := Decimal(status);
    assert IsLineText("HTTP/1.1");
    assert forall c :: c in d ==> IsDigit(c);
    assert forall c :: c in "HTTP/1.1" + " " + d + " " + title ==> c in "HTTP/1.1" || c == ' ' || c in d || c in title;
  }

  lemma LengthLineReadBack(n: int)
    requires -INT_MAX - 1 <= n <= INT_MAX
    ensures var a := LengthLine(n);
            && IsLineText(a) && a != "" && IsField(a, CONTENT_LENGTH)
            && ToInt32(Atol(FieldValue(a, CONTENT_LENGTH))) == n
  {
    hide SignedDecimal, Atol, ToInt32, StrAt, CStr;
    var a := LengthLine(n);
    var d := SignedDecimal(n);
    PrintedNumberReadBack(n);
    assert forall c :: c in a ==> c in "Content-Length:" || c in d;
    NamesAreLineText();
    LineTextIsItsText(a);
    assert a[..15] == "Content-Length:";
    assert a[15..] == d;
    SameNameIgnoringCase();
  }

  lemma LingerLineReadBack(linger: bool)
    ensures var b := LingerLine(linger);
            && IsLineText(b) && b != "" && IsField(b, CONNECTION)
            && AsksKeepAlive(b) == linger
  {
    hide StrAt, CStr;
    var b := LingerLine(linger);
    var v := if linger then "keep-alive" else "close";
    NamesAreLineText();
    assert forall c :: c in b ==> c in CONNECTION || c in v;
    LineTextIsItsText(b);
    assert b[..11] == CONNECTION && b[11..] == v;
    IndexOfUnique(v, NotBlank, 0);
  }

  lemma NamesAreLineText()
    ensures IsLineText(CONNECTION) && IsLineText("Content-Length:")
    ensures IsLineText("keep-alive") && IsLineText("close")
  {
  }

  lemma SameNameIgnoringCase()
    ensures SameIgnoringCase("Content-Length:", CONTENT_LENGTH)
  {
  }

  lemma SummaryOfTwo(a: string, b: string)
    requires IsField(a, CONTENT_LENGTH) && IsField(b, CONNECTION)
    ensures var req := Summary(Get, "", [a, b]);
            req == Request(Get, "", None, AsksKeepAlive(b), ToInt32(Atol(FieldValue(a, CONTENT_LENGTH))))
  {
    hide IsField, FieldValue, AsksKeepAlive;
    var headers := [a, b];
    FieldsExclusive(a);
    FieldsExclusive(b);
    assert headers[0] == a && headers[1] == b;
    NotKeepAlive(a);
    assert AsksKeepAlive(b) ==> AsksKeepAlive(headers[1]);
  }

  lemma NotKeepAlive(a: string)
    requires IsField(a, CONTENT_LENGTH)
    ensures !AsksKeepAlive(a)
  {
    hide IsField;
    FieldsExclusive(a);
  }
}
