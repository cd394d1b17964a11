/** Requests and headers printed and parsed again. */
module Rendering {
  import opened Wrappers
  import opened CStrings
  import opened RequestMachine
  import opened RequestGrammar
  import opened RequestLines

  const CRLF: string := [CR, LF]

  /** Text that fits on one line of a request. */
  predicate IsLineText(t: string) { CR !in t && LF !in t && NUL !in t }

  function RenderHeaders(headers: seq<string>): string {
    if headers == [] then "" else headers[0] + CRLF + RenderHeaders(headers[1..])
  }

  function Render(line: string, headers: seq<string>, body: string): string {
    line + CRLF + RenderHeaders(headers) + CRLF + body
  }

  lemma SplitLine(line: string, rest: string)
    requires IsLineText(line)
    ensures Split(line + CRLF + rest) == [line] + Split(rest)
  {
    SplitFirst(line, rest);
  }

  lemma SplitFirst(line: string, rest: string)
    requires CR !in line && LF !in line
    ensures Split(line + CRLF + rest) == [line] + Split(rest)
  {
    var s := line + CRLF + rest;
    var k := |line|;
    assert s[k] == CR && s[k + 1] == LF;
    assert forall j :: 0 <= j < k ==> s[j] == line[j] && line[j] in line;
    IndexOfUnique(s, IsBreak, k);
    assert s[..k] == line;
    assert s[k + 2..] == rest;
  }

  lemma EmptyLineText()
    ensures IsLineText("")
  {
  }

  lemma {:induction false} SplitHeaders(headers: seq<string>, body: string)
    requires forall h :: h in headers ==> IsLineText(h)
    ensures Split(RenderHeaders(headers) + CRLF + body) == headers + [""] + Split(body)
  {
    hide Split, IsLineText;
    if headers == [] {
      EmptyLineText();
      SplitLine("", body);
      assert "" + CRLF + body == RenderHeaders(headers) + CRLF + body;
      assert [""] + Split(body) == headers + [""] + Split(body);
    } else {
      var rest := RenderHeaders(headers[1..]) + CRLF + body;
      assert RenderHeaders(headers) + CRLF + body == headers[0] + CRLF + rest;
      SplitLine(headers[0], rest);
      SplitHeaders(headers[1..], body);
      assert [headers[0]] + (headers[1..] + [""] + Split(body)) == headers + [""] + Split(body);
    }
  }

  lemma {:induction false} FirstEmptyAfter(headers: seq<string>, more: seq<string>)
    requires forall h :: h in headers ==> CStr(h) != ""
    ensures FirstEmpty(headers + [""] + more) == |headers|
  {
    var all := headers + [""] + more;
    if headers == [] {
    } else {
      assert all[1..] == headers[1..] + [""] + more;
      assert headers[0] in headers;
      FirstEmptyAfter(headers[1..], more);
    }
  }

  lemma {:induction false} ExtentOfHeaders(headers: seq<string>)
    ensures Extent(headers + [""]) == |RenderHeaders(headers)| + 2
  {
    var all := headers + [""];
    if headers != [] {
      assert all[1..] == headers[1..] + [""];
      ExtentOfHeaders(headers[1..]);
    } else {
      assert all[1..] == [];
    }
  }

  lemma LineTextIsItsText(t: string)
    requires NUL !in t
    ensures CStr(t) == t
  {
    StrAtUnique(t, 0, t);
  }

  /** A printed head is read back: its request line, the summary of its headers, its length. */
  lemma RenderedHeadParses(line: string, headers: seq<string>, body: string)
    requires IsLineText(line) && ParseRequestLine(line).Some?
    requires forall h :: h in headers ==> IsLineText(h) && h != ""
    ensures var target := ParseRequestLine(line).value;
            var s := Render(line, headers, body);
            ParseHead(s) == HeadDone(Summary(target.0, target.1, headers), |s| - |body|)
  {
    hide ParseRequestLine, Summary, CStr, Split, FirstEmpty;
    var s := Render(line, headers, body);
    var rest := RenderHeaders(headers) + CRLF + body;
    assert s == line + CRLF + rest;
    SplitLine(line, rest);
    SplitHeaders(headers, body);
    LineTextIsItsText(line);
    forall h | h in headers ensures CStr(h) != "" { LineTextIsItsText(h); }
    FirstEmptyAfter(headers, Split(body));
    var lines := Split(s);
    assert lines[1..] == headers + [""] + Split(body);
    assert lines[1..1 + |headers|] == headers;
    assert lines[..|headers| + 2] == [line] + (headers + [""]);
    assert ([line] + (headers + [""]))[1..] == headers + [""];
    ExtentOfHeaders(headers);
  }

  function VerbName(verb: Method): string { if verb == Get then "GET" else "POST" }

  function RequestLineOf(verb: Method, url: string): string { VerbName(verb) + " " + url + " " + "HTTP/1.1" }

  /** Every plain request line is read back; the URL "/" becomes the default page. */
  lemma RequestLineReadBack(verb: Method, url: string)
    requires url != "" && url[0] == '/' && IsLineText(url) && NoBlank(url)
    ensures IsLineText(RequestLineOf(verb, url))
    ensures ParseRequestLine(RequestLineOf(verb, url)) == Some((verb, if |url| == 1 then "/judge.html" else url))
  {
    hide ParseRequestLine, SameIgnoringCase, IsLineText;
    PlainWords(verb);
    LineOfLines(VerbName(verb), url);
    assert "" + url == url;
    LineMeansItsParts(RequestLineOf(verb, url), VerbName(verb), " ", "", url, " ", "HTTP/1.1");
  }

  lemma LineOfLines(word: string, url: string)
    requires IsLineText(word) && IsLineText(url)
    ensures IsLineText(word + " " + url + " " + "HTTP/1.1")
  {
    assert IsLineText("HTTP/1.1");
    assert forall c :: c in word + " " + url + " " + "HTTP/1.1" ==> c in word || c == ' ' || c in url || c in "HTTP/1.1";
  }

  lemma PlainWords(verb: Method)
    ensures var word := VerbName(verb);
            && IsLineText(word) && NoBlank(word) && SameIgnoringCase("HTTP/1.1", "HTTP/1.1")
            && (SameIgnoringCase(word, "GET") <==> verb == Get) && (SameIgnoringCase(word, "POST") <==> verb == Post)
  {
    FirstDiffers("POST", "GET");
    FirstDiffers("GET", "POST");
  }

  // ----- the length of a body

  function LengthHeader(n: nat): string { CONTENT_LENGTH + " " + Decimal(n) }

  lemma FieldNamesAreLineText()
    ensures IsLineText(CONTENT_LENGTH + " ")
  {
    assert forall c :: c in CONTENT_LENGTH + " " ==> c in CONTENT_LENGTH || c == ' ';
  }

  lemma LengthHeaderIsLine(n: nat)
    requires n <= INT_MAX
    ensures IsLineText(LengthHeader(n)) && LengthHeader(n) != ""
  {
    hide Decimal;
    var d := Decimal(n);
    FieldNamesAreLineText();
    assert forall i {:trigger d[i]} :: 0 <= i < |d| ==> d[i] != CR && d[i] != LF && d[i] != NUL;
    assert forall c :: c in LengthHeader(n) ==> c in CONTENT_LENGTH + " " || c in d;
  }

  lemma LengthHeaderValue(n: nat)
    ensures NUL !in LengthHeader(n) ==>
              IsField(LengthHeader(n), CONTENT_LENGTH) && FieldValue(LengthHeader(n), CONTENT_LENGTH) == Decimal(n)
  {
    hide StrAt, CStr, Decimal, IndexOf;
    var d := Decimal(n);
    var h := LengthHeader(n);
    if NUL !in h {
      LineTextIsItsText(h);
      assert h[..|CONTENT_LENGTH|] == CONTENT_LENGTH;
      var v := h[|CONTENT_LENGTH|..];
      assert v == " " + d && v[1] == d[0];
      IndexOfUnique(v, NotBlank, 1);
      assert v[1..] == d;
    }
  }

  lemma LengthHeaderReadBack(n: nat)
    requires n <= INT_MAX
    ensures IsLineText(LengthHeader(n)) && LengthHeader(n) != "" && IsField(LengthHeader(n), CONTENT_LENGTH)
    ensures ToInt32(Atol(FieldValue(LengthHeader(n), CONTENT_LENGTH))) == n
  {
    hide Atol, ToInt32, Decimal, IsField, FieldValue, LengthHeader;
    LengthHeaderIsLine(n);
    LengthHeaderValue(n);
    PrintedNumberReadBack(n);
  }
}
