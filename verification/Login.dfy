/** Requests for pages, logins and registrations end to end: from the rendered request, in pieces, to the
    page. */
module Login {
  import opened Wrappers
  import opened CStrings
  import opened RequestMachine
  import opened RequestGrammar
  import opened RequestLines
  import opened Rendering
  import opened Fragmentation
  import opened PageSelection
  import opened HttpConnection

  /** A form posted to a URL, its Content-length among any other headers. */
  datatype Form = Form(url: string, before: seq<string>, after: seq<string>, name: string, password: string)

  function BodyOf(f: Form): string { "user=" + f.name + "&password=" + f.password }

  function HeadersOf(f: Form): seq<string> { f.before + [LengthHeader(|BodyOf(f)|)] + f.after }

  function RequestOf(f: Form): string { Render(RequestLineOf(Post, f.url), HeadersOf(f), BodyOf(f)) }

  predicate FitsField(t: string) { |t| <= FIELD_ROOM && NUL !in t }

  predicate IsPlainUrl(url: string) { |url| >= 2 && url[0] == '/' && IsLineText(url) && NoBlank(url) }

  /** Fields and headers as they may be; only another Content-length must not follow. */
  predicate Posted(f: Form) {
    && IsPlainUrl(f.url) && |f.url| <= COPY_ROOM
    && FitsField(f.name) && FitsField(f.password)
    && (forall h :: h in f.before + f.after ==> IsLineText(h) && h != "")
    && (forall h :: h in f.after ==> !IsField(h, CONTENT_LENGTH))
  }

  /** No call before the last sees the bytes up to a point strictly inside the body. */
  predicate WholeBody(pieces: seq<string>, bodyLength: nat) {
    var n := |Concat(pieces)|;
    forall k :: 0 <= k < |pieces| ==> !(n - bodyLength < |Concat(pieces[..k])| < n)
  }

  lemma FormReadBack(f: Form)
    requires FitsField(f.name) && FitsField(f.password) && '&' !in f.name
    ensures FormFields(BodyOf(f)) == Some((f.name, f.password))
  {
    hide FormFields, CStr;
    FieldsByPosition("user=", f.name, "password=", f.password);
    assert BodyOf(f) == "user=" + f.name + "&" + "password=" + f.password;
    LineTextIsItsText(f.name);
    LineTextIsItsText(f.password);
  }

  lemma SummaryOfForm(f: Form)
    requires Posted(f)
    ensures var req := Summary(Post, f.url, HeadersOf(f));
            req.verb == Post && req.url == f.url && req.contentLength == |BodyOf(f)| > 0
  {
    hide IsField, FieldValue, LengthHeader, IsLineText, IsPlainUrl;
    var n := |BodyOf(f)|;
    var headers := HeadersOf(f);
    LengthHeaderReadBack(n);
    assert headers[|f.before|] == LengthHeader(n);
    assert forall j :: |f.before| < j < |headers| ==> headers[j] == f.after[j - |f.before| - 1] && headers[j] in f.after;
  }

  lemma BodyIsShort(f: Form)
    requires FitsField(f.name) && FitsField(f.password)
    ensures |BodyOf(f)| <= 300
  {
  }

  lemma FormHead(f: Form)
    requires Posted(f)
    ensures var s := RequestOf(f);
            var n := |BodyOf(f)|;
            var h := ParseHead(s);
            && 0 < n <= |s| && s[|s| - n..|s|] == BodyOf(f)
            && h.HeadDone? && h.bodyStart == |s| - n
            && h.req.verb == Post && h.req.url == f.url && h.req.contentLength == n
  {
    hide ParseRequestLine, Summary, ParseHead, IsField, LengthHeader, IsLineText, NoBlank, BodyOf, RenderHeaders;
    RequestLineReadBack(Post, f.url);
    BodyIsShort(f);
    LengthHeaderReadBack(|BodyOf(f)|);
    RenderedHeadParses(RequestLineOf(Post, f.url), HeadersOf(f), BodyOf(f));
    SummaryOfForm(f);
  }

  // ----- forms

  /** Exactly when the pieces of a form are answered: no call before the last sees the bytes up to a point
      strictly inside the body, whose first byte is a letter. Otherwise no call ever answers. */
  lemma FormAnsweredExactly(f: Form, pieces: seq<string>)
    requires Posted(f) && Concat(pieces) == RequestOf(f) && |Concat(pieces)| < READ_BUFFER_SIZE
    ensures var o := Feed("", INITIAL, pieces);
            && (o.Complete? <==> WholeBody(pieces, |BodyOf(f)|))
            && (o.NoRequest? <==> !WholeBody(pieces, |BodyOf(f)|))
            && (o.Complete? ==> o.body == Some(BodyOf(f)) && o.parser.req.verb == Post && o.parser.req.url == f.url)
  {
    hide ParseHead, Derails, Feed, Posted, BodyOf, ParseWhole, RequestOf, Concat;
    var s := Concat(pieces);
    var start := |s| - |BodyOf(f)|;
    FormHead(f);
    OneCallMeetsGrammar(s);
    forall k | 0 <= k < |pieces|
      ensures Derails(Concat(pieces[..k])) <==> start < |Concat(pieces[..k])| < |s|
    {
      ConcatSplits(pieces, k);
      PrefixDerails(f, Concat(pieces[..k]), Concat(pieces[k..]));
    }
    if forall k :: 0 <= k < |pieces| ==> !Derails(Concat(pieces[..k])) {
      FragmentsAgree(pieces);
    } else {
      var k := FirstDerailed(pieces, 0);
      DerailedRunStarves(pieces, k);
    }
  }

  lemma PrefixDerails(f: Form, p: string, rest: string)
    requires Posted(f) && p + rest == RequestOf(f)
    ensures var n := |p + rest|; Derails(p) <==> n - |BodyOf(f)| < |p| < n
  {
    hide ParseHead, Posted, BodyOf, RequestOf;
    var s := p + rest;
    var start := |s| - |BodyOf(f)|;
    FormHead(f);
    if start < |p| < |s| {
      PartDerails(f, |p| - start);
      assert s[..|p|] == p;
    } else if ParseHead(p) != NoHead {
      HeadIsStable(p, rest);
    }
  }

  lemma PartDerails(f: Form, cut: nat)
    requires Posted(f) && 0 < cut < |BodyOf(f)|
    ensures var s := RequestOf(f);
            var k := |s| - |BodyOf(f)| + cut;
            0 <= k <= |s| && Derails(s[..k])
  {
    hide ParseRequestLine, Summary, ParseHead, IsField, LengthHeader, RenderHeaders, Split, IsLineText, NoBlank;
    var body := BodyOf(f);
    var line := RequestLineOf(Post, f.url);
    RequestLineReadBack(Post, f.url);
    LengthHeaderReadBack(|body|);
    SummaryOfForm(f);
    RenderedHeadParses(line, HeadersOf(f), body[..cut]);
    CutRender(line, HeadersOf(f), body, cut);
    hide Render, RequestLineOf;
    var part := Render(line, HeadersOf(f), body[..cut]);
    assert part[|part| - cut..][0] == 'u';
  }

  /** Cutting a rendered request inside its body gives the one with the cut body. */
  lemma CutRender(line: string, headers: seq<string>, body: string, cut: nat)
    requires cut <= |body|
    ensures var s := Render(line, headers, body);
            var part := Render(line, headers, body[..cut]);
            && cut <= |part| == |s| - |body| + cut <= |s|
            && part == s[..|part|] && part[|part| - cut..] == body[..cut]
  {
    hide RenderHeaders;
    var head := line + CRLF + RenderHeaders(headers) + CRLF;
    assert Render(line, headers, body) == head + body;
    assert Render(line, headers, body[..cut]) == head + body[..cut];
  }

  /** Login and registration end to end. Whatever the other headers, whatever pieces the request comes in
      that keep the body whole, do_request is reached with exactly the name and password typed. A login is
      answered with the welcome page if and only if the users hold that password for that name; a
      registration with the log-in page if and only if the name was free and the insert succeeded. */
  lemma FormRoundTrip(f: Form, users: map<string, string>, inserted: bool, pieces: seq<string>)
    requires Posted(f) && '&' !in f.name
    requires Concat(pieces) == RequestOf(f) && |Concat(pieces)| < READ_BUFFER_SIZE && WholeBody(pieces, |BodyOf(f)|)
    ensures var o := Feed("", INITIAL, pieces);
            && o.Complete? && o.body == Some(BodyOf(f)) && FormFields(o.body.value) == Some((f.name, f.password))
            && FormPage(f, users, inserted, SelectPage(o.parser.req, o.body, users, inserted))
  {
    hide FormFields, Feed, BodyOf, SelectPage, Concat, WholeBody, KeyIs, RequestOf, FitsField;
    FormAnsweredExactly(f, pieces);
    FormReadBack(f);
    var req := Feed("", INITIAL, pieces).parser.req;
    if KeyIs(f.url, '2') { LoginByKey(req, BodyOf(f), users, inserted); }
    if KeyIs(f.url, '3') && |f.name| + |f.password| + 49 < 200 { RegistrationByKey(req, BodyOf(f), users, inserted); }
  }

  predicate FormPage(f: Form, users: map<string, string>, inserted: bool, page: Selection) {
    && (KeyIs(f.url, '2') ==>
          page == Page(if f.name in users && users[f.name] == f.password then "/welcome.html" else "/logError.html", users))
    && (KeyIs(f.url, '3') && |f.name| + |f.password| + 49 < 200 ==>
          page == Page(if f.name !in users && inserted then "/log.html" else "/registerError.html",
                       if f.name in users then users else users[f.name := f.password]))
  }

  /** The same of the object: a fresh connection that is handed the pieces answers with that page. */
  method ServeForm(conn: HttpConn, pieces: seq<string>, users: map<string, string>, inserted: bool, ghost f: Form)
    returns (page: Selection)
    requires conn.Valid() && conn.State() == INITIAL && conn.received == ""
    requires forall i :: 0 <= i < |pieces| ==> pieces[i] != ""
    requires Posted(f) && '&' !in f.name
    requires Concat(pieces) == RequestOf(f) && |Concat(pieces)| < READ_BUFFER_SIZE && WholeBody(pieces, |BodyOf(f)|)
    modifies conn, conn.readBuf
    ensures FormPage(f, users, inserted, page)
  {
    FormRoundTrip(f, users, inserted, pieces);
    hide FormFields, Feed, SelectPage, Concat, WholeBody, FormPage, RequestOf, Posted;
    var code;
    code, page := conn.Serve(pieces, users, inserted);
  }

  // ----- pages without a form

  /** A request without a Content-length has no body, and arrives whole in whatever pieces. */
  lemma PlainRequestArrives(verb: Method, url: string, headers: seq<string>, pieces: seq<string>)
    requires IsPlainUrl(url) && Concat(pieces) == Render(RequestLineOf(verb, url), headers, "")
    requires forall h :: h in headers ==> IsLineText(h) && h != "" && !IsField(h, CONTENT_LENGTH)
    ensures var o := Feed("", INITIAL, pieces);
            o.Complete? && o.body == None && o.parser.req.verb == verb && o.parser.req.url == url
  {
    hide ParseHead, Derails, Feed, ParseWhole, Concat, ParseRequestLine, Summary, IsField, IsLineText, NoBlank, Render, RequestLineOf;
    var s := Concat(pieces);
    RequestLineReadBack(verb, url);
    RenderedHeadParses(RequestLineOf(verb, url), headers, "");
    NoLength(verb, url, headers);
    OneCallMeetsGrammar(s);
    forall k | 0 <= k < |pieces| ensures !Derails(Concat(pieces[..k])) {
      ConcatSplits(pieces, k);
      NoBodyNeverDerails(Concat(pieces[..k]), Concat(pieces[k..]));
    }
    FragmentsAgree(pieces);
  }

  lemma NoLength(verb: Method, url: string, headers: seq<string>)
    requires forall h :: h in headers ==> !IsField(h, CONTENT_LENGTH)
    ensures var req := Summary(verb, url, headers); req.verb == verb && req.url == url && req.contentLength == 0
  {
    hide IsField, FieldValue;
    assert forall i :: 0 <= i < |headers| ==> headers[i] in headers && !IsField(headers[i], CONTENT_LENGTH);
  }

  lemma NoBodyNeverDerails(p: string, rest: string)
    requires ParseHead(p + rest).HeadDone? && ParseHead(p + rest).req.contentLength == 0
    ensures !Derails(p)
  {
    hide ParseHead;
    if ParseHead(p) != NoHead { HeadIsStable(p, rest); }
  }

  /** The object answers such a request with the file of its URL. */
  method ServeFile(conn: HttpConn, pieces: seq<string>, users: map<string, string>, inserted: bool,
                   ghost verb: Method, ghost url: string, ghost headers: seq<string>)
    returns (page: Selection)
    requires conn.Valid() && conn.State() == INITIAL && conn.received == ""
    requires forall i :: 0 <= i < |pieces| ==> pieces[i] != ""
    requires IsPlainUrl(url) && Concat(pieces) == Render(RequestLineOf(verb, url), headers, "")
    requires |Concat(pieces)| <= READ_BUFFER_SIZE
    requires forall h :: h in headers ==> IsLineText(h) && h != "" && !IsField(h, CONTENT_LENGTH)
    requires verb == Post ==> !KeyIs(url, '2') && !KeyIs(url, '3')
    modifies conn, conn.readBuf
    ensures page.Page? && page.users == users && RightFile(url, page.file)
  {
    PlainRequestArrives(verb, url, headers, pieces);
    hide Feed, SelectPage, Concat, IsField, IsLineText, Render, RequestLineOf, KeyIs, RightFile;
    FilesByKey(Feed("", INITIAL, pieces).parser.req, None, users, inserted);
    var code;
    code, page := conn.Serve(pieces, users, inserted);
  }
}
