/** do_request up to the file system: which page a complete request is answered with, and what a
    registration adds to the users. */
module PageSelection {
  import opened Wrappers
  import opened CStrings
  import opened RequestMachine

  /** NoDefinedPage marks a form or URL that does not fit the local arrays, and a form without its
      '&' or without a body. */
  datatype Selection = Page(file: string, users: map<string, string>) | NoDefinedPage

  const FIELD_ROOM: nat := 99
  const PATH_ROOM: nat := 169
  const COPY_ROOM: nat := 200

  predicate IsAmpersand(c: char) { c == '&' }

  /** user=NAME&password=PASSWORD, by position: NAME from index 5 to the first '&', PASSWORD from ten
      characters behind it to the first NUL or the end. */
  function FormFields(body: string): (r: Option<(string, string)>)
    ensures r.Some? ==> |body| >= 15
  {
    if |body| < 5 then None
    else
      var i := 5 + IndexOf(body[5..], IsAmpersand);
      if i == |body| || i - 5 > FIELD_ROOM || i + 10 > |body| then None
      else
        var password := CStr(body[i + 10..]);
        if |password| > FIELD_ROOM then None else Some((CStr(body[5..i]), password))
  }

  function InsertStatement(name: string, password: string): string {
    "INSERT INTO user(username, passwd) VALUES('" + name + "', '" + password + "')"
  }

  /** strncpy into the path array cuts what does not fit. */
  function FitPath(path: string): string {
    if |path| <= PATH_ROOM then path else path[..PATH_ROOM]
  }

  /** The character behind the last '/' of the URL, NUL if there is none. */
  function PageKey(url: string): char {
    var k := LastSlash(url) + 1;
    if k < |url| then url[k] else NUL
  }

  function FixedPage(key: char, otherwise: string): string {
    match key
    case '0' => "/register.html"
    case '1' => "/log.html"
    case '5' => "/picture.html"
    case '6' => "/video.html"
    case '7' => "/fans.html"
    case _ => FitPath(otherwise)
  }

  /** inserted: whether the database took a new user. */
  function SelectPage(req: Request, body: Option<string>, users: map<string, string>, inserted: bool): Selection {
    var key := PageKey(req.url);
    if req.verb == Post && (key == '2' || key == '3') then
      var form := if body == None then None else FormFields(body.value);
      if form == None || |req.url| > COPY_ROOM then NoDefinedPage
      else
        var (name, password) := form.value;
        if key == '2' then Page(LoginPage(name, password, users), users)
        else if |InsertStatement(name, password)| >= COPY_ROOM then NoDefinedPage
        else if name in users then Page("/registerError.html", users)
        else Page(if inserted then "/log.html" else "/registerError.html", users[name := password])
    else Page(FixedPage(key, req.url), users)
  }

  function LoginPage(name: string, password: string, users: map<string, string>): string {
    if name in users && users[name] == password then "/welcome.html" else "/logError.html"
  }

  // ----- pages by key

  /** The character behind the last '/' of the URL. */
  predicate KeyIs(url: string, c: char) {
    exists k :: 0 <= k < |url| - 1 && url[k] == '/' && url[k + 1] == c && '/' !in url[k + 1..]
  }

  /** The file for a URL outside a form: five keys have pages of their own, any other URL names its file,
      of which at most 169 characters fit. */
  predicate RightFile(url: string, file: string) {
    && (KeyIs(url, '0') ==> file == "/register.html")
    && (KeyIs(url, '1') ==> file == "/log.html")
    && (KeyIs(url, '5') ==> file == "/picture.html")
    && (KeyIs(url, '6') ==> file == "/video.html")
    && (KeyIs(url, '7') ==> file == "/fans.html")
    && (!KeyIs(url, '0') && !KeyIs(url, '1') && !KeyIs(url, '5') && !KeyIs(url, '6') && !KeyIs(url, '7') ==>
          file == if |url| <= 169 then url else url[..169])
  }

  lemma KeyFound(url: string, c: char)
    requires url != "" && url[0] == '/' && c != '/' && c != NUL
    ensures KeyIs(url, c) <==> PageKey(url) == c
  {
    var k := LastSlash(url);
    if KeyIs(url, c) {
      var j :| 0 <= j < |url| - 1 && url[j] == '/' && url[j + 1] == c && '/' !in url[j + 1..];
      forall i | j < i < |url| ensures url[i] != '/' {
        assert url[i] == url[j + 1..][i - j - 1];
      }
    }
    if PageKey(url) == c {
      assert k + 1 < |url| && url[k] == '/' && url[k + 1] == c;
      assert '/' !in url[k + 1..];
    }
  }

  /** Every request that is not a form gets its file, and the users stay as they are. */
  lemma FilesByKey(req: Request, body: Option<string>, users: map<string, string>, inserted: bool)
    requires req.url != "" && req.url[0] == '/'
    requires req.verb == Post ==> !KeyIs(req.url, '2') && !KeyIs(req.url, '3')
    ensures var r := SelectPage(req, body, users, inserted);
            r.Page? && r.users == users && RightFile(req.url, r.file)
  {
    hide PageKey, KeyIs, FormFields, InsertStatement;
    KeyFound(req.url, '0');
    KeyFound(req.url, '1');
    KeyFound(req.url, '2');
    KeyFound(req.url, '3');
    KeyFound(req.url, '5');
    KeyFound(req.url, '6');
    KeyFound(req.url, '7');
  }

  /** A login form gets the welcome page if and only if the users hold the password. */
  lemma LoginByKey(req: Request, form: string, users: map<string, string>, inserted: bool)
    requires req.verb == Post && KeyIs(req.url, '2') && 0 < |req.url| <= 200 && req.url[0] == '/' && FormFields(form).Some?
    ensures var (name, password) := FormFields(form).value;
            SelectPage(req, Some(form), users, inserted)
            == Page(if name in users && users[name] == password then "/welcome.html" else "/logError.html", users)
  {
    hide PageKey, KeyIs, FormFields, InsertStatement, FixedPage;
    KeyFound(req.url, '2');
  }

  /** A registration gets the log-in page if and only if the name was free and the insert succeeded; the
      name is known from then on. */
  lemma RegistrationByKey(req: Request, form: string, users: map<string, string>, inserted: bool)
    requires req.verb == Post && KeyIs(req.url, '3') && 0 < |req.url| <= 200 && req.url[0] == '/' && FormFields(form).Some?
    requires var (name, password) := FormFields(form).value; |name| + |password| + 49 < 200
    ensures var (name, password) := FormFields(form).value;
            SelectPage(req, Some(form), users, inserted)
            == Page(if name !in users && inserted then "/log.html" else "/registerError.html",
                    if name in users then users else users[name := password])
  {
    hide PageKey, KeyIs, FormFields, FixedPage;
    KeyFound(req.url, '3');
    var (name, password) := FormFields(form).value;
    StatementLength(name, password);
    hide InsertStatement;
  }

  lemma StatementLength(name: string, password: string)
    ensures |InsertStatement(name, password)| == |name| + |password| + 49
  {
  }

  /** The fields of a form go by position: five characters, the name up to the first '&', nine characters
      behind it, the password; both end at a NUL, and at most 99 characters fit. */
  lemma FieldsByPosition(first: string, name: string, second: string, password: string)
    requires |first| == 5 && '&' !in name && |second| == 9
    ensures FormFields(first + name + "&" + second + password)
         == if |name| > 99 || |CStr(password)| > 99 then None else Some((CStr(name), CStr(password)))
  {
    hide CStr;
    var b := first + name + "&" + second + password;
    var rest := b[5..];
    assert rest == name + "&" + second + password;
    assert rest[|name|] == '&';
    assert forall j :: 0 <= j < |name| ==> rest[j] == name[j] && name[j] in name;
    IndexOfUnique(rest, IsAmpersand, |name|);
    assert b[5..5 + |name|] == name;
    assert b[5 + |name| + 10..] == password;
  }

  /** Registering changes no other account, nor a known one; the same form then logs in if the name
      was free or had this password, even when the database refused the new user. */
  lemma RegisteredLogsIn(reg: Request, login: Request, form: string, users: map<string, string>, inserted: bool, late: bool)
    requires reg.verb == Post && PageKey(reg.url) == '3' && SelectPage(reg, Some(form), users, inserted).Page?
    requires login.verb == Post && PageKey(login.url) == '2' && |login.url| <= COPY_ROOM
    ensures FormFields(form).Some?
    ensures var (name, password) := FormFields(form).value;
            var after := SelectPage(reg, Some(form), users, inserted).users;
            && (forall n :: n in users ==> n in after && after[n] == users[n])
            && (forall n :: n in after && n != name ==> n in users)
            && SelectPage(login, Some(form), after, late)
               == Page(if name !in users || users[name] == password then "/welcome.html" else "/logError.html", after)
  {
    hide FormFields, PageKey, InsertStatement;
  }

  // ----- the pages a form leads to

  /** A page whose name no key can be read from. */
  predicate IsPlainPage(page: string) {
    |page| < 20 && forall i :: 0 <= i < |page| ==> page[i] != NUL && !IsDigit(page[i])
  }

  lemma FormPagesArePlain(page: string)
    requires page in ["/log.html", "/registerError.html", "/welcome.html", "/logError.html"]
    ensures IsPlainPage(page)
  {
  }

  /** Overwriting the URL with a plain page leaves no key of a fixed page where the old key stood, k
      characters in: not in the page, not at its NUL, not in what is left of the old URL. */
  lemma KeyAfterForm(oldKey: char, page: string, k: nat)
    requires oldKey in ['2', '3'] && IsPlainPage(page)
    ensures FixedPage(if k < |page| then page[k] else if k == |page| then NUL else oldKey, page) == page
  {
  }
}
