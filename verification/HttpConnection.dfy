/** The read half of http_conn: one 2048-byte buffer, edited in place, three cursors, and C pointers
    into the buffer, here indices with -1 for NULL. The class is proved against RequestMachine. */
module HttpConnection {
  import opened Wrappers
  import opened CStrings
  import opened RequestMachine
  import opened Fragmentation
  import opened PageSelection

  const NULL := -1

  datatype LineStatus = LINE_OK | LINE_BAD | LINE_OPEN

  /** What process_read answers; DO_REQUEST marks the calls that go on to do_request. */
  datatype ReadCode = NO_REQUEST | BAD_REQUEST | DO_REQUEST | NO_DEFINED_RESULT

  /** What recv gives. */
  datatype Received = Bytes(data: string) | PeerClosed | Failed

  /** What parse_request_line lets pass as a URL. */
  predicate IsPath(url: string) { |url| >= 2 && url[0] == '/' }

  /** A scan that does not start behind a CR sees only the bytes from its index on. */
  lemma ScanLineSameTail(a: string, b: string, i: nat)
    requires i <= |a| == |b| && a[i..] == b[i..] && NotAfterCR(a, i) && NotAfterCR(b, i)
    ensures ScanLine(a, i) == ScanLine(b, i)
  {
    hide ScanLine, IndexOf;
    ScanLineFromLineStart(a, i);
    ScanLineFromLineStart(b, i);
    assert forall j :: i <= j < |a| ==> a[j] == a[i..][j - i] && b[j] == b[i..][j - i];
  }

  /** A bare "/", one blank and the version leave no room between the page's NUL and the line's end. */
  lemma BoundIsMet(target: string, from: int, url: int, checked: int)
    requires target == "/ HTTP/1.1" && from + 10 == checked - 2 ==>
               var m := IndexOf(target, IsBlank); url + |StripScheme(target[..m])| == from + m
    ensures target == "/ HTTP/1.1" && from + 10 == checked - 2 ==> url + 12 == checked
  {
    ShortestTarget();
  }

  /** Two texts that agree from one index on agree on every piece behind it. */
  lemma SamePieces(a: string, b: string, start: nat, i: nat)
    requires start <= i <= |a| == |b| && a[start..] == b[start..]
    ensures a[start..i] == b[start..i] && a[i..] == b[i..]
  {
    assert forall j :: start <= j < |a| ==> a[j] == a[start..][j - start] && b[j] == b[start..][j - start];
  }

  lemma CutLeaves(mem: string, mem': string, start: nat, end: nat, n: nat)
    requires start <= end && end + 2 <= n <= |mem| && mem' == mem[end := NUL][end + 1 := NUL]
    ensures mem'[start..end] == mem[..n][start..end] && mem'[end + 2..n] == mem[..n][end + 2..]
  {
  }

  lemma ShortestTarget()
    ensures IndexOf("/ HTTP/1.1", IsBlank) == 1 && StripScheme("/ HTTP/1.1"[..1]) == "/"
  {
    hide IndexOf, StripScheme;
    IndexOfUnique("/ HTTP/1.1", IsBlank, 1);
    assert "/ HTTP/1.1"[..1] == "/";
    NoScheme("/");
  }

  /** Cutting a string by writing NUL at its k-th character leaves two strings. */
  lemma CutString(mem: string, i: nat, k: nat, mem': string)
    requires i <= |mem| && k < |StrAt(mem, i)| && i + |StrAt(mem, i)| < |mem|
    requires mem' == mem[i + k := NUL]
    ensures StrAt(mem', i) == StrAt(mem, i)[..k]
    ensures StrAt(mem', i + k + 1) == StrAt(mem, i)[k + 1..]
  {
    var t := StrAt(mem, i);
    StrAtFacts(mem, i);
    assert mem'[i..i + k] == mem[i..i + |t|][..k];
    StrAtUnique(mem', i, t[..k]);
    assert mem'[i + k + 1..i + |t|] == mem[i..i + |t|][k + 1..];
    StrAtUnique(mem', i + k + 1, t[k + 1..]);
  }

  /** Cutting at the first blank and skipping the blanks behind it. */
  lemma FirstWordCut(mem: string, i: nat, k: nat, mem': string, rest: nat)
    requires i <= |mem| && k == IndexOf(StrAt(mem, i), IsBlank) < |StrAt(mem, i)|
    requires i + |StrAt(mem, i)| < |mem| && mem' == mem[i + k := NUL]
    requires rest == i + k + 1 + IndexOf(StrAt(mem', i + k + 1), NotBlank)
    ensures StrAt(mem', i) == StrAt(mem, i)[..k]
    ensures rest + |StrAt(mem', rest)| == i + |StrAt(mem, i)|
    ensures StrAt(mem', rest) == SkipBlanks(StrAt(mem, i)[k + 1..])
  {
    hide StrAt, IndexOf;
    CutString(mem, i, k, mem');
    StrAtTail(mem', i + k + 1, rest - (i + k + 1));
  }

  /** Skipping n characters and then up to the next '/'. */
  lemma SkippedToSlash(mem: string, i: nat, n: nat, j: nat)
    requires i <= |mem| && n <= |StrAt(mem, i)|
    requires j == i + n + IndexOf(StrAt(mem, i + n), IsSlash)
    ensures j + |StrAt(mem, j)| == i + |StrAt(mem, i)|
    ensures StrAt(mem, j) == FromSlash(StrAt(mem, i)[n..])
  {
    hide StrAt, IndexOf;
    StrAtTail(mem, i, n);
    StrAtTail(mem, i + n, j - i - n);
  }

  /** A string and its NUL, written over memory at index i. */
  function Written(mem: string, i: nat, t: string): (r: string)
    requires i + |t| < |mem|
    ensures |r| == |mem| && r[i..i + |t|] == t && r[i + |t|] == NUL
    ensures forall j {:trigger r[j]} :: 0 <= j < |mem| && !(i <= j <= i + |t|) ==> r[j] == mem[j]
  {
    mem[..i] + t + [NUL] + mem[i + |t| + 1..]
  }

  lemma WrittenIsString(mem: string, i: nat, t: string)
    requires i + |t| < |mem| && NUL !in t
    ensures StrAt(Written(mem, i, t), i) == t
  {
    hide StrAt, Written;
    StrAtUnique(Written(mem, i, t), i, t);
  }

  /** strcat is strcpy onto the NUL. */
  lemma AppendedIsString(mem: string, i: nat, t: string)
    requires i <= |mem| && i + |StrAt(mem, i)| + |t| < |mem| && NUL !in t
    ensures var u := StrAt(mem, i); StrAt(Written(mem, i + |u|, t), i) == u + t
  {
    hide StrAt, Written;
    var u := StrAt(mem, i);
    var r := Written(mem, i + |u|, t);
    StrAtFacts(mem, i);
    assert r[i..i + |u|] == u;
    assert r[i..i + |u| + |t|] == r[i..i + |u|] + r[i + |u|..i + |u| + |t|];
    StrAtUnique(r, i, u + t);
  }

  class HttpConn {
    const readBuf: array<char>
    var readIdx: int
    var checkedIdx: int
    var startLine: int
    var checkState: Phase
    var verb: Method
    var cgi: bool
    var url: int
    var version: int
    var host: int
    var contentLength: int
    var linger: bool
    var body: int
    ghost var received: string

    function Str(i: int): string
      requires 0 <= i <= readBuf.Length
      reads readBuf
    {
      StrAt(readBuf[..], i)
    }

    ghost predicate InBuffer(i: int)
      reads readBuf
    {
      NULL <= i <= readBuf.Length
    }

    /** The request parsed so far, read through the pointers. */
    ghost function Req(): Request
      requires InBuffer(url) && InBuffer(host)
      reads this, readBuf
    {
      Request(verb, if url == NULL then "" else Str(url), if host == NULL then None else Some(Str(host)),
              linger, contentLength)
    }

    ghost predicate CursorsInOrder()
      reads this
    {
      readBuf.Length == READ_BUFFER_SIZE && 0 <= startLine <= checkedIdx <= readIdx <= READ_BUFFER_SIZE
    }

    /** A pointer to a string that lies, with its NUL, below the current line. */
    ghost predicate Held(i: int)
      requires CursorsInOrder()
      reads this, readBuf
    {
      0 <= i < startLine && i + |Str(i)| < startLine
    }

    /** The pointers are NULL or lead to strings that no later edit reaches. */
    ghost predicate PointersHeld()
      requires CursorsInOrder()
      reads this, readBuf
    {
      && (host == NULL || Held(host))
      && (if checkState == RequestLine then url == NULL && host == NULL && !cgi
          else Held(url) && url + 12 <= startLine && IsPath(Str(url)))
      && cgi == (verb == Post)
    }

    /** Edits from the current line on leave the parsed request alone. */
    twostate lemma RequestKept()
      requires old(CursorsInOrder() && PointersHeld()) && InBuffer(url) && InBuffer(host)
      requires url == old(url) && host == old(host) && verb == old(verb) && linger == old(linger)
      requires contentLength == old(contentLength)
      requires forall i :: 0 <= i < old(startLine) ==> readBuf[i] == old(readBuf[i])
      ensures url != NULL ==> Str(url) == old(Str(url))
      ensures host != NULL ==> Str(host) == old(Str(host))
      ensures Req() == old(Req())
    {
      hide StrAt;
      if url != NULL { StrAtFrame(old(readBuf[..]), readBuf[..], url); }
      if host != NULL { StrAtFrame(old(readBuf[..]), readBuf[..], host); }
    }

    /** Bytes from the current line on are as received; no scan resumes behind a CR. */
    ghost predicate Valid()
      reads this, readBuf
    {
      && CursorsInOrder()
      && InBuffer(url) && InBuffer(host)
      && |received| == readIdx
      && readBuf[startLine..readIdx] == received[startLine..]
      && NotAfterCR(received, checkedIdx)
      && (checkedIdx > 0 ==> readBuf[checkedIdx - 1] != CR)
      && PointersHeld()
    }

    ghost function State(): Parser
      requires CursorsInOrder() && InBuffer(url) && InBuffer(host)
      reads this, readBuf
    {
      Parser(checkState, startLine, checkedIdx, Req())
    }

    /** The body as do_request finds it: at m_string, with a NUL behind it. */
    ghost predicate HasBody(b: string)
      reads this, readBuf
    {
      && 0 <= body && body + |b| < readBuf.Length
      && readBuf[body..body + |b|] == b && readBuf[body + |b|] == NUL
    }

    /** The code and the object's state say what the outcome says. */
    ghost predicate Answers(code: ReadCode, o: Outcome)
      requires CursorsInOrder() && InBuffer(url) && InBuffer(host)
      reads this, readBuf
    {
      match o
      case NoRequest(q) => code == NO_REQUEST && Valid() && State() == q
      case BadRequest => code == BAD_REQUEST
      case Undefined => code == NO_DEFINED_RESULT
      case Complete(q, b) =>
        && code == DO_REQUEST && PointersHeld() && State() == q
        && (b.Some? ==> HasBody(b.value) && url + 12 <= body && url + |q.req.url| < body)
    }

    lemma AnswersNotYet()
      requires Valid()
      ensures Answers(NO_REQUEST, NoRequest(State()))
    {
    }

    constructor ()
      ensures Valid() && fresh(readBuf) && State() == INITIAL && received == ""
    {
      readBuf := new char[READ_BUFFER_SIZE](_ => NUL);
      readIdx, checkedIdx, startLine := 0, 0, 0;
      checkState, verb, cgi, linger := RequestLine, Get, false, false;
      url, version, host, body, contentLength := NULL, NULL, NULL, NULL, 0;
      received := "";
    }

    /** init(): forget everything and clear the buffer, what the peer has already sent included. */
    method Init()
      requires readBuf.Length == READ_BUFFER_SIZE
      modifies this, readBuf
      ensures Valid() && State() == INITIAL && received == ""
      ensures forall i :: 0 <= i < READ_BUFFER_SIZE ==> readBuf[i] == NUL
    {
      readIdx, checkedIdx, startLine := 0, 0, 0;
      checkState, verb, cgi, linger := RequestLine, Get, false, false;
      url, version, host, body, contentLength := NULL, NULL, NULL, NULL, 0;
      received := "";
      forall i | 0 <= i < READ_BUFFER_SIZE { readBuf[i] := NUL; }
      FreshState();
      hide Valid, State;
    }

    lemma FreshState()
      requires readBuf.Length == READ_BUFFER_SIZE && readIdx == 0 && checkedIdx == 0 && startLine == 0
      requires checkState == RequestLine && verb == Get && !cgi && !linger && received == ""
      requires url == NULL && host == NULL && contentLength == 0
      ensures Valid() && State() == INITIAL
    {
      hide StrAt, Str, Held, IsPath;
    }

    /** read_once (level-triggered): one recv into the free part of the buffer. A full buffer is an
        error, and a failed recv moves the cursor back by one before it is noticed. */
    method ReadOnce(r: Received) returns (ok: bool)
      requires Valid()
      requires r.Bytes? && readIdx < READ_BUFFER_SIZE ==> 1 <= |r.data| <= READ_BUFFER_SIZE - readIdx
      modifies this`readIdx, this`received, readBuf
      ensures ok == (old(readIdx) < 2048 && r.Bytes?)
      ensures ok ==> Valid() && received == old(received) + r.data && State() == old(State())
      ensures !ok ==> readBuf[..] == old(readBuf[..]) && received == old(received)
                      && readIdx == old(readIdx) - (if r.Failed? && old(readIdx) < READ_BUFFER_SIZE then 1 else 0)
    {
      hide StrAt, Str, PointersHeld;
      if readIdx >= READ_BUFFER_SIZE { return false; }
      match r
      case PeerClosed => ok := false;
      case Failed => readIdx := readIdx - 1; ok := false;
      case Bytes(data) =>
        Store(readIdx, data);
        readIdx := readIdx + |data|;
        received := received + data;
        BytesAppended(data);
        ok := true;
    }

    /** Bytes behind those received change nothing that is parsed. */
    twostate lemma BytesAppended(data: string)
      requires old(Valid()) && readIdx == old(readIdx) + |data| <= READ_BUFFER_SIZE && received == old(received) + data
      requires startLine == old(startLine) && checkedIdx == old(checkedIdx) && checkState == old(checkState)
      requires url == old(url) && host == old(host) && verb == old(verb) && cgi == old(cgi)
      requires linger == old(linger) && contentLength == old(contentLength)
      requires readBuf[..] == old(readBuf[..])[..old(readIdx)] + data + old(readBuf[..])[readIdx..]
      ensures Valid() && State() == old(State())
    {
      hide StrAt;
      ghost var mem := old(readBuf[..]);
      assert forall i :: 0 <= i < old(readIdx) ==> readBuf[i] == readBuf[..][i] == mem[i];
      RequestKept();
      assert readBuf[startLine..readIdx] == mem[startLine..old(readIdx)] + data;
    }

    /** Characters copied into the read buffer. */
    method Store(i: int, data: string)
      requires 0 <= i && i + |data| <= readBuf.Length
      modifies readBuf
      ensures readBuf[..] == old(readBuf[..])[..i] + data + old(readBuf[..])[i + |data|..]
    {
      forall j | 0 <= j < |data| { readBuf[i + j] := data[j]; }
    }

    /** parse_line: advance to the end of the line and overwrite its CR LF. */
    method ParseLine() returns (status: LineStatus)
      requires CursorsInOrder()
      modifies this`checkedIdx, readBuf
      ensures CursorsInOrder()
      ensures var r := ScanLine(old(readBuf[..readIdx]), old(checkedIdx));
              if r.LineOk? then
                status == LINE_OK && checkedIdx == r.next
                && readBuf[..] == old(readBuf[..])[r.end := NUL][r.end + 1 := NUL]
              else
                status == (if r.LineBad? then LINE_BAD else LINE_OPEN) && checkedIdx == r.at
                && readBuf[..] == old(readBuf[..])
    {
      ghost var s := readBuf[..readIdx];
      ghost var r := ScanLine(s, checkedIdx);
      while checkedIdx < readIdx
        invariant old(checkedIdx) <= checkedIdx <= readIdx
        invariant readBuf[..] == old(readBuf[..])
        invariant ScanLine(s, checkedIdx) == r
      {
        var temp := readBuf[checkedIdx];
        assert temp == s[checkedIdx];
        if temp == CR {
          if checkedIdx + 1 == readIdx { return LINE_OPEN; }
          assert readBuf[checkedIdx + 1] == s[checkedIdx + 1];
          if readBuf[checkedIdx + 1] == LF {
            readBuf[checkedIdx], readBuf[checkedIdx + 1] := NUL, NUL;
            checkedIdx := checkedIdx + 2;
            return LINE_OK;
          }
          return LINE_BAD;
        } else if temp == LF {
          if checkedIdx > 1 && readBuf[checkedIdx - 1] == CR {
            assert s[checkedIdx - 1] == CR;
            readBuf[checkedIdx - 1], readBuf[checkedIdx] := NUL, NUL;
            checkedIdx := checkedIdx + 1;
            return LINE_OK;
          }
          assert checkedIdx > 1 ==> s[checkedIdx - 1] != CR;
          return LINE_BAD;
        }
        checkedIdx := checkedIdx + 1;
      }
      return LINE_OPEN;
    }

    /** The current line lies cut off before index end, its CR LF overwritten. */
    ghost predicate LineCut(end: int)
      reads this, readBuf
    {
      && CursorsInOrder()
      && |received| == readIdx
      && startLine <= end && checkedIdx == end + 2
      && readBuf[startLine..end] == received[startLine..end]
      && readBuf[end] == NUL && readBuf[end + 1] == NUL
      && readBuf[checkedIdx..readIdx] == received[checkedIdx..]
      && received[checkedIdx - 1] == LF
      && PointersHeld()
    }

    /** The bytes ahead of the scan are those received. */
    lemma TextAhead()
      requires Valid()
      ensures ScanLine(readBuf[..readIdx], checkedIdx) == ScanLine(received, checkedIdx)
    {
      hide ScanLine;
      ghost var s := readBuf[..readIdx];
      assert s[startLine..] == readBuf[startLine..readIdx];
      SamePieces(s, received, startLine, checkedIdx);
      ScanLineSameTail(s, received, checkedIdx);
    }

    /** Overwriting its CR LF cuts the line off. */
    twostate lemma LineIsCut(end: int)
      requires old(Valid()) && old(checkedIdx) <= end && checkedIdx == end + 2 <= readIdx
      requires received == old(received) && |received| == readIdx && received[checkedIdx - 1] == LF
      requires startLine == old(startLine) && readIdx == old(readIdx) && checkState == old(checkState)
      requires url == old(url) && host == old(host) && verb == old(verb) && cgi == old(cgi)
      requires linger == old(linger) && contentLength == old(contentLength)
      requires readBuf[..] == old(readBuf[..])[end := NUL][end + 1 := NUL]
      ensures LineCut(end) && Req() == old(Req())
    {
      hide StrAt;
      RequestKept();
      ghost var s := old(readBuf[..readIdx]);
      assert s[startLine..] == old(readBuf[startLine..readIdx]);
      SamePieces(s, received, startLine, end);
      SamePieces(s, received, startLine, checkedIdx);
      CutLeaves(old(readBuf[..]), readBuf[..], startLine, end, readIdx);
      assert readBuf[startLine..end] == readBuf[..][startLine..end];
      assert readBuf[checkedIdx..readIdx] == readBuf[..][checkedIdx..readIdx];
    }

    /** A scan that finds no line's end moves the cursor only. */
    twostate lemma ScanStopped(at: int)
      requires old(Valid()) && received == old(received) && readIdx == old(readIdx)
      requires old(checkedIdx) <= at == checkedIdx <= readIdx == |received| && NotAfterCR(received, at)
      requires startLine == old(startLine) && checkState == old(checkState) && cgi == old(cgi)
      requires url == old(url) && host == old(host) && verb == old(verb)
      requires linger == old(linger) && contentLength == old(contentLength) && readBuf[..] == old(readBuf[..])
      ensures Valid() && Req() == old(Req())
    {
      hide StrAt;
      ghost var s := readBuf[..readIdx];
      assert s == old(readBuf[..])[..readIdx];
      assert s[startLine..] == readBuf[startLine..readIdx];
      assert s[startLine..] == old(readBuf[startLine..readIdx]);
      if at > startLine {
        SamePieces(s, received, startLine, at - 1);
        assert s[at - 1..][0] == received[at - 1..][0];
      }
    }

    /** parse_line between two steps of process_read: the "LF behind an earlier CR" branch is not
        taken, and nothing but the line's CR LF changes. */
    method NextLine() returns (status: LineStatus)
      requires Valid()
      modifies this`checkedIdx, readBuf
      ensures CursorsInOrder() && InBuffer(url) && InBuffer(host) && Req() == old(Req())
      ensures forall i | checkedIdx <= i < READ_BUFFER_SIZE :: readBuf[i] == old(readBuf[i])
      ensures var r := ScanLine(received, old(checkedIdx));
              if r.LineOk? then status == LINE_OK && LineCut(r.end)
              else status == (if r.LineBad? then LINE_BAD else LINE_OPEN) && Valid() && checkedIdx == r.at
                   && readBuf[..] == old(readBuf[..])
    {
      ghost var s := readBuf[..readIdx];
      ghost var r := ScanLine(s, checkedIdx);
      TextAhead();
      hide ScanLine, IndexOf, PointersHeld, Str, StrAt;
      status := ParseLine();
      if status == LINE_OK { LineIsCut(r.end); } else { ScanStopped(r.at); }
    }

    /** parse_request_line, cutting the line into words where it lies. Every write, that of
        "judge.html" over the version included, stays between text and checkedIdx. */
    method ParseRequestLineAt(text: int) returns (ok: bool)
      requires readBuf.Length == READ_BUFFER_SIZE
      requires 0 <= text <= checkedIdx - 2 <= READ_BUFFER_SIZE - 2 && text + |Str(text)| <= checkedIdx - 2
      requires InBuffer(url) && readBuf[checkedIdx - 1] == NUL
      modifies this`verb, this`cgi, this`url, this`version, this`checkState, readBuf
      ensures forall i | 0 <= i < READ_BUFFER_SIZE && !(text <= i < checkedIdx) :: readBuf[i] == old(readBuf[i])
      ensures InBuffer(url) && readBuf[checkedIdx - 1] == NUL
      ensures var spec := ParseRequestLine(old(Str(text)));
              ok == spec.Some? &&
              if ok then
                && verb == spec.value.0 && cgi == (verb == Post || old(cgi)) && checkState == Header
                && text < url && url + 12 <= checkedIdx
                && Str(url) == spec.value.1 && url + |Str(url)| < checkedIdx
              else checkState == old(checkState)
    {
      hide ParseTarget, SkipBlanks, IndexOf, StrAt, SameIgnoringCase, StripScheme;
      var found, rest := CutWord(text);
      if !found { return false; }
      if SameIgnoringCase(Str(text), "GET") {
        verb := Get;
      } else if SameIgnoringCase(Str(text), "POST") {
        verb := Post;
        cgi := true;
      } else {
        return false;
      }
      url := rest;
      ok := ParseTargetAt();
      if ok { checkState := Header; }
    }

    /** The rest of parse_request_line, from the URL on. */
    method ParseTargetAt() returns (ok: bool)
      requires readBuf.Length == READ_BUFFER_SIZE
      requires 0 <= url <= checkedIdx - 2 <= READ_BUFFER_SIZE - 2 && url + |Str(url)| <= checkedIdx - 2
      requires readBuf[checkedIdx - 1] == NUL
      modifies this`url, this`version, readBuf
      ensures forall i | 0 <= i < READ_BUFFER_SIZE && !(old(url) <= i < checkedIdx) :: readBuf[i] == old(readBuf[i])
      ensures readBuf[checkedIdx - 1] == NUL
      ensures InBuffer(url) && ok == ParseTarget(old(Str(url))).Some?
      ensures ok ==> old(url) <= url && url + 12 <= checkedIdx && url + |Str(url)| < checkedIdx
      ensures ok ==> Str(url) == ParseTarget(old(Str(url))).value
      ensures ok ==>
                var m := IndexOf(old(Str(url)), IsBlank);
                url + |StripScheme(old(Str(url))[..m])| == old(url) + m
      // the bound on the page's NUL is met
      ensures ok && old(Str(url)) == "/ HTTP/1.1" && old(url) + 10 == checkedIdx - 2 ==> url + 12 == checkedIdx
    {
      hide StripScheme, SkipBlanks, IndexOf, StrAt, SameIgnoringCase;
      ghost var target, from := Str(url), url;
      var found;
      found, version := CutWord(url);
      if !found || !SameIgnoringCase(Str(version), "HTTP/1.1") { return false; }
      url := SkipScheme(url);
      StrAtHead(readBuf[..], url);
      if Str(url) == "" || readBuf[url] != '/' { return false; }
      ghost var path := Str(url);
      AppendDefaultPage(url);
      assert |path| == 1 ==> path == "/" && path + "judge.html" == "/judge.html";
      ok := true;
      BoundIsMet(target, from, url, checkedIdx);
    }

    /** strcat of the default page onto a URL of length 1. */
    method AppendDefaultPage(i: int)
      requires 0 <= i <= readBuf.Length && (|Str(i)| == 1 ==> i + 11 < readBuf.Length)
      modifies readBuf
      ensures |old(Str(i))| != 1 ==> readBuf[..] == old(readBuf[..])
      ensures |old(Str(i))| == 1 ==>
                Str(i) == old(Str(i)) + "judge.html" && readBuf[i + 11] == NUL
                && forall j | 0 <= j < readBuf.Length && !(i < j < i + 12) :: readBuf[j] == old(readBuf[j])
    {
      hide StrAt, Written;
      if |Str(i)| == 1 {
        ghost var mem := readBuf[..];
        StrCpy(i + 1, "judge.html");
        AppendedIsString(mem, i, "judge.html");
        assert forall j {:trigger readBuf[j]} | 0 <= j < readBuf.Length ::
            readBuf[j] == readBuf[..][j] && old(readBuf[j]) == mem[j];
      }
    }

    /** strpbrk for a blank, NUL over it, strspn over the blanks behind it: the string at i becomes
        its first word, and rest leads to what follows. */
    method CutWord(i: int) returns (found: bool, rest: int)
      requires 0 <= i <= readBuf.Length && i + |Str(i)| < readBuf.Length
      modifies readBuf
      ensures var t := old(Str(i));
              var k := IndexOf(t, IsBlank);
              found == (k < |t|) &&
              if found then
                && i + k < rest <= readBuf.Length && Str(i) == t[..k] && Str(rest) == SkipBlanks(t[k + 1..])
                && rest + |Str(rest)| == i + |t| && readBuf[..] == old(readBuf[..])[i + k := NUL]
              else readBuf[..] == old(readBuf[..])
    {
      hide IndexOf, StrAt, SkipBlanks;
      ghost var mem := readBuf[..];
      var k := IndexOf(Str(i), IsBlank);
      found, rest := k < |Str(i)|, i;
      if found {
        readBuf[i + k] := NUL;
        rest := i + k + 1;
        rest := rest + IndexOf(Str(rest), NotBlank);
        FirstWordCut(mem, i, k, readBuf[..], rest);
      }
    }

    /** Moves the URL pointer over "http://host" or "https://host". */
    method SkipScheme(i: int) returns (j: int)
      requires 0 <= i <= readBuf.Length
      ensures i <= j <= readBuf.Length && Str(j) == StripScheme(Str(i)) && j + |Str(j)| == i + |Str(i)|
    {
      hide IndexOf, StrAt, FromSlash, SameIgnoringCase;
      j := i;
      if HasPrefixIgnoringCase(Str(j), "http://") {
        j := j + 7;
        j := j + IndexOf(Str(j), IsSlash);
        SkippedToSlash(readBuf[..], i, 7, j);
      }
      if HasPrefixIgnoringCase(Str(j), "https://") {
        ghost var from := j;
        j := j + 8;
        j := j + IndexOf(Str(j), IsSlash);
        SkippedToSlash(readBuf[..], from, 8, j);
      }
    }

    /** strcpy of a literal into the read buffer. */
    method StrCpy(i: int, t: string)
      requires 0 <= i && i + |t| < readBuf.Length
      modifies readBuf
      ensures readBuf[..] == Written(old(readBuf[..]), i, t)
    {
      forall j | 0 <= j < |t| { readBuf[i + j] := t[j]; }
      readBuf[i + |t|] := NUL;
    }

    /** parse_headers on a header line. */
    method ParseHeaderAt(text: int)
      requires CursorsInOrder() && InBuffer(url) && InBuffer(host)
      requires 0 <= text <= READ_BUFFER_SIZE && Str(text) != ""
      modifies this`host, this`linger, this`contentLength
      ensures InBuffer(host) && Req() == ParseHeader(Str(text), old(Req()))
      ensures host == old(host) || (text <= host && host + |Str(host)| == text + |Str(text)|)
    {
      hide StrAt, SkipBlanks, HasPrefixIgnoringCase, SameIgnoringCase, Atol, ToInt32;
      if HasPrefixIgnoringCase(Str(text), CONNECTION) {
        var v := ValueAt(text, 11);
        if SameIgnoringCase(Str(v), "keep-alive") { linger := true; }
      } else if HasPrefixIgnoringCase(Str(text), CONTENT_LENGTH) {
        var v := ValueAt(text, 15);
        contentLength := ToInt32(Atol(Str(v)));
      } else if HasPrefixIgnoringCase(Str(text), HOST) {
        host := ValueAt(text, 5);
      }
    }

    /** text += n; text += strspn(text, " \t"); */
    method ValueAt(text: int, n: nat) returns (v: int)
      requires 0 <= text <= readBuf.Length && n <= |Str(text)|
      ensures text <= v <= readBuf.Length && Str(v) == SkipBlanks(Str(text)[n..])
      ensures v + |Str(v)| == text + |Str(text)|
    {
      hide StrAt, SkipBlanks;
      v := text + n;
      v := v + IndexOf(Str(v), NotBlank);
      StrAtSkip(readBuf[..], text, n);
    }

    /** A step of the specification on the line taken. */
    ghost predicate Follows(code: ReadCode, step: LineStep)
      requires CursorsInOrder() && InBuffer(url) && InBuffer(host)
      reads this, readBuf
    {
      && (code == NO_REQUEST <==> step.Continue?)
      && if step.Reject? then Answers(code, BadRequest)
         else if step.Finish? then Answers(code, Complete(step.parser, None))
         else Valid() && State() == step.parser
    }

    /** get_line: the text of the line, and its beginning moved on. */
    method GetLine(ghost end: int) returns (text: int)
      requires LineCut(end)
      modifies this`startLine
      ensures text == old(startLine) && startLine == checkedIdx && readBuf[startLine..readIdx] == received[startLine..]
      ensures Str(text) == CStr(received[text..end]) && text + |Str(text)| <= end
    {
      hide StrAt, CStr;
      text := startLine;
      StrAtIsSliceText(readBuf[..], text, end);
      assert readBuf[..][text..end] == readBuf[text..end];
      startLine := checkedIdx;
    }

    /** The body of process_read's loop for the request line. */
    method HandleRequestLine(ghost end: int) returns (code: ReadCode)
      requires LineCut(end) && checkState == RequestLine
      modifies this`startLine, this`checkState, this`verb, this`cgi, this`url, this`version, readBuf
      ensures CursorsInOrder() && InBuffer(url) && InBuffer(host)
      ensures forall i | checkedIdx <= i < READ_BUFFER_SIZE :: readBuf[i] == old(readBuf[i])
      ensures Follows(code, TakeLine(old(State()), CStr(received[old(startLine)..end]), checkedIdx))
    {
      hide StrAt, ParseRequestLine, CStr;
      var text := GetLine(end);
      ghost var mem := readBuf[..];
      var ok := ParseRequestLineAt(text);
      if !ok { return BAD_REQUEST; }
      assert readBuf[startLine..readIdx] == mem[startLine..readIdx];
      return NO_REQUEST;
    }

    /** And for a header line. */
    method HandleHeaderLine(ghost end: int) returns (code: ReadCode)
      requires LineCut(end) && checkState == Header
      modifies this`startLine, this`checkState, this`host, this`linger, this`contentLength
      ensures CursorsInOrder() && InBuffer(url) && InBuffer(host)
      ensures Follows(code, TakeLine(old(State()), CStr(received[old(startLine)..end]), checkedIdx))
    {
      hide StrAt, ParseHeader, CStr, IsPath;
      var text := GetLine(end);
      if Str(text) == "" {
        if contentLength != 0 {
          checkState := Content;
          return NO_REQUEST;
        }
        return DO_REQUEST;
      } else {
        ParseHeaderAt(text);
        return NO_REQUEST;
      }
    }

    /** The body of process_read's loop for a complete line. */
    method HandleLine(ghost end: int) returns (code: ReadCode)
      requires LineCut(end) && checkState != Content
      modifies this`startLine, this`checkState, this`verb, this`cgi, this`url, this`version, this`host, this`linger,
               this`contentLength, readBuf
      ensures CursorsInOrder() && InBuffer(url) && InBuffer(host)
      ensures forall i | checkedIdx <= i < READ_BUFFER_SIZE :: readBuf[i] == old(readBuf[i])
      ensures Follows(code, TakeLine(old(State()), CStr(received[old(startLine)..end]), checkedIdx))
    {
      hide StrAt, Str, CStr, Follows, TakeLine, PointersHeld;
      if checkState == RequestLine {
        code := HandleRequestLine(end);
      } else {
        code := HandleHeaderLine(end);
      }
    }

    /** parse_content with the body's text at index text: NUL behind it, if it is all there. */
    method ParseContentAt(text: int) returns (code: ReadCode)
      requires CursorsInOrder() && 0 <= text <= checkedIdx
      modifies this`body, readBuf
      ensures var step := ParseContent(readIdx, text, checkedIdx, contentLength);
              match step
              case Wait => code == NO_REQUEST && readBuf[..] == old(readBuf[..])
              case NoDefinedResult => code == NO_DEFINED_RESULT && readBuf[..] == old(readBuf[..])
              case Ready => code == DO_REQUEST && body == text
                            && readBuf[..] == old(readBuf[..])[text + contentLength := NUL]
    {
      if contentLength < 0 || contentLength > INT_MAX - READ_BUFFER_SIZE { return NO_DEFINED_RESULT; }
      if readIdx >= contentLength + checkedIdx {
        if text + contentLength >= READ_BUFFER_SIZE { return NO_DEFINED_RESULT; }
        readBuf[text + contentLength] := NUL;
        body := text;
        return DO_REQUEST;
      }
      return NO_REQUEST;
    }

    /** Where the loop handles the message body: in a valid state, or behind a CR LF found, and cut,
        in a body that is too short. */
    ghost predicate AtBody()
      reads this, readBuf
    {
      && CursorsInOrder() && checkState == Content && PointersHeld()
      && InBuffer(url) && InBuffer(host)
      && |received| == readIdx
      && readBuf[checkedIdx..readIdx] == received[checkedIdx..]
      && NotAfterCR(received, checkedIdx)
      && (checkedIdx > 0 ==> readBuf[checkedIdx - 1] != CR)
      && (contentLength <= readIdx - checkedIdx ==> readBuf[startLine..readIdx] == received[startLine..])
    }

    lemma ValidAtBody()
      requires Valid() && checkState == Content
      ensures AtBody()
    {
      hide Str, Held, PointersHeld;
      assert readBuf[checkedIdx..readIdx] == readBuf[startLine..readIdx][checkedIdx - startLine..];
      assert received[checkedIdx..] == received[startLine..][checkedIdx - startLine..];
    }

    /** A body that is all there, with its NUL written, is the one received. */
    twostate lemma BodyIsThere(text: int)
      requires old(AtBody()) && text == old(startLine) && received == old(received) && readIdx == old(readIdx)
      requires CursorsInOrder() && 0 <= contentLength == old(contentLength) <= readIdx - old(checkedIdx)
      requires body == text && text + contentLength < READ_BUFFER_SIZE
      requires readBuf[..] == old(readBuf[..])[text + contentLength := NUL]
      ensures |received| == readIdx && text + contentLength <= readIdx
      ensures HasBody(received[text..text + contentLength])
    {
      ghost var s := old(readBuf[..readIdx]);
      assert s[text..] == old(readBuf[text..readIdx]);
      SamePieces(s, received, text, text + contentLength);
      assert readBuf[text..text + contentLength] == s[text..text + contentLength];
    }

    /** The state behind parse_content, the body's place moved behind the cursor. */
    twostate lemma BodyPassed()
      requires old(AtBody()) && CursorsInOrder() && startLine == checkedIdx == old(checkedIdx)
      requires received == old(received) && readIdx == old(readIdx) && checkState == old(checkState)
      requires url == old(url) && host == old(host) && verb == old(verb) && cgi == old(cgi)
      requires linger == old(linger) && contentLength == old(contentLength)
      requires forall i :: 0 <= i < old(startLine) ==> readBuf[i] == old(readBuf[i])
      ensures InBuffer(url) && InBuffer(host) && PointersHeld()
      ensures State() == old(State()).(start := checkedIdx)
      ensures Str(url) == old(Str(url))
    {
      hide StrAt;
      RequestKept();
    }

    /** And the state is valid again if nothing was written. */
    twostate lemma BodyWaits()
      requires old(AtBody()) && CursorsInOrder() && startLine == checkedIdx == old(checkedIdx)
      requires received == old(received) && readIdx == old(readIdx) && readBuf[..] == old(readBuf[..])
      requires InBuffer(url) && InBuffer(host) && PointersHeld()
      ensures Valid()
    {
      hide PointersHeld;
      assert readBuf[startLine..readIdx] == readBuf[..][startLine..readIdx] == old(readBuf[checkedIdx..readIdx]);
      assert checkedIdx > 0 ==> readBuf[checkedIdx - 1] == readBuf[..][checkedIdx - 1] == old(readBuf[..])[checkedIdx - 1];
    }

    /** The body of process_read's loop for the message body. */
    method HandleBody() returns (code: ReadCode)
      requires AtBody()
      modifies this`startLine, this`body, readBuf
      ensures CursorsInOrder() && InBuffer(url) && InBuffer(host)
      ensures forall i | 0 <= i < READ_BUFFER_SIZE && !(code == DO_REQUEST && i == body + contentLength) ::
                readBuf[i] == old(readBuf[i])
      ensures var step := ParseContent(readIdx, old(startLine), checkedIdx, contentLength);
              && (code == NO_REQUEST <==> step.Wait?)
              && match step
                 case NoDefinedResult => Answers(code, Undefined)
                 case Wait => Valid() && State() == old(State()).(start := checkedIdx)
                 case Ready =>
                   Answers(code, Complete(old(State()).(start := checkedIdx),
                                          Some(received[old(startLine)..old(startLine) + contentLength])))
    {
      hide StrAt, Str, IsPath, PointersHeld, Held, Req;
      var text := startLine;
      startLine := checkedIdx;
      code := ParseContentAt(text);
      BodyPassed();
      if code == DO_REQUEST {
        BodyIsThere(text);
        BodyBehindUrl(text);
      } else if code == NO_REQUEST {
        BodyWaits();
      }
    }

    /** The URL, and room for the longest page, lie in front of the body. */
    twostate lemma BodyBehindUrl(text: int)
      requires old(AtBody()) && text == old(startLine) && url == old(url) && InBuffer(url)
      requires Str(url) == old(Str(url))
      ensures url + 12 <= text && url + |Str(url)| < text && old(Req()).url == Str(url)
    {
      hide StrAt;
    }

    /** One turn of process_read's loop outside the body. */
    method TurnOnLine() returns (status: LineStatus, code: ReadCode)
      requires Valid() && checkState != Content
      modifies this`checkedIdx, this`startLine, this`checkState, this`verb, this`cgi, this`url, this`version,
               this`host, this`linger, this`contentLength, readBuf
      ensures CursorsInOrder() && InBuffer(url) && InBuffer(host) && old(checkedIdx) <= checkedIdx
      ensures forall i | checkedIdx <= i < READ_BUFFER_SIZE :: readBuf[i] == old(readBuf[i])
      ensures var o := Run(received, old(State()), true);
              if status == LINE_OK && code == NO_REQUEST then
                Valid() && Run(received, State(), true) == o && old(checkedIdx) < checkedIdx
              else Answers(code, o)
    {
      hide Run, TakeLine, ScanLine, StrAt, CStr, Str, Held, PointersHeld, HasBody, Answers;
      ghost var p := State();
      ghost var r := ScanLine(received, checkedIdx);
      ghost var line := if r.LineOk? then CStr(received[startLine..r.end]) else "";
      RunTakesLine(received, p, r, if r.LineOk? then TakeLine(p, line, r.next) else Reject);
      status := NextLine();
      if status == LINE_OK {
        TakeLineIgnoresScan(p, r.next, line, r.next);
        code := HandleLine(r.end);
      } else {
        code := NO_REQUEST;
        AnswersNotYet();
      }
    }

    /** parse_line on a body that is not all there. */
    method ScanIntoBody() returns (status: LineStatus)
      requires Valid() && checkState == Content && contentLength > readIdx - checkedIdx
      modifies this`checkedIdx, readBuf
      ensures CursorsInOrder() && InBuffer(url) && InBuffer(host) && old(checkedIdx) <= checkedIdx
      ensures forall i | checkedIdx <= i < READ_BUFFER_SIZE :: readBuf[i] == old(readBuf[i])
      ensures var o := Run(received, old(State()), false);
              if status == LINE_OK then
                AtBody() && Run(received, State(), true) == o && old(checkedIdx) < checkedIdx
              else Answers(NO_REQUEST, o)
    {
      hide Run, ScanLine, StrAt, Str, Held, PointersHeld, HasBody, Answers;
      RunScansBody(received, State(), ScanLine(received, checkedIdx));
      status := NextLine();
      if status != LINE_OK { AnswersNotYet(); }
    }

    /** process_read: exactly Run on the bytes received so far. Bytes it has not parsed are untouched;
        the NUL behind a complete body is the one write beyond the scanned bytes. */
    method ProcessRead() returns (code: ReadCode)
      requires Valid()
      modifies this`checkedIdx, this`startLine, this`checkState, this`verb, this`cgi, this`url, this`version,
               this`host, this`linger, this`contentLength, this`body, readBuf
      ensures CursorsInOrder() && InBuffer(url) && InBuffer(host)
      ensures forall i | checkedIdx <= i < READ_BUFFER_SIZE && !(code == DO_REQUEST && i == body + contentLength) ::
                readBuf[i] == old(readBuf[i])
      ensures Answers(code, Run(received, old(State()), true))
    {
      hide Run, TakeLine, StrAt, Str, Held, PointersHeld, ParseContent, HasBody, Answers;
      ghost var o := Run(received, State(), true);
      var lineStatus := LINE_OK;
      while true
        invariant Valid()
        invariant Run(received, State(), lineStatus == LINE_OK) == o
        invariant lineStatus != LINE_OK ==> checkState == Content && contentLength > readIdx - checkedIdx
        invariant forall i | checkedIdx <= i < READ_BUFFER_SIZE :: readBuf[i] == old(readBuf[i])
        decreases readIdx - checkedIdx, lineStatus == LINE_OK
      {
        if checkState != Content {
          lineStatus, code := TurnOnLine();
          if lineStatus != LINE_OK || code != NO_REQUEST { return; }
        } else {
          if lineStatus != LINE_OK {
            lineStatus := ScanIntoBody();
            if lineStatus != LINE_OK { return NO_REQUEST; }
          } else {
            ValidAtBody();
          }
          RunTakesBody(received, State());
          code := HandleBody();
          if code != NO_REQUEST { return; }
          lineStatus := LINE_OPEN;
        }
      }
    }

    /** One recv and one process_read. */
    method Receive(piece: string) returns (code: ReadCode)
      requires Valid() && piece != "" && readIdx + |piece| <= READ_BUFFER_SIZE
      modifies this, readBuf
      ensures CursorsInOrder() && InBuffer(url) && InBuffer(host) && Inv(old(received) + piece, old(State()))
      ensures var o := Run(old(received) + piece, old(State()), true);
              && (code == NO_REQUEST <==> o.NoRequest?)
              && if o.NoRequest? then Valid() && State() == o.parser && received == old(received) + piece
                 else Answers(code, o)
    {
      hide Run, Answers, PointersHeld, Req;
      InvExtends(received, piece, State());
      var ok := ReadOnce(Bytes(piece));
      ghost var o := Run(received, State(), true);
      code := ProcessRead();
      DecidedCode(code, o);
      if code == NO_REQUEST { NotYetState(o); }
    }

    /** A fresh connection fed piece by piece, process_read after each, until a call decides: what
        main and the workers do to it together. If no piece derails, the answer, request and body
        are those of one call on everything. */
    method ReceiveAll(pieces: seq<string>) returns (code: ReadCode)
      requires Valid() && State() == INITIAL && received == ""
      requires |Concat(pieces)| <= READ_BUFFER_SIZE && forall i :: 0 <= i < |pieces| ==> pieces[i] != ""
      modifies this, readBuf
      ensures CursorsInOrder() && InBuffer(url) && InBuffer(host)
      ensures Answers(code, Feed("", INITIAL, pieces))
      ensures (forall k :: 0 <= k < |pieces| ==> !Derails(Concat(pieces[..k]))) ==>
                Answers(code, ParseWhole(Concat(pieces)))
    {
      hide Run, Answers, PointersHeld, Derails, ParseWhole, Req, Concat, Feed;
      if forall k :: 0 <= k < |pieces| ==> !Derails(Concat(pieces[..k])) { FragmentsAgree(pieces); }
      code := ReceivePieces(pieces);
    }

    method ReceivePieces(pieces: seq<string>) returns (code: ReadCode)
      requires Valid() && |received| + |Concat(pieces)| <= READ_BUFFER_SIZE
      requires forall i :: 0 <= i < |pieces| ==> pieces[i] != ""
      modifies this, readBuf
      ensures CursorsInOrder() && InBuffer(url) && InBuffer(host)
      ensures Inv(old(received), old(State())) && Answers(code, Feed(old(received), old(State()), pieces))
    {
      hide Run, Answers, PointersHeld, Req, Concat;
      ghost var o := Feed(received, State(), pieces);
      var i := 0;
      assert pieces[0..] == pieces;
      hide Valid;
      while i < |pieces|
        invariant 0 <= i <= |pieces| && Valid()
        invariant Feed(received, State(), pieces[i..]) == o
        invariant |received| + |Concat(pieces[i..])| <= READ_BUFFER_SIZE
      {
        assert pieces[i..][0] == pieces[i] && pieces[i..][1..] == pieces[i + 1..];
        ConcatFirst(pieces[i..]);
        code := Receive(pieces[i]);
        if code != NO_REQUEST { return; }
        i := i + 1;
      }
      AnswersNotYet();
      code := NO_REQUEST;
    }

    /** All of it: the pieces received and parsed, and a complete request answered with its page. */
    method Serve(pieces: seq<string>, users: map<string, string>, inserted: bool) returns (code: ReadCode, page: Selection)
      requires Valid() && State() == INITIAL && received == ""
      requires |Concat(pieces)| <= READ_BUFFER_SIZE && forall i :: 0 <= i < |pieces| ==> pieces[i] != ""
      modifies this, readBuf
      ensures var o := Feed("", INITIAL, pieces);
              && (code == DO_REQUEST <==> o.Complete?)
              && (o.Complete? ==> page == SelectPage(o.parser.req, o.body, users, inserted))
    {
      hide SelectPage, Feed, Concat, PointersHeld, Derails;
      ghost var o := Feed("", INITIAL, pieces);
      FeedCompletes("", INITIAL, pieces);
      page := NoDefinedPage;
      code := ReceiveAll(pieces);
      if code == DO_REQUEST {
        CompleteState(o);
        page := DoRequest(users, inserted, o.body);
      }
    }

    lemma CompleteState(o: Outcome)
      requires CursorsInOrder() && InBuffer(url) && InBuffer(host) && Answers(DO_REQUEST, o) && WellCompleted(o)
      ensures o.Complete? && PointersHeld() && Req() == o.parser.req
      ensures checkState != RequestLine && o.body.Some? == (checkState == Content)
      ensures o.body.Some? ==> HasBody(o.body.value) && contentLength == |o.body.value| && url + 12 <= body
    {
    }

    lemma NotYetState(o: Outcome)
      requires CursorsInOrder() && InBuffer(url) && InBuffer(host) && o.NoRequest? && Answers(NO_REQUEST, o)
      ensures Valid() && State() == o.parser
    {
    }

    lemma DecidedCode(code: ReadCode, o: Outcome)
      requires CursorsInOrder() && InBuffer(url) && InBuffer(host) && Answers(code, o)
      ensures code == NO_REQUEST <==> o.NoRequest?
    {
    }

    /** The name, copied character by character up to the first '&'. */
    method ExtractName(ghost b: string) returns (name: string, i: int)
      requires HasBody(b) && contentLength == |b| && |b| >= 5
      ensures i == 5 + IndexOf(b[5..], IsAmpersand) && i <= |b| && name == b[5..i]
    {
      hide IndexOf;
      name, i := "", 5;
      ghost var stop := 5 + IndexOf(b[5..], IsAmpersand);
      while i < contentLength && readBuf[body + i] != '&'
        invariant 5 <= i <= stop && name == b[5..i]
      {
        assert readBuf[body + i] == readBuf[body..body + |b|][i] == b[i] == b[5..][i - 5];
        name := name + [readBuf[body + i]];
        i := i + 1;
      }
      assert i < |b| ==> readBuf[body + i] == readBuf[body..body + |b|][i] == b[5..][i - 5];
    }

    /** The password, copied up to the body's NUL. */
    method ExtractPassword(from: int, ghost b: string) returns (password: string)
      requires HasBody(b) && contentLength == |b| && 0 <= from <= |b|
      ensures password == CStr(b[from..])
    {
      hide StrAt;
      ghost var rest := b[from..];
      var i := from;
      password := "";
      while i < contentLength && readBuf[body + i] != NUL
        invariant from <= i <= contentLength && password == rest[..i - from] && NUL !in password
      {
        assert readBuf[body + i] == readBuf[body..body + |b|][i] == rest[i - from];
        password := password + [readBuf[body + i]];
        i := i + 1;
      }
      assert i < |b| ==> readBuf[body + i] == readBuf[body..body + |b|][i] == rest[i - from];
      StrAtUnique(rest, 0, password);
    }

    /** The form's fields. */
    method ExtractForm(ghost b: string) returns (form: Option<(string, string)>)
      requires HasBody(b) && contentLength == |b|
      ensures form == FormFields(b)
    {
      hide IndexOf, CStr;
      if contentLength < 5 { return None; }
      var name, i := ExtractName(b);
      if i == contentLength || |name| > FIELD_ROOM || i + 10 > contentLength { return None; }
      var password := ExtractPassword(i + 10, b);
      if |password| > FIELD_ROOM { return None; }
      form := Some((CStr(name), password));
    }

    /** strcpy of the page over the URL, and the choice of the file by the key's address. */
    method ServeFormPage(key: int, page: string, users: map<string, string>) returns (r: Selection)
      requires 0 <= url < key < readBuf.Length && url + 20 <= readBuf.Length
      requires readBuf[key] in ['2', '3'] && IsPlainPage(page)
      modifies readBuf
      ensures r == Page(page, users) && Str(url) == page
    {
      hide StrAt, FixedPage, Written;
      ghost var mem := readBuf[..];
      StrCpy(url, page);
      WrittenIsString(mem, url, page);
      KeyAfterForm(mem[key], page, key - url);
      assert key <= url + |page| ==> readBuf[key] == readBuf[..][key] == if key - url < |page| then page[key - url] else NUL;
      r := Page(FixedPage(readBuf[key], Str(url)), users);
    }

    /** do_request up to the file system. A form overwrites the URL in place with its page, and the
        key is then read again from the same address. */
    method DoRequest(users: map<string, string>, inserted: bool, ghost b: Option<string>) returns (r: Selection)
      requires CursorsInOrder() && PointersHeld() && checkState != RequestLine
      requires b.Some? == (checkState == Content)
      requires b.Some? ==> HasBody(b.value) && contentLength == |b.value| && url + 12 <= body
      modifies readBuf
      ensures r == SelectPage(old(Req()), b, users, inserted)
    {
      hide StrAt, FormFields, InsertStatement, FixedPage, IsPlainPage;
      ghost var u := Str(url);
      KeyInMemory(readBuf[..], url);
      var p := url + LastSlash(Str(url));
      if cgi && (readBuf[p + 1] == '2' || readBuf[p + 1] == '3') {
        if checkState != Content || |Str(url)| > COPY_ROOM { return NoDefinedPage; }
        var form := ExtractForm(b.value);
        if form == None { return NoDefinedPage; }
        var (name, password) := form.value;
        var page := "/registerError.html";
        var known := users;
        if readBuf[p + 1] == '3' {
          if |InsertStatement(name, password)| >= COPY_ROOM { return NoDefinedPage; }
          if name !in users {
            known := users[name := password];
            if inserted { page := "/log.html"; }
          }
        } else if name in users && users[name] == password {
          page := "/welcome.html";
        } else {
          page := "/logError.html";
        }
        FormPagesArePlain(page);
        r := ServeFormPage(p + 1, page, known);
        return;
      }
      r := Page(FixedPage(readBuf[p + 1], Str(url)), users);
    }
  }

  /** The key is the byte behind the URL's last '/'. */
  lemma KeyInMemory(mem: string, i: nat)
    requires i <= |mem| && i + |StrAt(mem, i)| < |mem| && IsPath(StrAt(mem, i))
    ensures var k := LastSlash(StrAt(mem, i)) + 1;
            k > 0 && i + k < |mem| && mem[i + k] == PageKey(StrAt(mem, i))
  {
    var t := StrAt(mem, i);
    StrAtFacts(mem, i);
    var k := LastSlash(t) + 1;
    if k < |t| {
      assert mem[i..i + |t|][k] == mem[i + k];
    }
  }

  /** Skipping a field name and the blanks behind it. */
  lemma StrAtSkip(mem: string, i: nat, n: nat)
    requires i <= |mem| && n <= |StrAt(mem, i)|
    ensures var v := i + n + IndexOf(StrAt(mem, i + n), NotBlank);
            v <= |mem| && StrAt(mem, v) == SkipBlanks(StrAt(mem, i)[n..]) && v + |StrAt(mem, v)| == i + |StrAt(mem, i)|
  {
    hide StrAt, IndexOf;
    StrAtTail(mem, i, n);
    StrAtTail(mem, i + n, IndexOf(StrAt(mem, i + n), NotBlank));
  }
}
