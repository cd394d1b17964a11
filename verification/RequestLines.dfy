/** Which request lines are accepted, and what they mean, said by their parts. */
module RequestLines {
  import opened Wrappers
  import opened CStrings
  import opened RequestMachine

  predicate AllBlank(t: string) { t != "" && forall i :: 0 <= i < |t| ==> t[i] == ' ' || t[i] == '\t' }

  predicate NoBlank(t: string) { forall i :: 0 <= i < |t| ==> t[i] != ' ' && t[i] != '\t' }

  /** What may stand in front of a URL's path: nothing, or a scheme and a host. */
  predicate IsOrigin(o: string) {
    || o == ""
    || (|o| >= 7 && SameIgnoringCase(o[..7], "http://") && '/' !in o[7..])
    || (|o| >= 8 && SameIgnoringCase(o[..8], "https://") && '/' !in o[8..])
  }

  predicate IsUrl(origin: string, path: string) { IsOrigin(origin) && path != "" && path[0] == '/' }

  /** A request line by its parts: method, blanks, origin, path, blanks, version. */
  predicate IsRequestLine(
    line: string, word: string, gap: string, origin: string, path: string, gap': string, version: string)
  {
    && line == word + gap + (origin + path) + gap' + version
    && NoBlank(word) && AllBlank(gap) && NoBlank(origin + path) && IsUrl(origin, path) && AllBlank(gap')
    && (SameIgnoringCase(word, "GET") || SameIgnoringCase(word, "POST"))
    && SameIgnoringCase(version, "HTTP/1.1")
  }

  /** What such a line asks for; a bare "/" is the default page. */
  function Meaning(word: string, path: string): (Method, string) {
    (if SameIgnoringCase(word, "GET") then Get else Post, if path == "/" then "/judge.html" else path)
  }

  // ----- URLs

  lemma FirstSlash(host: string, path: string)
    requires '/' !in host && path != "" && path[0] == '/'
    ensures FromSlash(host + path) == path
  {
    var t := host + path;
    assert forall j :: 0 <= j < |host| ==> t[j] == host[j] && host[j] in host;
    IndexOfUnique(t, IsSlash, |host|);
    assert t[|host|..] == path;
  }

  lemma FromSlashSplits(t: string)
    ensures FromSlash(t) == "" || FromSlash(t)[0] == '/'
    ensures exists host :: t == host + FromSlash(t) && '/' !in host
  {
    var k := IndexOf(t, IsSlash);
    assert t == t[..k] + t[k..];
    assert '/' !in t[..k];
  }

  lemma SchemesDiffer(o: string)
    ensures !(HasPrefixIgnoringCase(o, "http://") && HasPrefixIgnoringCase(o, "https://"))
  {
    FourthIs(o, "http://");
    FourthIs(o, "https://");
  }

  lemma FourthIs(o: string, prefix: string)
    requires |prefix| > 4
    ensures HasPrefixIgnoringCase(o, prefix) ==> |o| > 4 && Lower(o[4]) == Lower(prefix[4])
  {
    if HasPrefixIgnoringCase(o, prefix) {
      assert o[..|prefix|][4] == o[4];
    }
  }

  /** The scheme and host of a URL are skipped, and its path is left. */
  lemma PathOfUrl(origin: string, path: string)
    requires IsUrl(origin, path)
    ensures StripScheme(origin + path) == path
  {
    hide SameIgnoringCase, FromSlash;
    var url := origin + path;
    FirstDiffers(path, "http://");
    FirstDiffers(path, "https://");
    if origin == "" {
      assert url == path;
    } else if |origin| >= 7 && SameIgnoringCase(origin[..7], "http://") && '/' !in origin[7..] {
      assert url[..7] == origin[..7] && url[7..] == origin[7..] + path;
      FirstSlash(origin[7..], path);
    } else {
      assert url[..8] == origin[..8] && url[8..] == origin[8..] + path;
      FirstSlash(origin[8..], path);
      SchemesDiffer(url);
    }
  }

  /** What is left by skipping is such a path, if it starts with '/'. */
  lemma UrlHasParts(url: string) returns (origin: string)
    requires StripScheme(url) != "" && StripScheme(url)[0] == '/'
    ensures IsUrl(origin, StripScheme(url)) && url == origin + StripScheme(url)
  {
    hide SameIgnoringCase, FromSlash;
    if HasPrefixIgnoringCase(url, "http://") {
      FromSlashSplits(url[7..]);
      var rest := FromSlash(url[7..]);
      if rest != "" { FirstDiffers(rest, "https://"); }
      var host :| url[7..] == host + rest && '/' !in host;
      origin := url[..7] + host;
      assert origin[..7] == url[..7] && origin[7..] == host;
    } else if HasPrefixIgnoringCase(url, "https://") {
      FromSlashSplits(url[8..]);
      var host :| url[8..] == host + FromSlash(url[8..]) && '/' !in host;
      origin := url[..8] + host;
      assert origin[..8] == url[..8] && origin[8..] == host;
    } else {
      origin := "";
    }
  }

  /** A scheme and host alone have no path. */
  lemma OriginHasNoPath(origin: string)
    requires IsOrigin(origin)
    ensures StripScheme(origin) == ""
  {
    hide SameIgnoringCase;
    if origin == "" {
    } else if |origin| >= 7 && SameIgnoringCase(origin[..7], "http://") && '/' !in origin[7..] {
      NoSlashLeft(origin[7..]);
    } else {
      NoSlashLeft(origin[8..]);
      SchemesDiffer(origin);
    }
  }

  lemma NoSlashLeft(t: string)
    requires '/' !in t
    ensures FromSlash(t) == ""
  {
    IndexOfUnique(t, IsSlash, |t|);
  }

  // ----- lines

  lemma FirstWord(word: string, gap: string, rest: string)
    requires NoBlank(word) && AllBlank(gap) && (rest != "" ==> !IsBlank(rest[0]))
    ensures var line := word + gap + rest;
            IndexOf(line, IsBlank) == |word| < |line| && line[..|word|] == word && SkipBlanks(line[|word| + 1..]) == rest
  {
    var line := word + gap + rest;
    assert line[|word|] == gap[0];
    IndexOfUnique(line, IsBlank, |word|);
    var tail := line[|word| + 1..];
    assert tail == gap[1..] + rest;
    IndexOfUnique(tail, NotBlank, |gap| - 1);
    assert tail[|gap| - 1..] == rest;
  }

  lemma ThreePieces(line: string, k: nat, m: nat)
    requires k < |line| && m <= |line| - k - 1
    ensures line == line[..k] + ([line[k]] + line[k + 1..][..m]) + line[k + 1..][m..]
  {
    var r := line[..k] + ([line[k]] + line[k + 1..][..m]) + line[k + 1..][m..];
    assert |r| == |line|;
    assert forall i :: 0 <= i < |r| ==> r[i] == line[i];
  }

  lemma FirstWordTaken(line: string) returns (gap: string)
    requires IndexOf(line, IsBlank) < |line|
    ensures var k := IndexOf(line, IsBlank);
            var rest := SkipBlanks(line[k + 1..]);
            && line == line[..k] + gap + rest && NoBlank(line[..k]) && AllBlank(gap)
            && (rest != "" ==> !IsBlank(rest[0]))
  {
    var k := IndexOf(line, IsBlank);
    var tail := line[k + 1..];
    var m := IndexOf(tail, NotBlank);
    var word, blanks, rest := line[..k], tail[..m], tail[m..];
    assert rest == SkipBlanks(tail);
    assert NoBlank(word) && (rest != "" ==> rest[0] == tail[m]);
    gap := [line[k]] + blanks;
    assert AllBlank(gap);
    ThreePieces(line, k, m);
  }

  lemma NoVersionBlank(version: string)
    requires SameIgnoringCase(version, "HTTP/1.1")
    ensures version != "" && !IsBlank(version[0])
  {
    assert Lower(version[0]) == 'h';
  }

  lemma GetIsNotPost(word: string)
    ensures !(SameIgnoringCase(word, "GET") && SameIgnoringCase(word, "POST"))
  {
  }

  /** Any line of three words of which the first and the last are right: the second decides. */
  lemma ThreeWords(word: string, gap: string, url: string, gap': string, version: string)
    requires NoBlank(word) && AllBlank(gap) && NoBlank(url) && url != "" && AllBlank(gap')
    requires SameIgnoringCase(word, "GET") || SameIgnoringCase(word, "POST")
    requires SameIgnoringCase(version, "HTTP/1.1")
    ensures var path := StripScheme(url);
            ParseRequestLine(word + gap + url + gap' + version) ==
            if path != "" && path[0] == '/' then Some(Meaning(word, path)) else None
  {
    hide SameIgnoringCase, StripScheme, SkipBlanks, IndexOf;
    NoVersionBlank(version);
    GetIsNotPost(word);
    var target := url + gap' + version;
    assert word + gap + url + gap' + version == word + gap + target;
    FirstWord(word, gap, target);
    FirstWord(url, gap', version);
  }

  lemma LineMeansItsParts(
      line: string, word: string, gap: string, origin: string, path: string, gap': string, version: string)
    requires IsRequestLine(line, word, gap, origin, path, gap', version)
    ensures ParseRequestLine(line) == Some(Meaning(word, path))
  {
    hide SameIgnoringCase, StripScheme, ParseRequestLine, IsOrigin;
    PathOfUrl(origin, path);
    ThreeWords(word, gap, origin + path, gap', version);
  }

  /** With a scheme and a host but no path, the line is rejected. */
  lemma OriginAloneRejected(word: string, gap: string, origin: string, gap': string, version: string)
    requires NoBlank(word) && AllBlank(gap) && NoBlank(origin) && AllBlank(gap') && IsOrigin(origin) && origin != ""
    requires SameIgnoringCase(word, "GET") || SameIgnoringCase(word, "POST")
    requires SameIgnoringCase(version, "HTTP/1.1")
    ensures ParseRequestLine(word + gap + origin + gap' + version) == None
  {
    hide SameIgnoringCase, StripScheme, ParseRequestLine, IsOrigin;
    OriginHasNoPath(origin);
    ThreeWords(word, gap, origin, gap', version);
  }

  lemma PartsOfLine(line: string)
    requires ParseRequestLine(line).Some?
    ensures exists word, gap, origin, path, gap', version :: IsRequestLine(line, word, gap, origin, path, gap', version)
  {
    hide SameIgnoringCase, StripScheme, SkipBlanks, IndexOf, IsOrigin;
    var k := IndexOf(line, IsBlank);
    var gap := FirstWordTaken(line);
    var target := SkipBlanks(line[k + 1..]);
    var m := IndexOf(target, IsBlank);
    var gap' := FirstWordTaken(target);
    var version := SkipBlanks(target[m + 1..]);
    var url := target[..m];
    var origin := UrlHasParts(url);
    var path := StripScheme(url);
    assert line == line[..k] + gap + (origin + path) + gap' + version;
    assert IsRequestLine(line, line[..k], gap, origin, path, gap', version);
  }

  /** Exactly the lines of three words separated by blanks are accepted, whose first is GET or POST, whose
      second is a path, with or without a scheme and host, and whose third is HTTP/1.1; and they mean what
      the words say. */
  lemma RequestLineAccepted(line: string)
    ensures ParseRequestLine(line).Some?
       <==> exists word, gap, origin, path, gap', version :: IsRequestLine(line, word, gap, origin, path, gap', version)
    ensures forall word, gap, origin, path, gap', version ::
              IsRequestLine(line, word, gap, origin, path, gap', version) ==>
                ParseRequestLine(line) == Some(Meaning(word, path))
  {
    hide IsRequestLine, ParseRequestLine, Meaning;
    if ParseRequestLine(line).Some? { PartsOfLine(line); }
    forall word, gap, origin, path, gap', version | IsRequestLine(line, word, gap, origin, path, gap', version)
      ensures ParseRequestLine(line) == Some(Meaning(word, path))
    {
      LineMeansItsParts(line, word, gap, origin, path, gap', version);
    }
  }
}
