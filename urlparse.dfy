/** The part of Python's `urllib.parse` the crawler and the worker use: `urlparse` and `geturl`/`urlunparse`, as
  * they behave from Python 3.11.4 on (leading control characters and spaces stripped, tabs and line breaks removed
  * before splitting). Of the `ValueError`s `urlsplit` raises, only the one for an unmatched bracket in the netloc
  * is modelled. */
module UrlParse {

  import opened Wrappers
  import opened Text

  /** The six fields of a `ParseResult`. */
  datatype Url = Url(scheme: string, netloc: string, path: string, params: string, query: string, fragment: string)

  /** `urllib.parse.uses_netloc`. */
  const UsesNetloc: set<string> := {
    "", "ftp", "http", "gopher", "nntp", "telnet", "imap", "wais", "file", "mms", "https", "shttp", "snews",
    "prospero", "rtsp", "rtsps", "rtspu", "rsync", "svn", "svn+ssh", "sftp", "nfs", "git", "git+ssh", "ws",
    "wss", "itms-services"}

  /** `urllib.parse.uses_params`. */
  const UsesParams: set<string> := {
    "", "ftp", "hdl", "prospero", "http", "imap", "https", "shttp", "rtsp", "rtsps", "rtspu", "sip", "sips",
    "mms", "sftp", "tel"}

  predicate IsAsciiLetter(c: char)
  {
    ('a' <= c <= 'z') || ('A' <= c <= 'Z')
  }

  /** `urllib.parse.scheme_chars`. */
  predicate IsSchemeChar(c: char)
  {
    IsAsciiLetter(c) || ('0' <= c <= '9') || c == '+' || c == '-' || c == '.'
  }

  /** Neither '?' nor '#' occurs in `s`. */
  predicate NoQueryMarks(s: string)
  {
    '?' !in s && '#' !in s
  }

  /** The characters `urlsplit` strips from the front of a URL: the C0 control characters and the space. */
  predicate IsControlOrSpace(c: char)
  {
    c <= ' '
  }

  /** `url.lstrip(_WHATWG_C0_CONTROL_OR_SPACE)`. */
  function LStripControls(url: string): string
  {
    if url != [] && IsControlOrSpace(url[0]) then LStripControls(url[1..]) else url
  }

  /** Left-stripping leaves a suffix that starts with neither a control character nor a space, and drops only
    * those. */
  lemma {:induction false} LStripControlsSpec(url: string)
    ensures var r := LStripControls(url);
      && |r| <= |url| && r == url[|url| - |r|..]
      && (r != [] ==> !IsControlOrSpace(r[0]))
      && (forall i :: 0 <= i < |url| - |r| ==> IsControlOrSpace(url[i]))
    decreases |url|
  {
    if url != [] && IsControlOrSpace(url[0]) {
      LStripControlsSpec(url[1..]);
    }
  }

  /** The characters `urlsplit` deletes wherever they occur (`_UNSAFE_URL_BYTES_TO_REMOVE`). */
  predicate IsBreak(c: char)
  {
    c == '\t' || c == '\r' || c == '\n'
  }

  /** The text without its tabs, carriage returns and newlines. */
  function RemoveBreaks(s: string): string
  {
    if s == [] then [] else (if IsBreak(s[0]) then [] else [s[0]]) + RemoveBreaks(s[1..])
  }

  /** Removing the breaks one character at a time is what `urlsplit`'s three `replace` calls do, tab first, then
    * carriage return, then newline. */
  lemma {:induction false} RemoveBreaksReplace(s: string)
    ensures RemoveBreaks(s) == RemoveAll(RemoveAll(RemoveAll(s, "\t"), "\r"), "\n")
    decreases |s|
  {
    if s != [] {
      RemoveBreaksReplace(s[1..]);
      ReplaceBreaksAppend([s[0]], s[1..]);
      ReplaceBreaksOne(s[0]);
      assert s == [s[0]] + s[1..];
    }
  }

  /** The three `replace` calls work on each part of a text separately. */
  lemma ReplaceBreaksAppend(x: string, y: string)
    ensures RemoveAll(RemoveAll(RemoveAll(x + y, "\t"), "\r"), "\n") ==
            RemoveAll(RemoveAll(RemoveAll(x, "\t"), "\r"), "\n") + RemoveAll(RemoveAll(RemoveAll(y, "\t"), "\r"), "\n")
  {
    assert "\t" == ['\t'] && "\r" == ['\r'] && "\n" == ['\n'];
    var x1, y1 := RemoveAll(x, "\t"), RemoveAll(y, "\t");
    var x2, y2 := RemoveAll(x1, "\r"), RemoveAll(y1, "\r");
    RemoveAllCharAppend(x, y, '\t');
    RemoveAllCharAppend(x1, y1, '\r');
    RemoveAllCharAppend(x2, y2, '\n');
  }

  /** The three `replace` calls delete a single break and keep any other single character. */
  lemma ReplaceBreaksOne(c: char)
    ensures RemoveAll(RemoveAll(RemoveAll([c], "\t"), "\r"), "\n") == if IsBreak(c) then [] else [c]
  {
    assert "\t" == ['\t'] && "\r" == ['\r'] && "\n" == ['\n'];
    var a := RemoveAll([c], "\t");
    RemoveAllChar([c], '\t');
    RemoveAllChar(a, '\r');
    RemoveAllChar(RemoveAll(a, "\r"), '\n');
    if c == '\t' {
      assert [c][..1] == "\t";
      assert a == [];
    } else if c == '\r' {
      assert a == [c];
      assert [c][..1] == "\r";
    } else if c == '\n' {
      assert a == [c];
      assert RemoveAll(a, "\r") == [c];
      assert [c][..1] == "\n";
    } else {
      assert a == [c];
      assert RemoveAll(a, "\r") == [c];
    }
  }

  /** The text `urlsplit` goes on to split: leading control characters and spaces stripped, then every tab,
    * carriage return and newline removed. */
  function Sanitize(url: string): string
  {
    RemoveBreaks(LStripControls(url))
  }

  /** The cleaned text holds no tab, carriage return or newline, keeps every other character of the stripped text,
    * and starts with neither a control character nor a space; a URL that has none of these to lose is left as it
    * is. */
  lemma SanitizeSpec(url: string)
    ensures var r := Sanitize(url);
      && '\t' !in r && '\r' !in r && '\n' !in r
      && (forall x :: x != '\t' && x != '\r' && x != '\n' ==> (x in r <==> x in LStripControls(url)))
      && (r != [] ==> !IsControlOrSpace(r[0]))
    ensures (url == [] || !IsControlOrSpace(url[0])) && '\t' !in url && '\r' !in url && '\n' !in url ==>
              Sanitize(url) == url
  {
    var l := LStripControls(url);
    LStripControlsSpec(url);
    RemoveBreaksReplace(l);
    var a := RemoveAll(l, "\t");
    var b := RemoveAll(a, "\r");
    assert "\t" == ['\t'] && "\r" == ['\r'] && "\n" == ['\n'];
    RemoveAllChar(l, '\t');
    RemoveAllChar(a, '\r');
    RemoveAllChar(b, '\n');
  }

  /** Left-stripping stops inside a text that holds something else than control characters and spaces, and passes
    * over one that does not. */
  lemma {:induction false} LStripControlsAppend(x: string, y: string)
    ensures LStripControls(x) != [] ==> LStripControls(x + y) == LStripControls(x) + y
    ensures LStripControls(x) == [] ==> LStripControls(x + y) == LStripControls(y)
    decreases |x|
  {
    if x == [] {
      assert x + y == y;
    } else {
      assert (x + y)[0] == x[0];
      if IsControlOrSpace(x[0]) {
        assert (x + y)[1..] == x[1..] + y;
        LStripControlsAppend(x[1..], y);
      }
    }
  }

  /** Removing the breaks works on each part of a text separately, and leaves nothing of a break. */
  lemma {:induction false} RemoveBreaksAppend(x: string, y: string)
    ensures RemoveBreaks(x + y) == RemoveBreaks(x) + RemoveBreaks(y)
    decreases |x|
  {
    if x == [] {
      assert x + y == y;
    } else {
      assert (x + y)[0] == x[0] && (x + y)[1..] == x[1..] + y;
      RemoveBreaksAppend(x[1..], y);
    }
  }

  lemma RemoveBreaksOne(c: char)
    requires IsBreak(c)
    ensures RemoveBreaks([c]) == []
  {
    assert [c][1..] == [];
  }

  /** A tab, carriage return or newline anywhere in the text makes no difference to what is split. */
  lemma SanitizeDropsBreak(a: string, c: char, b: string)
    requires IsBreak(c)
    ensures Sanitize(a + [c] + b) == Sanitize(a + b)
  {
    var x := a + [c] + b;
    assert x == a + ([c] + b);
    if LStripControls(a) == [] {
      StrippedBreak(a, c, b);
    } else {
      KeptBreak(a, c, b);
    }
  }

  /** A line break inside the leading control characters is stripped with them. */
  lemma StrippedBreak(a: string, c: char, b: string)
    requires IsBreak(c)
    requires LStripControls(a) == []
    ensures LStripControls(a + ([c] + b)) == LStripControls(a + b)
  {
    LStripControlsAppend(a, [c] + b);
    LStripControlsAppend(a, b);
    assert ([c] + b)[1..] == b;
  }

  /** A line break after the leading control characters is removed with the other line breaks. */
  lemma KeptBreak(a: string, c: char, b: string)
    requires IsBreak(c)
    requires LStripControls(a) != []
    ensures RemoveBreaks(LStripControls(a + ([c] + b))) == RemoveBreaks(LStripControls(a + b))
  {
    var l := LStripControls(a);
    LStripControlsAppend(a, [c] + b);
    LStripControlsAppend(a, b);
    BreakBetween(l, c, b);
  }

  lemma BreakBetween(l: string, c: char, b: string)
    requires IsBreak(c)
    ensures RemoveBreaks(l + ([c] + b)) == RemoveBreaks(l + b)
  {
    RemoveBreaksAppend(l, [c] + b);
    RemoveBreaksAppend([c], b);
    RemoveBreaksAppend(l, b);
    RemoveBreaksOne(c);
    assert [] + RemoveBreaks(b) == RemoveBreaks(b);
  }

  /** The scheme (lower-cased) and the rest, when `url` starts with a letter followed by scheme characters and ':'. */
  function SplitScheme(url: string): (r: (string, string))
    ensures NoQueryMarks(r.0)
    ensures r.0 == [] ==> r.1 == url
  {
    var i := IndexOf(url, ':');
    if 0 < i < |url| && IsAsciiLetter(url[0]) && (forall j :: 0 <= j < i ==> IsSchemeChar(url[j])) then
      var scheme := AsciiLower(url[..i]);
      assert forall j :: 0 <= j < |scheme| ==> IsSchemeChar(scheme[j]);
      (scheme, url[i + 1..])
    else
      ("", url)
  }

  /** A scheme is split off exactly when the text before the first ':' is non-empty, starts with an ASCII letter
    * and holds only scheme characters; it is then that text lower-cased, and the rest is what follows that ':'.
    * The text before the rest holds no '?' and no '#'. */
  lemma SplitSchemeSpec(url: string)
    ensures var r := SplitScheme(url);
      && (r.0 != [] ==> |r.0| < |url| && url[|r.0|] == ':' && r.0 == AsciiLower(url[..|r.0|]) && r.1 == url[|r.0| + 1..])
      && |r.1| <= |url| && r.1 == url[|url| - |r.1|..] && NoQueryMarks(url[..|url| - |r.1|])
    ensures var i := IndexOf(url, ':');
      SplitScheme(url).0 != [] <==>
        0 < i < |url| && IsAsciiLetter(url[0]) && forall j :: 0 <= j < i ==> IsSchemeChar(url[j])
    ensures SplitScheme(url).0 != [] ==> ':' !in url[..|SplitScheme(url).0|]
  {
    SplitSchemeRest(url);
    SplitSchemeRecognised(url);
  }

  /** The scheme sits before a ':' and the rest after it; what precedes the rest holds no '?' and no '#'. */
  lemma SplitSchemeRest(url: string)
    ensures var r := SplitScheme(url);
      && (r.0 != [] ==> |r.0| < |url| && url[|r.0|] == ':' && r.0 == AsciiLower(url[..|r.0|]) && r.1 == url[|r.0| + 1..])
      && |r.1| <= |url| && r.1 == url[|url| - |r.1|..] && NoQueryMarks(url[..|url| - |r.1|])
  {
    var i := IndexOf(url, ':');
    if 0 < i < |url| && IsAsciiLetter(url[0]) && (forall j :: 0 <= j < i ==> IsSchemeChar(url[j])) {
      var head := url[..i + 1];
      assert forall j :: 0 <= j < |head| ==> head[j] == ':' || IsSchemeChar(head[j]);
    }
  }

  /** When a scheme is split off, and that it ends at the first ':'. */
  lemma SplitSchemeRecognised(url: string)
    ensures var i := IndexOf(url, ':');
      SplitScheme(url).0 != [] <==>
        0 < i < |url| && IsAsciiLetter(url[0]) && forall j :: 0 <= j < i ==> IsSchemeChar(url[j])
    ensures SplitScheme(url).0 != [] ==> ':' !in url[..|SplitScheme(url).0|]
  {
    var i := IndexOf(url, ':');
    IndexOfFound(url, ':');
    if 0 < i < |url| && IsAsciiLetter(url[0]) && (forall j :: 0 <= j < i ==> IsSchemeChar(url[j])) {
      assert |AsciiLower(url[..i])| == i;
    }
  }

  /** `_splitparams`: the ';' that starts the parameters is searched from the last '/'. */
  function SplitParams(url: string): (r: (string, string))
    ensures NoQueryMarks(url) ==> NoQueryMarks(r.0) && NoQueryMarks(r.1)
  {
    var k := LastIndexOf(url, '/');
    var from := if k < 0 then 0 else k;
    var i := from + IndexOf(url[from..], ';');
    if i < |url| then (url[..i], url[i + 1..]) else (url, "")
  }

  /** The parameters start at the first ';' after the last '/' (anywhere when there is no '/'), and the path is
    * what comes before that ';'; without such a ';' nothing is split off. */
  lemma SplitParamsSpec(s: string)
    ensures var r := SplitParams(s);
      var from := if LastIndexOf(s, '/') < 0 then 0 else LastIndexOf(s, '/');
      && (';' in s[from..] ==> s == r.0 + ";" + r.1 && from <= |r.0| && ';' !in r.0[from..])
      && (';' !in s[from..] ==> r == (s, ""))
  {
    var k := LastIndexOf(s, '/');
    var from := if k < 0 then 0 else k;
    var i := from + IndexOf(s[from..], ';');
    assert SplitParams(s) == if i < |s| then (s[..i], s[i + 1..]) else (s, "");
    IndexOfFound(s[from..], ';');
    if ';' in s[from..] {
      SemicolonAt(s, from);
    }
  }

  /** Cutting at the first ';' from position `from` on. */
  lemma SemicolonAt(s: string, from: nat)
    requires from <= |s| && IndexOf(s[from..], ';') < |s| - from
    ensures var i := from + IndexOf(s[from..], ';');
      s == s[..i] + ";" + s[i + 1..] && ';' !in s[..i][from..]
  {
    var t := s[from..];
    var n := IndexOf(t, ';');
    var i := from + n;
    IndexOfFound(t, ';');
    assert s[i] == t[n];
    assert s == s[..i] + [s[i]] + s[i + 1..];
    assert s[..i][from..] == t[..n];
  }

  /** The netloc after a leading "//", up to the first '/', '?' or '#', and what follows it; no netloc without
    * the leading "//". */
  function SplitNetloc(rest: string): (r: (string, string))
    ensures NoQueryMarks(r.0)
    ensures r.0 + r.1 == rest || "//" + r.0 + r.1 == rest
  {
    if StartsWith(rest, "//") then
      var d := 2 + IndexOfAny(rest[2..], {'/', '?', '#'});
      assert rest == "//" + rest[2..d] + rest[d..];
      (rest[2..d], rest[d..])
    else ("", rest)
  }

  /** Without a leading "//" there is no netloc; after one, the netloc runs up to the first '/', '?' or '#'. The
    * text before the remainder holds no '?' and no '#'. */
  lemma SplitNetlocSpec(rest: string)
    ensures var r := SplitNetloc(rest);
      && '/' !in r.0
      && (StartsWith(rest, "//") ==> "//" + r.0 + r.1 == rest && (r.1 == [] || r.1[0] in {'/', '?', '#'}))
      && (!StartsWith(rest, "//") ==> r == ("", rest))
      && |r.1| <= |rest| && r.1 == rest[|rest| - |r.1|..] && NoQueryMarks(rest[..|rest| - |r.1|])
  {
    if StartsWith(rest, "//") {
      var d := 2 + IndexOfAny(rest[2..], {'/', '?', '#'});
      assert rest == "//" + rest[2..d] + rest[d..];
      assert rest[..d] == "//" + rest[2..d];
    }
  }

  /** `s` cut at the first `c`: the part before it, and the part after it ("" when `c` does not occur). */
  function CutAt(s: string, c: char): (r: (string, string))
    ensures c !in r.0
    ensures forall x :: x in r.0 ==> x in s
  {
    var i := IndexOf(s, c);
    (s[..i], if i < |s| then s[i + 1..] else "")
  }

  /** Cutting at a `c` that occurs splits the text around its first occurrence; without one nothing is cut. */
  lemma CutAtSpec(s: string, c: char)
    ensures c in s ==> s == CutAt(s, c).0 + [c] + CutAt(s, c).1
    ensures c !in s ==> CutAt(s, c) == (s, "")
  {
    var i := IndexOf(s, c);
    assert i < |s| ==> s == s[..i] + [c] + s[i + 1..];
    assert s[..|s|] == s;
  }

  /** Cutting at the first `c` skips a prefix without `c`. */
  lemma CutAtPrefix(p: string, t: string, c: char)
    requires c !in p
    ensures CutAt(p + t, c) == (p + CutAt(t, c).0, CutAt(t, c).1)
  {
    var u := CutAt(t, c);
    CutAtSpec(t, c);
    if c in t {
      assert p + t == (p + u.0) + [c] + u.1 by {
        assert t == u.0 + [c] + u.1;
        assert p + (u.0 + [c] + u.1) == (p + u.0) + [c] + u.1;
      }
      assert c !in p + u.0;
      CutAtUnique(p + t, c, p + u.0, u.1);
    } else {
      assert c !in p + t;
      CutAtSpec(p + t, c);
    }
  }

  /** The first `c` is where the text is cut, so any split at a `c` with none before it is the cut. */
  lemma CutAtUnique(s: string, c: char, a: string, b: string)
    requires s == a + [c] + b && c !in a
    ensures CutAt(s, c) == (a, b)
  {
    var i := IndexOf(s, c);
    assert s[|a|] == c;
    assert forall j :: 0 <= j < |a| ==> s[j] == a[j];
    assert i == |a|;
    assert s[..i] == a;
    assert s[i + 1..] == b;
  }

  /** `urlparse(url)`: the cleaned text is split into its parts; `None` where it raises `ValueError`. */
  function Parse(url: string): (r: Option<Url>)
    ensures r.Some? ==> NoQueryMarks(r.value.scheme) && NoQueryMarks(r.value.netloc)
    ensures r.Some? ==> NoQueryMarks(r.value.path) && NoQueryMarks(r.value.params)
  {
    SplitUrl(Sanitize(url))
  }

  /** The splitting of a cleaned text: scheme, netloc, fragment, query and path, and the parameters split off the
    * path for the schemes that use them; `None` for a netloc with an unmatched bracket. */
  function SplitUrl(clean: string): (r: Option<Url>)
    ensures r.Some? ==> NoQueryMarks(r.value.scheme) && NoQueryMarks(r.value.netloc)
    ensures r.Some? ==> NoQueryMarks(r.value.path) && NoQueryMarks(r.value.params)
  {
    var (scheme, rest) := SplitScheme(clean);
    var (netloc, rest1) := SplitNetloc(rest);
    if ('[' in netloc) != (']' in netloc) then None
    else
      var (rest2, fragment) := CutAt(rest1, '#');
      var (rest3, query) := CutAt(rest2, '?');
      var (path, params) := if scheme in UsesParams && ';' in rest3 then SplitParams(rest3) else (rest3, "");
      Some(Url(scheme, netloc, path, params, query, fragment))
  }

  /** The fragment `urlparse` gives is what follows the first '#' of the cleaned text, and the query what follows
    * the first '?' before that. */
  lemma ParseQueryFragment(url: string)
    requires Parse(url).Some?
    ensures Parse(url).value.fragment == CutAt(Sanitize(url), '#').1
    ensures Parse(url).value.query == CutAt(CutAt(Sanitize(url), '#').0, '?').1
  {
    var rest := SplitScheme(Sanitize(url)).1;
    ParsedTail(Sanitize(url), rest, SplitNetloc(rest).1);
  }

  /** `urlparse` fails exactly when the netloc split off the cleaned text has an unmatched bracket; otherwise the
    * scheme and netloc are the ones split off that text. */
  lemma ParseSchemeNetloc(url: string)
    ensures var (scheme, rest) := SplitScheme(Sanitize(url));
      var netloc := SplitNetloc(rest).0;
      && (Parse(url).Some? <==> (('[' in netloc) <==> (']' in netloc)))
      && (Parse(url).Some? ==> Parse(url).value.scheme == scheme && Parse(url).value.netloc == netloc)
  {
  }

  /** What precedes query and fragment after the netloc is the path, followed by ";" and the parameters when those
    * are split off; they are split off only for the schemes that use them, as `_splitparams` does. */
  lemma ParsePathParams(url: string)
    requires Parse(url).Some?
    ensures var u := Parse(url).value;
      var before := CutAt(CutAt(SplitNetloc(SplitScheme(Sanitize(url)).1).1, '#').0, '?').0;
      && ((u.path == before && u.params == []) || before == u.path + ";" + u.params)
      && (u.scheme !in UsesParams ==> u.path == before && u.params == [])
      && (u.scheme in UsesParams ==> (u.path, u.params) == SplitParams(before))
  {
    var before := CutAt(CutAt(SplitNetloc(SplitScheme(Sanitize(url)).1).1, '#').0, '?').0;
    var u := Parse(url).value;
    assert (u.path, u.params) ==
           if u.scheme in UsesParams && ';' in before then SplitParams(before) else (before, "");
    if u.scheme in UsesParams {
      SplitParamsSpec(before);
      var k := LastIndexOf(before, '/');
      var from := if k < 0 then 0 else k;
      if ';' !in before {
        assert ';' !in before[from..];
      }
    }
  }

  /** Leading control characters and spaces make no difference to `urlparse`. */
  lemma ParseLeadingControls(w: string, url: string)
    requires forall i :: 0 <= i < |w| ==> IsControlOrSpace(w[i])
    ensures Parse(w + url) == Parse(url)
  {
    LStripControlsSpec(w);
    LStripControlsAppend(w, url);
  }

  /** A tab, carriage return or newline anywhere in the text makes no difference to `urlparse`. */
  lemma ParseIgnoresBreaks(a: string, c: char, b: string)
    requires IsBreak(c)
    ensures Parse(a + [c] + b) == Parse(a + b)
  {
    SanitizeDropsBreak(a, c, b);
  }

  /** What follows scheme and netloc holds the first '#' of the whole text and the first '?' before it. */
  lemma ParsedTail(url: string, rest: string, rest1: string)
    requires rest == SplitScheme(url).1 && rest1 == SplitNetloc(rest).1
    ensures CutAt(url, '#').1 == CutAt(rest1, '#').1
    ensures CutAt(CutAt(url, '#').0, '?').1 == CutAt(CutAt(rest1, '#').0, '?').1
  {
    ParsedPrefix(url, rest, rest1);
    var p := url[..|url| - |rest1|];
    CutAtPrefix(p, rest1, '#');
    CutAtPrefix(p, CutAt(rest1, '#').0, '?');
  }

  /** Scheme and netloc, with their separators, hold no '?' and no '#'. */
  lemma ParsedPrefix(url: string, rest: string, rest1: string)
    requires rest == SplitScheme(url).1 && rest1 == SplitNetloc(rest).1
    ensures |rest1| <= |url| && url == url[..|url| - |rest1|] + rest1 && NoQueryMarks(url[..|url| - |rest1|])
  {
    assert |rest| <= |url| && rest == url[|url| - |rest|..] && NoQueryMarks(url[..|url| - |rest|]) by {
      SplitSchemeSpec(url);
    }
    assert |rest1| <= |rest| && rest1 == rest[|rest| - |rest1|..] && NoQueryMarks(rest[..|rest| - |rest1|]) by {
      SplitNetlocSpec(rest);
    }
    UnmarkedPrefixes(url, rest, rest1);
  }

  /** Two prefixes without '?' or '#' make one. */
  lemma UnmarkedPrefixes(s: string, t: string, u: string)
    requires |t| <= |s| && t == s[|s| - |t|..] && NoQueryMarks(s[..|s| - |t|])
    requires |u| <= |t| && u == t[|t| - |u|..] && NoQueryMarks(t[..|t| - |u|])
    ensures |u| <= |s| && s == s[..|s| - |u|] + u && NoQueryMarks(s[..|s| - |u|])
  {
    var p := s[..|s| - |t|];
    var q := t[..|t| - |u|];
    assert s == p + t && t == q + u;
    ConcatAssoc(p, q, u);
    assert s[..|s| - |u|] == p + q;
  }

  /** `urlunparse(u)`, which is also `ParseResult.geturl()`. */
  function Unparse(u: Url): string
  {
    var url := if u.params != [] then u.path + ";" + u.params else u.path;
    var withNetloc :=
      if u.netloc != [] || (u.scheme != [] && u.scheme in UsesNetloc && !StartsWith(url, "//")) then
        "//" + u.netloc + (if url != [] && url[0] != '/' then "/" + url else url)
      else url;
    var withScheme := if u.scheme != [] then u.scheme + ":" + withNetloc else withNetloc;
    var withQuery := if u.query != [] then withScheme + "?" + u.query else withScheme;
    if u.fragment != [] then withQuery + "#" + u.fragment else withQuery
  }

  /** Rebuilding a parsed URL with its query and fragment emptied leaves no '?' and no '#' in the text. */
  lemma UnparseWithoutQuery(u: Url)
    requires NoQueryMarks(u.scheme) && NoQueryMarks(u.netloc) && NoQueryMarks(u.path) && NoQueryMarks(u.params)
    ensures NoQueryMarks(Unparse(u.(query := [], fragment := [])))
  {
    var url := if u.params != [] then u.path + ";" + u.params else u.path;
    assert NoQueryMarks(url);
    var rooted := if url != [] && url[0] != '/' then "/" + url else url;
    assert NoQueryMarks(rooted);
    assert NoQueryMarks("//" + u.netloc + rooted);
  }
}
