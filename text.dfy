/** String operations of Python's `str` and `re` that the pipeline relies on. */
module Text {

  import opened Wrappers

  /** `c.isspace()`, which is also the set that `\s` matches in a `str` pattern. */
  predicate IsSpace(c: char)
  {
    var n := c as int;
    (9 <= n <= 13) || (28 <= n <= 32) || n == 0x85 || n == 0xA0 || n == 0x1680 ||
    (0x2000 <= n <= 0x200A) || n == 0x2028 || n == 0x2029 || n == 0x202F || n == 0x205F || n == 0x3000
  }

  /** The characters of `s` that are not whitespace, in order. */
  function NonSpace(s: string): string
  {
    if s == [] then [] else (if IsSpace(s[0]) then [] else [s[0]]) + NonSpace(s[1..])
  }

  /** Whitespace occurs only as single spaces. */
  predicate SingleSpaced(r: string)
  {
    && (forall i :: 0 <= i < |r| && IsSpace(r[i]) ==> r[i] == ' ')
    && (forall i :: 0 <= i < |r| - 1 ==> !IsSpace(r[i]) || !IsSpace(r[i + 1]))
  }

  /** The shape of normalised text: no whitespace at either end, whitespace only as single spaces. */
  predicate Normalized(r: string)
  {
    && (r != [] ==> !IsSpace(r[0]) && !IsSpace(r[|r| - 1]))
    && SingleSpaced(r)
  }

  /** `s.lstrip()`. */
  function LStrip(s: string): (r: string)
    ensures |r| <= |s| && r == s[|s| - |r|..]
    ensures r != [] ==> !IsSpace(r[0])
    ensures forall i :: 0 <= i < |s| - |r| ==> IsSpace(s[i])
  {
    if s != [] && IsSpace(s[0]) then LStrip(s[1..]) else s
  }

  /** `s.rstrip()`. */
  function RStrip(s: string): (r: string)
    ensures |r| <= |s| && r == s[..|r|]
    ensures r != [] ==> !IsSpace(r[|r| - 1])
    ensures forall i :: |r| <= i < |s| ==> IsSpace(s[i])
  {
    if s != [] && IsSpace(s[|s| - 1]) then RStrip(s[..|s| - 1]) else s
  }

  /** `s.strip()`. */
  function Strip(s: string): string
  {
    RStrip(LStrip(s))
  }

  /** `re.sub(r'\s+', ' ', s)`: every maximal run of whitespace becomes one space. */
  function Collapse(s: string): (r: string)
    ensures r == [] <==> s == []
    ensures r != [] ==> (IsSpace(r[0]) <==> IsSpace(s[0]))
    ensures SingleSpaced(r)
    decreases |s|
  {
    if s == [] then []
    else if IsSpace(s[0]) then
      var t := Collapse(LStrip(s[1..]));
      SingleSpacedCons(' ', t);
      [' '] + t
    else
      var t := Collapse(s[1..]);
      SingleSpacedCons(s[0], t);
      [s[0]] + t
  }

  /** A character put in front of a single-spaced text keeps it single-spaced when it is a non-space, or a
    * plain space before a non-space. */
  lemma SingleSpacedCons(c: char, t: string)
    requires SingleSpaced(t)
    requires IsSpace(c) ==> c == ' ' && (t == [] || !IsSpace(t[0]))
    ensures SingleSpaced([c] + t)
  {
    var r := [c] + t;
    assert forall i :: 1 <= i < |r| ==> r[i] == t[i - 1];
  }

  /** `re.sub(r'\s+', ' ', text).strip()` for a non-empty text, and "" for an empty one
    * (the `_clean_text` helpers of the parser and the scorer). */
  function CleanText(s: string): (r: string)
    ensures Normalized(r)
    ensures NonSpace(r) == NonSpace(s)
  {
    var c := Collapse(s);
    StripKeepsShape(c);
    NonSpaceCollapse(s);
    NonSpaceStrip(c);
    Strip(c)
  }

  /** The Python `_clean_text(text)` for a text that may be `None`: a falsy text gives "". */
  function CleanOptional(text: Option<string>): (r: string)
    ensures text.None? || text.value == [] ==> r == []
    ensures Normalized(r)
  {
    match text
    case None => []
    case Some(s) => if s == [] then [] else CleanText(s)
  }

  lemma {:induction false} NonSpaceAppend(a: string, b: string)
    ensures NonSpace(a + b) == NonSpace(a) + NonSpace(b)
    decreases |a|
  {
    if a != [] {
      var h := if IsSpace(a[0]) then [] else [a[0]];
      assert (a + b)[0] == a[0];
      assert (a + b)[1..] == a[1..] + b;
      NonSpaceAppend(a[1..], b);
      calc {
        NonSpace(a + b);
        h + NonSpace(a[1..] + b);
        h + (NonSpace(a[1..]) + NonSpace(b));
        (h + NonSpace(a[1..])) + NonSpace(b);
        NonSpace(a) + NonSpace(b);
      }
    } else {
      assert a + b == b;
    }
  }

  lemma {:induction false} NonSpaceAllSpace(s: string)
    requires forall i :: 0 <= i < |s| ==> IsSpace(s[i])
    ensures NonSpace(s) == []
    decreases |s|
  {
    if s != [] {
      NonSpaceAllSpace(s[1..]);
    }
  }

  lemma {:induction false} NonSpaceCollapse(s: string)
    ensures NonSpace(Collapse(s)) == NonSpace(s)
    decreases |s|
  {
    if s == [] {
    } else if IsSpace(s[0]) {
      var t := LStrip(s[1..]);
      var p := s[1..][..|s| - 1 - |t|];
      assert s[1..] == p + t;
      assert NonSpace(s) == NonSpace(s[1..]);
      NonSpaceAppend(p, t);
      NonSpaceAllSpace(p);
      NonSpaceCollapse(t);
      assert Collapse(s) == [' '] + Collapse(t);
      NonSpaceAppend([' '], Collapse(t));
      assert NonSpace([' ']) == [];
    } else {
      assert NonSpace(s) == [s[0]] + NonSpace(s[1..]);
      assert Collapse(s) == [s[0]] + Collapse(s[1..]);
      NonSpaceCollapse(s[1..]);
      NonSpaceAppend([s[0]], Collapse(s[1..]));
      assert NonSpace([s[0]]) == [s[0]];
    }
  }

  lemma NonSpaceLStrip(s: string)
    ensures NonSpace(LStrip(s)) == NonSpace(s)
  {
    var l := LStrip(s);
    var p := s[..|s| - |l|];
    assert s == p + l;
    NonSpaceAppend(p, l);
    NonSpaceAllSpace(p);
  }

  lemma NonSpaceRStrip(s: string)
    ensures NonSpace(RStrip(s)) == NonSpace(s)
  {
    var r := RStrip(s);
    var q := s[|r|..];
    assert s == r + q;
    NonSpaceAppend(r, q);
    NonSpaceAllSpace(q);
  }

  lemma NonSpaceStrip(s: string)
    ensures NonSpace(Strip(s)) == NonSpace(s)
  {
    NonSpaceLStrip(s);
    NonSpaceRStrip(LStrip(s));
  }

  /** A slice of a single-spaced text is single-spaced. */
  lemma SliceSingleSpaced(c: string, k: nat, m: nat)
    requires k <= m <= |c| && SingleSpaced(c)
    ensures SingleSpaced(c[k..m])
  {
    var d := c[k..m];
    assert forall i :: 0 <= i < |d| ==> d[i] == c[k + i];
  }

  lemma LStripSingleSpaced(c: string)
    requires SingleSpaced(c)
    ensures SingleSpaced(LStrip(c))
  {
    var k := |c| - |LStrip(c)|;
    SliceSingleSpaced(c, k, |c|);
    assert c[k..|c|] == c[k..];
  }

  lemma RStripSingleSpaced(l: string)
    requires SingleSpaced(l)
    ensures SingleSpaced(RStrip(l))
  {
    var r := RStrip(l);
    assert r == l[0..|r|];
    SliceSingleSpaced(l, 0, |r|);
  }

  /** Right-stripping keeps the first character, if any is left. */
  lemma RStripKeepsFirst(l: string)
    ensures RStrip(l) != [] ==> RStrip(l)[0] == l[0]
  {
  }

  /** Stripping a single-spaced text normalises it. */
  lemma StripKeepsShape(c: string)
    requires SingleSpaced(c)
    ensures Normalized(Strip(c))
  {
    LStripSingleSpaced(c);
    RStripSingleSpaced(LStrip(c));
    RStripKeepsFirst(LStrip(c));
  }

  /** A normalised text is a fixed point of whitespace collapsing. */
  lemma {:induction false} CollapseNormalized(r: string)
    requires SingleSpaced(r)
    ensures Collapse(r) == r
    decreases |r|
  {
    if r != [] {
      SliceSingleSpaced(r, 1, |r|);
      CollapseNormalized(r[1..]);
      if IsSpace(r[0]) {
        assert r[0] == ' ';
        assert r[1..] != [] ==> !IsSpace(r[1..][0]);
        assert LStrip(r[1..]) == r[1..];
        assert Collapse(r) == [' '] + Collapse(r[1..]);
      } else {
        assert Collapse(r) == [r[0]] + Collapse(r[1..]);
      }
      assert r == [r[0]] + r[1..];
    }
  }

  /** Cleaning is idempotent. */
  lemma CleanTextIdempotent(s: string)
    ensures CleanText(CleanText(s)) == CleanText(s)
  {
    var r := CleanText(s);
    CollapseNormalized(r);
    assert LStrip(r) == r;
    assert RStrip(r) == r;
  }

  /** A normalised text is its own cleaned form. */
  lemma CleanTextFixes(s: string)
    requires Normalized(s)
    ensures CleanText(s) == s
  {
    CollapseNormalized(s);
    assert LStrip(s) == s;
    assert RStrip(s) == s;
  }

  /** Left-stripping whitespace followed by a text that starts with a non-space leaves that text. */
  lemma {:induction false} LStripSpaces(w: string, b: string)
    requires forall i :: 0 <= i < |w| ==> IsSpace(w[i])
    requires b == [] || !IsSpace(b[0])
    ensures LStrip(w + b) == b
    decreases |w|
  {
    if w == [] {
      assert w + b == b;
    } else {
      assert (w + b)[1..] == w[1..] + b;
      LStripSpaces(w[1..], b);
    }
  }

  /** Left-stripping stops inside a text that is not all whitespace. */
  lemma {:induction false} LStripAppend(x: string, y: string)
    requires LStrip(x) != []
    ensures LStrip(x + y) == LStrip(x) + y
    decreases |x|
  {
    assert (x + y)[0] == x[0];
    if IsSpace(x[0]) {
      assert (x + y)[1..] == x[1..] + y;
      LStripAppend(x[1..], y);
    }
  }

  /** Right-stripping stops inside a text that is not all whitespace. */
  lemma {:induction false} RStripAppend(x: string, y: string)
    requires RStrip(y) != []
    ensures RStrip(x + y) == x + RStrip(y)
    decreases |y|
  {
    if IsSpace(y[|y| - 1]) {
      var y' := y[..|y| - 1];
      assert (x + y)[..|x + y| - 1] == x + y';
      RStripAppend(x, y');
    }
  }

  /** Collapsing keeps whether the text ends in whitespace. */
  lemma {:induction false} CollapseLast(s: string)
    requires s != []
    ensures IsSpace(Collapse(s)[|Collapse(s)| - 1]) <==> IsSpace(s[|s| - 1])
    decreases |s|
  {
    if IsSpace(s[0]) {
      var t := LStrip(s[1..]);
      if t != [] {
        assert t[|t| - 1] == s[|s| - 1];
        CollapseLast(t);
        assert Collapse(s) == [' '] + Collapse(t);
      }
    } else if |s| > 1 {
      CollapseLast(s[1..]);
      assert Collapse(s) == [s[0]] + Collapse(s[1..]);
    }
  }

  lemma CollapseSpaceHead(s: string)
    requires s != [] && IsSpace(s[0])
    ensures Collapse(s) == [' '] + Collapse(LStrip(s[1..]))
  {
  }

  lemma CollapseCharHead(s: string)
    requires s != [] && !IsSpace(s[0])
    ensures Collapse(s) == [s[0]] + Collapse(s[1..])
  {
  }

  lemma ConcatTail(a: string, w: string, b: string)
    requires a != []
    ensures a + w + b == a + (w + b)
    ensures (a + w + b)[1..] == a[1..] + w + b
  {
  }

  lemma ConcatRegroup(x: string, y: string, z: string)
    ensures x + (y + [' '] + z) == (x + y) + [' '] + z
  {
  }

  /** Whitespace before a text that starts with a non-space collapses to one space. */
  lemma CollapseLeadingRun(w: string, b: string)
    requires w != [] && forall i :: 0 <= i < |w| ==> IsSpace(w[i])
    requires b == [] || !IsSpace(b[0])
    ensures Collapse(w + b) == [' '] + Collapse(b)
  {
    var s := w + b;
    assert s[1..] == w[1..] + b;
    CollapseSpaceHead(s);
    LStripSpaces(w[1..], b);
  }

  /** One whitespace run between a text ending in a non-space and a text starting with one collapses to a
    * single space, and the two sides collapse on their own. */
  lemma {:induction false} CollapseSplit(a: string, w: string, b: string)
    requires a == [] || !IsSpace(a[|a| - 1])
    requires w != [] && forall i :: 0 <= i < |w| ==> IsSpace(w[i])
    requires b == [] || !IsSpace(b[0])
    ensures Collapse(a + w + b) == Collapse(a) + [' '] + Collapse(b)
    decreases |a|
  {
    if a == [] {
      assert a + w + b == w + b;
      CollapseLeadingRun(w, b);
    } else if !IsSpace(a[0]) {
      CollapseSplit(a[1..], w, b);
      CollapseSplitChar(a, w, b);
    } else {
      var l := LStrip(a[1..]);
      assert a[1..][|a| - 2] == a[|a| - 1];
      CollapseSplit(l, w, b);
      CollapseSplitSpace(a, w, b);
    }
  }

  /** The step of `CollapseSplit` for a text that starts with a non-space. */
  lemma CollapseSplitChar(a: string, w: string, b: string)
    requires a != [] && !IsSpace(a[0])
    requires Collapse(a[1..] + w + b) == Collapse(a[1..]) + [' '] + Collapse(b)
    ensures Collapse(a + w + b) == Collapse(a) + [' '] + Collapse(b)
  {
    var s := a + w + b;
    ConcatTail(a, w, b);
    CollapseCharHead(s);
    CollapseCharHead(a);
    ConcatRegroup([a[0]], Collapse(a[1..]), Collapse(b));
  }

  /** The step of `CollapseSplit` for a text that starts with whitespace but is not all whitespace. */
  lemma CollapseSplitSpace(a: string, w: string, b: string)
    requires a != [] && IsSpace(a[0]) && !IsSpace(a[|a| - 1])
    requires Collapse(LStrip(a[1..]) + w + b) == Collapse(LStrip(a[1..])) + [' '] + Collapse(b)
    ensures Collapse(a + w + b) == Collapse(a) + [' '] + Collapse(b)
  {
    var l := LStrip(a[1..]);
    assert Collapse(a + w + b) == [' '] + Collapse(l + w + b) by {
      CollapseSpaceRest(a, w + b);
      ConcatAssoc(a, w, b);
      ConcatAssoc(l, w, b);
    }
    CollapseSpaceHead(a);
    ConcatRegroup([' '], Collapse(l), Collapse(b));
  }

  lemma ConcatAssoc(x: string, y: string, z: string)
    ensures x + (y + z) == x + y + z
  {
  }

  /** Leading whitespace of a text that is not all whitespace collapses to one space, whatever follows. */
  lemma CollapseSpaceRest(a: string, t: string)
    requires a != [] && IsSpace(a[0]) && !IsSpace(a[|a| - 1])
    ensures Collapse(a + t) == [' '] + Collapse(LStrip(a[1..]) + t)
  {
    assert a[1..][|a| - 2] == a[|a| - 1];
    assert (a + t)[1..] == a[1..] + t;
    LStripAppend(a[1..], t);
    CollapseSpaceHead(a + t);
  }

  /** The cleaned form of a text is its collapsed form, stripped. */
  lemma CleanTextIsStrip(s: string)
    ensures CleanText(s) == RStrip(LStrip(Collapse(s)))
  {
  }

  /** Right-stripping a text that starts with a non-space leaves something. */
  lemma RStripKeepsHead(y: string)
    requires y != [] && !IsSpace(y[0])
    ensures RStrip(y) != []
  {
  }

  /** Stripping two texts joined by one space, where the space sits between non-space characters, strips
    * each side on its own. */
  lemma StripAround(x: string, y: string)
    requires x != [] && !IsSpace(x[|x| - 1])
    requires y != [] && !IsSpace(y[0])
    ensures RStrip(LStrip(x + [' '] + y)) == RStrip(LStrip(x)) + [' '] + RStrip(LStrip(y))
  {
    var l := LStrip(x);
    assert LStrip(x + [' '] + y) == l + [' '] + y by {
      LStripKeepsLast(x);
      LStripAppend(x, [' '] + y);
      ConcatAssoc(x, [' '], y);
      ConcatAssoc(l, [' '], y);
    }
    assert RStrip(l + [' '] + y) == l + [' '] + RStrip(y) by {
      RStripKeepsHead(y);
      RStripAppend(l + [' '], y);
    }
    assert RStrip(l) == l by {
      LStripKeepsLast(x);
    }
  }

  /** Cleaning a text whose two parts are separated by one whitespace run joins their cleaned forms with one space. */
  lemma CleanTextSplit(a: string, w: string, b: string)
    requires a != [] && !IsSpace(a[|a| - 1])
    requires w != [] && forall i :: 0 <= i < |w| ==> IsSpace(w[i])
    requires b != [] && !IsSpace(b[0])
    ensures CleanText(a + w + b) == CleanText(a) + [' '] + CleanText(b)
  {
    CollapseSplit(a, w, b);
    CollapseLast(a);
    CleanTextIsStrip(a);
    CleanTextIsStrip(b);
    CleanTextIsStrip(a + w + b);
    StripAround(Collapse(a), Collapse(b));
  }

  /** Leading whitespace before a text that starts with a non-space does not change its cleaned form. */
  lemma CleanTextLeading(w: string, s: string)
    requires forall i :: 0 <= i < |w| ==> IsSpace(w[i])
    requires s == [] || !IsSpace(s[0])
    ensures CleanText(w + s) == CleanText(s)
  {
    if w != [] {
      CollapseLeadingRun(w, s);
      CleanTextIsStrip(w + s);
      CleanTextIsStrip(s);
      LStripLeadingSpace(Collapse(s));
    } else {
      assert w + s == s;
    }
  }

  /** One space before a text that starts with a non-space is what left-stripping removes. */
  lemma LStripLeadingSpace(c: string)
    requires c == [] || !IsSpace(c[0])
    ensures LStrip([' '] + c) == LStrip(c) == c
  {
    assert ([' '] + c)[1..] == c;
  }

  /** Left-stripping a text that ends in a non-space leaves that last character. */
  lemma LStripKeepsLast(x: string)
    requires x != [] && !IsSpace(x[|x| - 1])
    ensures LStrip(x) != [] && LStrip(x)[|LStrip(x)| - 1] == x[|x| - 1]
  {
  }

  /** A space after a text that ends in a non-space is stripped away. */
  lemma StripTrailingSpace(x: string)
    requires x != [] && !IsSpace(x[|x| - 1])
    ensures RStrip(LStrip(x + [' '])) == RStrip(LStrip(x))
  {
    var l := LStrip(x);
    LStripKeepsLast(x);
    LStripAppend(x, [' ']);
    assert RStrip(l + [' ']) == RStrip(l);
  }

  /** Trailing whitespace after a text that ends in a non-space does not change its cleaned form. */
  lemma CleanTextTrailing(s: string, w: string)
    requires s == [] || !IsSpace(s[|s| - 1])
    requires forall i :: 0 <= i < |w| ==> IsSpace(w[i])
    ensures CleanText(s + w) == CleanText(s)
  {
    if w == [] {
      assert s + w == s;
    } else {
      CollapseSplit(s, w, []);
      assert s + w + [] == s + w;
      assert Collapse(s) + [' '] + Collapse([]) == Collapse(s) + [' '];
      CleanTextIsStrip(s + w);
      CleanTextIsStrip(s);
      if s != [] {
        CollapseLast(s);
        StripTrailingSpace(Collapse(s));
      } else {
        assert LStrip([' ']) == [];
      }
    }
  }

  /** `s.startswith(p)`. */
  predicate StartsWith(s: string, p: string)
  {
    |p| <= |s| && s[..|p|] == p
  }

  /** `s.endswith(p)`. */
  predicate EndsWith(s: string, p: string)
  {
    |p| <= |s| && s[|s| - |p|..] == p
  }

  /** `sub in s`. */
  predicate Contains(s: string, sub: string)
    decreases |s|
  {
    StartsWith(s, sub) || (s != [] && Contains(s[1..], sub))
  }

  /** `s.find(c)`, with |s| standing for "not found". */
  function IndexOf(s: string, c: char): (i: nat)
    ensures i <= |s|
    ensures i < |s| ==> s[i] == c
    ensures forall j :: 0 <= j < i ==> s[j] != c
  {
    if s == [] then 0 else if s[0] == c then 0 else 1 + IndexOf(s[1..], c)
  }

  /** `s.find(c)` finds something exactly when `c` occurs. */
  lemma IndexOfFound(s: string, c: char)
    ensures c in s <==> IndexOf(s, c) < |s|
    ensures c !in s[..IndexOf(s, c)]
  {
    var n := IndexOf(s, c);
    assert forall j :: 0 <= j < n ==> s[..n][j] == s[j];
    if c in s {
      var j :| 0 <= j < |s| && s[j] == c;
    }
  }

  /** The first index of a character of `cs` in `s`, or |s|. */
  function IndexOfAny(s: string, cs: set<char>): (i: nat)
    ensures i <= |s|
    ensures i < |s| ==> s[i] in cs
    ensures forall j :: 0 <= j < i ==> s[j] !in cs
  {
    if s == [] then 0 else if s[0] in cs then 0 else 1 + IndexOfAny(s[1..], cs)
  }

  /** `s.rfind(c)`, with -1 for "not found". */
  function LastIndexOf(s: string, c: char): (i: int)
    ensures -1 <= i < |s|
    ensures i >= 0 ==> s[i] == c
    ensures forall j :: i < j < |s| ==> s[j] != c
  {
    if s == [] then -1 else if s[|s| - 1] == c then |s| - 1 else LastIndexOf(s[..|s| - 1], c)
  }

  /** `s.split(sep)` for a one-character separator. */
  function Split(s: string, sep: char): (parts: seq<string>)
    ensures |parts| >= 1
    ensures forall i :: 0 <= i < |parts| ==> sep !in parts[i]
  {
    if s == [] then [[]]
    else
      var rest := Split(s[1..], sep);
      if s[0] == sep then [[]] + rest
      else
        var parts := [[s[0]] + rest[0]] + rest[1..];
        assert parts[1..] == rest[1..];
        parts
  }

  /** `sep.join(parts)`. */
  function Join(parts: seq<string>, sep: char): string
    requires |parts| >= 1
  {
    if |parts| == 1 then parts[0] else parts[0] + [sep] + Join(parts[1..], sep)
  }

  /** Joining a first part to at least one more puts the separator between them. */
  lemma JoinCons(p: string, ps: seq<string>, sep: char)
    requires |ps| >= 1
    ensures Join([p] + ps, sep) == p + [sep] + Join(ps, sep)
  {
    assert ([p] + ps)[1..] == ps;
  }

  /** Prefixing the first part with a character prefixes the joined text with it. */
  lemma JoinHead(c: char, ps: seq<string>, sep: char)
    requires |ps| >= 1
    ensures Join([[c] + ps[0]] + ps[1..], sep) == [c] + Join(ps, sep)
  {
    if |ps| > 1 {
      JoinCons([c] + ps[0], ps[1..], sep);
      JoinCons(ps[0], ps[1..], sep);
      assert ps == [ps[0]] + ps[1..];
    }
  }

  /** Joining the parts of a split with the same separator gives back the text. */
  lemma {:induction false} SplitJoin(s: string, sep: char)
    ensures Join(Split(s, sep), sep) == s
  {
    if s != [] {
      var rest := Split(s[1..], sep);
      SplitJoin(s[1..], sep);
      if s[0] == sep {
        JoinCons([], rest, sep);
      } else {
        JoinHead(s[0], rest, sep);
      }
      assert s == [s[0]] + s[1..];
    }
  }

  /** A text splits into one more part than it has separators, so `sep in s` exactly when it splits in two or more. */
  lemma {:induction false} SplitMany(s: string, sep: char)
    ensures |Split(s, sep)| > 1 <==> sep in s
  {
    if s != [] {
      SplitMany(s[1..], sep);
    }
  }

  /** `s.replace(pat, "")`: occurrences are removed left to right without overlapping. */
  function RemoveAll(s: string, pat: string): (r: string)
    requires pat != []
    ensures |r| <= |s|
  {
    if |s| < |pat| then s
    else if s[..|pat|] == pat then RemoveAll(s[|pat|..], pat)
    else [s[0]] + RemoveAll(s[1..], pat)
  }

  /** Removal changes the text exactly when the pattern occurs in it. */
  lemma {:induction false} RemoveAllUnchanged(s: string, pat: string)
    requires pat != []
    ensures RemoveAll(s, pat) == s <==> !Contains(s, pat)
    decreases |s|
  {
    if |s| < |pat| {
      NotContainsShort(s, pat);
    } else if s[..|pat|] == pat {
      assert |RemoveAll(s[|pat|..], pat)| < |s|;
    } else {
      RemoveAllUnchanged(s[1..], pat);
      assert !StartsWith(s, pat);
      var t := RemoveAll(s[1..], pat);
      assert RemoveAll(s, pat) == [s[0]] + t;
      assert [s[0]] + t == s <==> t == s[1..] by {
        if [s[0]] + t == s { assert t == ([s[0]] + t)[1..]; }
        if t == s[1..] { assert s == [s[0]] + s[1..]; }
      }
    }
  }

  lemma {:induction false} NotContainsShort(s: string, pat: string)
    requires |s| < |pat|
    ensures !Contains(s, pat)
    decreases |s|
  {
    if s != [] {
      NotContainsShort(s[1..], pat);
    }
  }

  /** Removal keeps a prefix in which no occurrence of the pattern starts. */
  lemma {:induction false} RemoveAllSkips(a: string, t: string, pat: string)
    requires pat != []
    requires forall i :: 0 <= i < |a| ==> !StartsWith((a + t)[i..], pat)
    ensures RemoveAll(a + t, pat) == a + RemoveAll(t, pat)
    decreases |a|
  {
    var s := a + t;
    if a == [] {
      assert s == t;
    } else if |s| < |pat| {
      assert RemoveAll(t, pat) == t;
    } else {
      assert s[0..] == s;
      assert !StartsWith(s[0..], pat);
      assert RemoveAll(s, pat) == [a[0]] + RemoveAll(s[1..], pat);
      var rest := a[1..];
      assert s[1..] == rest + t;
      forall i | 0 <= i < |rest|
        ensures !StartsWith((rest + t)[i..], pat)
      {
        assert (rest + t)[i..] == s[i + 1..];
      }
      RemoveAllSkips(rest, t, pat);
      assert a == [a[0]] + rest;
    }
  }

  /** `s.replace(pat, "")` removes the first occurrence and goes on after it: the text before the first occurrence
    * is kept, the occurrence is dropped, and the rest is treated the same way. */
  lemma RemoveAllFirst(a: string, pat: string, b: string)
    requires pat != []
    requires forall i :: 0 <= i < |a| ==> !StartsWith((a + pat + b)[i..], pat)
    ensures RemoveAll(a + pat + b, pat) == a + RemoveAll(b, pat)
  {
    assert a + pat + b == a + (pat + b);
    RemoveAllSkips(a, pat + b, pat);
    assert (pat + b)[..|pat|] == pat;
    assert (pat + b)[|pat|..] == b;
  }

  /** Removing a one-character pattern deletes exactly that character: it no longer occurs, every other character
    * occurs as before, a first character that is not the removed one stays first, and a text without the character
    * is left as it is. */
  lemma {:induction false} RemoveAllChar(s: string, c: char)
    ensures c !in RemoveAll(s, [c])
    ensures forall x :: x != c ==> (x in RemoveAll(s, [c]) <==> x in s)
    ensures s != [] && s[0] != c ==> RemoveAll(s, [c]) != [] && RemoveAll(s, [c])[0] == s[0]
    ensures c !in s ==> RemoveAll(s, [c]) == s
    decreases |s|
  {
    if s != [] {
      RemoveAllChar(s[1..], c);
      assert forall x :: x in s <==> x == s[0] || x in s[1..];
      if s[0] == c {
        assert s[..1] == [c];
        assert RemoveAll(s, [c]) == RemoveAll(s[1..], [c]);
      } else {
        assert s[..1] != [c];
        assert RemoveAll(s, [c]) == [s[0]] + RemoveAll(s[1..], [c]);
        assert s == [s[0]] + s[1..];
      }
    }
  }

  /** Removing a one-character pattern works on each part of a text separately. */
  lemma {:induction false} RemoveAllCharAppend(x: string, y: string, c: char)
    ensures RemoveAll(x + y, [c]) == RemoveAll(x, [c]) + RemoveAll(y, [c])
    decreases |x|
  {
    if x == [] {
      assert x + y == y;
    } else {
      var s := x + y;
      assert s[0] == x[0] && s[1..] == x[1..] + y;
      assert s[..1] == [x[0]] && x[..1] == [x[0]];
      RemoveAllCharAppend(x[1..], y, c);
    }
  }

  /** `s.lower()` on ASCII letters; other characters are left as they are. */
  function AsciiLower(s: string): (r: string)
    ensures |r| == |s|
    ensures forall i :: 0 <= i < |s| ==> r[i] == LowerChar(s[i])
  {
    if s == [] then [] else [LowerChar(s[0])] + AsciiLower(s[1..])
  }

  function LowerChar(c: char): char
  {
    if 'A' <= c <= 'Z' then (c as int + 32) as char else c
  }
}
