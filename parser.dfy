/** The rule-based structural extractor (`parse_html_to_json`): the relevant tags of a page's content region,
  * in document order, are folded into intro paragraphs and h2-headed sections of blocks. */
module Parser {

  import opened Wrappers
  import opened Text
  import opened Json

  /** The tags the extractor looks at inside the content region. */
  datatype TagName = H2 | H3 | P | Blockquote | Ul | Ol

  /** One relevant tag: its `get_text()` and, for a list, the `get_text()` of each `li` it contains. */
  datatype Element = Element(tag: TagName, text: string, items: seq<string>)

  /** What the extractor reads of a parsed page once `nav`, `footer`, `header`, `script`, `style`, `aside`
    * and `form` are removed: the `title` and first `h1` strings (`None` when the tag or its single string
    * is missing), the `content` of the description `meta` tag, and the relevant tags of `main` and of `body`
    * when those are present. */
  datatype Document = Document(
    title: Option<string>,
    h1: Option<string>,
    metaContent: Option<string>,
    main: Option<seq<Element>>,
    body: Option<seq<Element>>)

  /** A content block of a section. */
  datatype Block = Paragraph(text: string) | ListBlock(items: seq<string>) | Subheading(text: string)

  datatype Section = Section(heading: string, blocks: seq<Block>)

  /** The two shapes of the returned dictionary: the page data, or the error record. */
  datatype PageResult =
    | PageData(url: string, pageTitle: string, metaDescription: string, h1: string,
               intro: seq<string>, sections: seq<Section>)
    | ParseError(url: string, error: string)

  const FailurePrefix := "Rule-based parser failed unexpectedly: "

  /** A text the extractor keeps: one that is not empty once cleaned. */
  predicate Visible(t: string)
  {
    t != []
  }

  /** A block as the extractor emits it: visible text, and a list with at least one item, each visible. */
  predicate WellFormed(b: Block)
  {
    match b
    case Paragraph(t) => Visible(t)
    case Subheading(t) => Visible(t)
    case ListBlock(items) => items != [] && forall k :: 0 <= k < |items| ==> Visible(items[k])
  }

  /** Every text in the block is normalised. */
  predicate NormalizedBlock(b: Block)
  {
    match b
    case Paragraph(t) => Normalized(t)
    case Subheading(t) => Normalized(t)
    case ListBlock(items) => forall k :: 0 <= k < |items| ==> Normalized(items[k])
  }

  /** `clean` yields normalised text only, as `_clean_text` does (see `Text.CleanText`). */
  ghost predicate Normalizes(clean: string -> string)
  {
    forall s :: Normalized(clean(s))
  }

  /** The empty sequence, or the one value present. */
  function Opt<T>(o: Option<T>): (r: seq<T>)
    ensures |r| <= 1
  {
    if o.Some? then [o.value] else []
  }

  // The text functions below take the cleaning function `clean` as a parameter; the extractor passes
  // `Text.CleanText`, the `_clean_text` helper.

  /** The cleaned text, when it is not empty. */
  function CleanedText(clean: string -> string, t: string): (r: Option<string>)
    ensures r.Some? ==> Visible(r.value) && r.value == clean(t)
    ensures r.None? <==> clean(t) == []
  {
    var c := clean(t);
    if c != [] then Some(c) else None
  }

  /** The cleaned `li` texts of a list that are not empty, in order. */
  function ListItems(clean: string -> string, items: seq<string>): (r: seq<string>)
    ensures forall k :: 0 <= k < |r| ==> Visible(r[k])
    ensures |r| <= |items|
  {
    if items == [] then [] else Opt(CleanedText(clean, items[0])) + ListItems(clean, items[1..])
  }

  /** The items of two runs of `li` texts are the items of the first run followed by those of the second. */
  lemma {:induction false} ListItemsAppend(clean: string -> string, a: seq<string>, b: seq<string>)
    ensures ListItems(clean, a + b) == ListItems(clean, a) + ListItems(clean, b)
    decreases |a|
  {
    if a == [] {
      assert a + b == b;
    } else {
      assert (a + b)[0] == a[0];
      assert (a + b)[1..] == a[1..] + b;
      ListItemsAppend(clean, a[1..], b);
    }
  }

  /** One `li` gives its cleaned text when that is not empty, and nothing otherwise. */
  lemma ListItemsOne(clean: string -> string, t: string)
    ensures ListItems(clean, [t]) == if clean(t) != [] then [clean(t)] else []
  {
    assert [t][1..] == [];
  }

  /** A list yields items exactly when some `li` has visible text once cleaned. */
  lemma {:induction false} ListItemsEmpty(clean: string -> string, items: seq<string>)
    ensures ListItems(clean, items) != [] <==> exists i :: 0 <= i < |items| && clean(items[i]) != []
    decreases |items|
  {
    if items != [] {
      ListItemsEmpty(clean, items[1..]);
      if exists i :: 0 <= i < |items[1..]| && clean(items[1..][i]) != [] {
        var i :| 0 <= i < |items[1..]| && clean(items[1..][i]) != [];
        assert clean(items[i + 1]) != [];
      }
      if exists i :: 0 <= i < |items| && clean(items[i]) != [] {
        var i :| 0 <= i < |items| && clean(items[i]) != [];
        if i > 0 {
          assert clean(items[1..][i - 1]) != [];
        }
      }
    }
  }

  /** The block a non-h2 tag contributes to the open section, if any: p and blockquote give a paragraph,
    * ul and ol a list, h3 a subheading, each only when there is visible text. */
  function BlockOf(clean: string -> string, e: Element): (r: Option<Block>)
    ensures r.Some? ==> WellFormed(r.value)
    ensures r.Some? && r.value.Paragraph? ==> e.tag in {P, Blockquote} && r.value.text == clean(e.text)
    ensures r.Some? && r.value.ListBlock? ==> e.tag in {Ul, Ol} && r.value.items == ListItems(clean, e.items)
    ensures r.Some? && r.value.Subheading? ==> e.tag == H3 && r.value.text == clean(e.text)
    ensures r.None? <==> e.tag == H2 || (e.tag in {Ul, Ol} && ListItems(clean, e.items) == [])
                         || (e.tag in {P, Blockquote, H3} && clean(e.text) == [])
  {
    match e.tag
    case P => if clean(e.text) != [] then Some(Paragraph(clean(e.text))) else None
    case Blockquote => if clean(e.text) != [] then Some(Paragraph(clean(e.text))) else None
    case Ul => var items := ListItems(clean, e.items); if items != [] then Some(ListBlock(items)) else None
    case Ol => var items := ListItems(clean, e.items); if items != [] then Some(ListBlock(items)) else None
    case H3 => if clean(e.text) != [] then Some(Subheading(clean(e.text))) else None
    case H2 => None
  }

  /** The blocks a run of non-h2 tags contributes, in document order. */
  function Blocks(clean: string -> string, es: seq<Element>): (r: seq<Block>)
    ensures forall k :: 0 <= k < |r| ==> WellFormed(r[k])
    ensures |r| <= |es|
  {
    if es == [] then [] else Blocks(clean, es[..|es| - 1]) + Opt(BlockOf(clean, es[|es| - 1]))
  }

  /** The visible cleaned texts of a run of tags, in document order. */
  function IntroTexts(clean: string -> string, es: seq<Element>): (r: seq<string>)
    ensures forall k :: 0 <= k < |r| ==> Visible(r[k])
    ensures |r| <= |es|
  {
    if es == [] then [] else IntroTexts(clean, es[..|es| - 1]) + Opt(CleanedText(clean, es[|es| - 1].text))
  }

  /** The index of the first h2 tag, or the length when there is none. */
  function FirstH2(es: seq<Element>): (k: nat)
    ensures k <= |es|
    ensures k < |es| ==> es[k].tag == H2
  {
    if es == [] || es[0].tag == H2 then 0 else 1 + FirstH2(es[1..])
  }

  /** No tag before the first h2 is an h2. */
  lemma {:induction false} BeforeFirstH2(es: seq<Element>)
    ensures forall i :: 0 <= i < FirstH2(es) ==> es[i].tag != H2
    decreases |es|
  {
    if es != [] && es[0].tag != H2 {
      BeforeFirstH2(es[1..]);
      assert forall i :: 1 <= i < FirstH2(es) ==> es[i] == es[1..][i - 1];
    }
  }

  /** A run without h2 tags has its first h2 at its end. */
  lemma {:induction false} FirstH2Free(es: seq<Element>)
    requires forall i :: 0 <= i < |es| ==> es[i].tag != H2
    ensures FirstH2(es) == |es|
    decreases |es|
  {
    if es != [] {
      FirstH2Free(es[1..]);
    }
  }

  /** The tags before the first h2 hold no h2. */
  lemma {:induction false} FirstH2Prefix(es: seq<Element>)
    ensures FirstH2(es[..FirstH2(es)]) == FirstH2(es)
  {
    var k := FirstH2(es);
    BeforeFirstH2(es);
    assert forall i :: 0 <= i < k ==> es[..k][i] == es[i];
    FirstH2Free(es[..k]);
  }

  /** The number of h2 tags. */
  function CountH2(es: seq<Element>): nat
  {
    if es == [] then 0 else (if es[0].tag == H2 then 1 else 0) + CountH2(es[1..])
  }

  /** The intro: the visible texts of the tags before the first h2. */
  function Intro(clean: string -> string, es: seq<Element>): (r: seq<string>)
    ensures forall k :: 0 <= k < |r| ==> Visible(r[k])
    ensures |r| <= FirstH2(es)
  {
    IntroTexts(clean, es[..FirstH2(es)])
  }

  /** An h2 tag and the tags after it up to the next h2. */
  datatype Piece = Piece(head: Element, body: seq<Element>)

  /** A run cut before every h2 that is not its first tag: each piece is a tag and the tags that follow it
    * up to the next h2. */
  function Pieces(es: seq<Element>): seq<Piece>
    decreases |es|
  {
    if es == [] then []
    else
      var j := 1 + FirstH2(es[1..]);
      [Piece(es[0], es[1..j])] + Pieces(es[j..])
  }

  /** The tags of the pieces put back together in order. */
  function Flatten(ps: seq<Piece>): seq<Element>
  {
    if ps == [] then [] else [ps[0].head] + ps[0].body + Flatten(ps[1..])
  }

  /** The section of a piece: headed by the cleaned text of its h2, holding the blocks of the tags after it. */
  function SectionOf(clean: string -> string, p: Piece): Section
  {
    Section(clean(p.head.text), Blocks(clean, p.body))
  }

  function SectionsOf(clean: string -> string, ps: seq<Piece>): (r: seq<Section>)
    ensures |r| == |ps|
  {
    if ps == [] then [] else SectionsOf(clean, ps[..|ps| - 1]) + [SectionOf(clean, ps[|ps| - 1])]
  }

  /** One section per h2, in order, empty ones included; the tags before the first h2 take no part. */
  function AllSections(clean: string -> string, es: seq<Element>): seq<Section>
  {
    SectionsOf(clean, Pieces(es[FirstH2(es)..]))
  }

  /** The sections with the last one removed when it has no blocks. */
  function DropEmptyLast(cs: seq<Section>): seq<Section>
  {
    if cs != [] && cs[|cs| - 1].blocks == [] then cs[..|cs| - 1] else cs
  }

  /** The `content_structure` of a page whose content region holds the tags `es`. */
  function Sections(clean: string -> string, es: seq<Element>): (r: seq<Section>)
    ensures var all := AllSections(clean, es);
      && |all| - 1 <= |r| <= |all| && r == all[..|r|]
      && (|r| < |all| ==> all[|all| - 1].blocks == [])
  {
    DropEmptyLast(AllSections(clean, es))
  }

  /** The region the extractor walks: `main` when the page has one, `body` otherwise. */
  function ContentTags(doc: Document): Option<seq<Element>>
  {
    if doc.main.Some? then doc.main else doc.body
  }

  /** The dictionary `parse_html_to_json` returns; an `Err` document is any exception raised while parsing. */
  function ExpectedPage(html: Result<Document>, url: string): (r: PageResult)
    ensures r.url == url
    ensures r.ParseError? <==> html.Err?
    ensures html.Err? ==> r.error == FailurePrefix + html.error
    ensures r.PageData? ==> Normalized(r.pageTitle) && Normalized(r.metaDescription) && Normalized(r.h1)
    ensures r.PageData? && ContentTags(html.value).None? ==> r.intro == [] && r.sections == []
  {
    match html
    case Err(e) => ParseError(url, FailurePrefix + e)
    case Ok(doc) =>
      var tags := ContentTags(doc);
      PageData(url, CleanOptional(doc.title), CleanOptional(doc.metaContent), CleanOptional(doc.h1),
               if tags.Some? then Intro(CleanText, tags.value) else [],
               if tags.Some? then Sections(CleanText, tags.value) else [])
  }

  /** `parse_html_to_json`: one pass over the relevant tags with an open section and an h2 flag. */
  method ParseHtmlToJson(html: Result<Document>, url: string) returns (r: PageResult)
    ensures r == ExpectedPage(html, url)
  {
    if html.Err? {
      return ParseError(url, FailurePrefix + html.error);
    }
    var doc := html.value;
    var pageTitle := CleanOptional(doc.title);
    var h1 := CleanOptional(doc.h1);
    var metaDescription := CleanOptional(doc.metaContent);
    var region := if doc.main.Some? then doc.main else doc.body;
    if region.None? {
      return PageData(url, pageTitle, metaDescription, h1, [], []);
    }
    var tags := region.value;
    var intro: seq<string> := [];
    var content: seq<Section> := [];
    var current: Option<Section> := None;
    var seenH2 := false;
    for i := 0 to |tags|
      invariant Walk(seenH2, current, intro, content) == Walked(CleanText, tags[..i])
    {
      var tag := tags[i];
      PrefixStep(tags, i);
      WalkedStep(CleanText, tags[..i], tag);
      if tag.tag == H2 {
        seenH2 := true;
        if current.Some? {
          content := content + [current.value];
        }
        current := Some(Section(CleanText(tag.text), []));
        continue;
      }
      if !seenH2 {
        var introText := CleanText(tag.text);
        if introText != [] {
          intro := intro + [introText];
        }
        continue;
      }
      if current.None? {
        current := Some(Section("", []));
      }
      var block := BlockOf(CleanText, tag);
      if block.Some? {
        current := Some(current.value.(blocks := current.value.blocks + [block.value]));
      }
    }
    assert tags[..|tags|] == tags;
    WalkedResult(CleanText, tags);
    if current.Some? && current.value.blocks != [] {
      content := content + [current.value];
    }
    r := PageData(url, pageTitle, metaDescription, h1, intro, content);
  }

  /** The state of the pass over the tags: whether an h2 was seen, the open section, the intro texts and the
    * closed sections. */
  datatype Walk = Walk(seenH2: bool, current: Option<Section>, intro: seq<string>, content: seq<Section>)

  /** One step of the pass. An h2 closes the open section, if any, and opens its own; before the first h2 a
    * tag adds its visible text to the intro; after it a tag adds its block, if any, to the open section,
    * which is first opened without a heading when there is none. */
  function WalkStep(clean: string -> string, w: Walk, e: Element): Walk
  {
    if e.tag == H2 then
      var closed := if w.current.Some? then w.content + [w.current.value] else w.content;
      Walk(true, Some(Section(clean(e.text), [])), w.intro, closed)
    else if !w.seenH2 then
      var t := CleanedText(clean, e.text);
      if t.Some? then w.(intro := w.intro + [t.value]) else w
    else
      var open := if w.current.Some? then w.current.value else Section("", []);
      var b := BlockOf(clean, e);
      w.(current := Some(if b.Some? then open.(blocks := open.blocks + [b.value]) else open))
  }

  /** The state after the pass over `es`. */
  function Walked(clean: string -> string, es: seq<Element>): Walk
  {
    if es == [] then Walk(false, None, [], []) else WalkStep(clean, Walked(clean, es[..|es| - 1]), es[|es| - 1])
  }

  lemma {:induction false} WalkedStep(clean: string -> string, es: seq<Element>, e: Element)
    ensures Walked(clean, es + [e]) == WalkStep(clean, Walked(clean, es), e)
  {
    assert (es + [e])[..|es|] == es;
  }

  /** The state after the tags `es` agrees with the page's structure so far: the h2 flag is set once an h2
    * was seen, a section is open from then on, the intro holds the visible texts before the first h2, and the
    * closed sections followed by the open one are all the sections so far. */
  predicate Agrees(clean: string -> string, es: seq<Element>, w: Walk)
  {
    && (w.seenH2 <==> FirstH2(es) < |es|)
    && (w.current.Some? <==> w.seenH2)
    && w.intro == Intro(clean, es)
    && (if w.seenH2 then w.content + [w.current.value] == AllSections(clean, es) else w.content == [])
  }

  /** An h2 closes the open section, if any, and opens a new one. */
  lemma {:induction false} AgreesH2(clean: string -> string, es: seq<Element>, e: Element, w: Walk)
    requires Agrees(clean, es, w) && e.tag == H2
    ensures Agrees(clean, es + [e], WalkStep(clean, w, e))
  {
    FirstH2Step(es, e);
    IntroStep(clean, es, e);
    AllSectionsStep(clean, es, e);
  }

  /** Before the first h2 a tag adds its visible text to the intro. */
  lemma {:induction false} AgreesIntro(clean: string -> string, es: seq<Element>, e: Element, w: Walk)
    requires Agrees(clean, es, w) && e.tag != H2 && !w.seenH2
    ensures Agrees(clean, es + [e], WalkStep(clean, w, e))
  {
    FirstH2Step(es, e);
    IntroStep(clean, es, e);
  }

  /** After an h2 a tag adds its block, if any, to the open section. */
  lemma {:induction false} AgreesBlock(clean: string -> string, es: seq<Element>, e: Element, w: Walk)
    requires Agrees(clean, es, w) && e.tag != H2 && w.seenH2
    ensures Agrees(clean, es + [e], WalkStep(clean, w, e))
  {
    FirstH2Step(es, e);
    IntroStep(clean, es, e);
    AllSectionsStep(clean, es, e);
    var all := AllSections(clean, es);
    assert all[..|all| - 1] == w.content;
    var open := w.current.value;
    var b := BlockOf(clean, e);
    if b.None? {
      assert open.blocks + Opt(b) == open.blocks;
    }
    assert WalkStep(clean, w, e).current == Some(open.(blocks := open.blocks + Opt(b)));
  }

  /** The pass keeps to the page's structure; in particular a section is open whenever an h2 has been seen,
    * so the fallback that opens a section without a heading never fires. */
  lemma {:induction false} WalkedAgrees(clean: string -> string, es: seq<Element>)
    ensures Agrees(clean, es, Walked(clean, es))
    decreases |es|
  {
    if es != [] {
      var init, e := es[..|es| - 1], es[|es| - 1];
      assert es == init + [e];
      WalkedAgrees(clean, init);
      var w := Walked(clean, init);
      if e.tag == H2 {
        AgreesH2(clean, init, e, w);
      } else if !w.seenH2 {
        AgreesIntro(clean, init, e, w);
      } else {
        AgreesBlock(clean, init, e, w);
      }
    }
  }

  /** After the last tag the intro, and the closed sections with the open one added when it has blocks, are
    * the page's intro and sections. */
  lemma {:induction false} WalkedResult(clean: string -> string, es: seq<Element>)
    ensures Walked(clean, es).intro == Intro(clean, es)
    ensures var w := Walked(clean, es);
            (if w.current.Some? && w.current.value.blocks != [] then w.content + [w.current.value] else w.content)
            == Sections(clean, es)
  {
    WalkedAgrees(clean, es);
    var w := Walked(clean, es);
    if w.current.Some? {
      var all := w.content + [w.current.value];
      assert all[..|all| - 1] == w.content;
    }
  }

  lemma {:induction false} PrefixStep(es: seq<Element>, i: nat)
    requires i < |es|
    ensures es[..i + 1] == es[..i] + [es[i]]
  {
  }

  /** A tag appended at the end is the first h2 only when there was none before it. */
  lemma {:induction false} FirstH2Step(es: seq<Element>, e: Element)
    ensures FirstH2(es + [e]) ==
            if FirstH2(es) < |es| then FirstH2(es) else if e.tag == H2 then |es| else |es| + 1
    decreases |es|
  {
    if es == [] {
      assert [e][1..] == [];
    } else if es[0].tag != H2 {
      assert (es + [e])[1..] == es[1..] + [e];
      FirstH2Step(es[1..], e);
    }
  }

  /** The intro grows by a tag's visible text only while no h2 has been seen. */
  lemma {:induction false} IntroStep(clean: string -> string, es: seq<Element>, e: Element)
    ensures Intro(clean, es + [e]) ==
            if FirstH2(es) == |es| && e.tag != H2 then Intro(clean, es) + Opt(CleanedText(clean, e.text)) else Intro(clean, es)
  {
    FirstH2Step(es, e);
    var es' := es + [e];
    var k := FirstH2(es);
    if k == |es| && e.tag != H2 {
      assert es'[..|es'|] == es';
      assert es'[..|es'| - 1] == es[..k];
    } else {
      assert es'[..k] == es[..k];
    }
  }

  /** The blocks of a run grow by the block of a tag appended at the end. */
  lemma {:induction false} BlocksStep(clean: string -> string, es: seq<Element>, e: Element)
    ensures Blocks(clean, es + [e]) == Blocks(clean, es) + Opt(BlockOf(clean, e))
  {
    assert (es + [e])[..|es|] == es;
  }

  /** `cs` with the blocks `bs` added to its last section. */
  function AppendToLast(cs: seq<Section>, bs: seq<Block>): seq<Section>
    requires cs != []
  {
    var last := cs[|cs| - 1];
    cs[..|cs| - 1] + [last.(blocks := last.blocks + bs)]
  }

  /** `ps` with the tag `e` added to the body of its last piece. */
  function ExtendLast(ps: seq<Piece>, e: Element): seq<Piece>
    requires ps != []
  {
    var last := ps[|ps| - 1];
    ps[..|ps| - 1] + [last.(body := last.body + [e])]
  }

  /** Extending the last piece does not touch the pieces before it. */
  lemma {:induction false} ExtendLastCons(first: Piece, rest: seq<Piece>, e: Element)
    requires rest != []
    ensures ExtendLast([first] + rest, e) == [first] + ExtendLast(rest, e)
  {
    var ps := [first] + rest;
    assert ps[..|ps| - 1] == [first] + rest[..|rest| - 1];
  }

  lemma {:induction false} PiecesOne(e: Element)
    ensures Pieces([e]) == [Piece(e, [])]
  {
    assert [e] == [e] + [] + [];
    PiecesCons(e, [], []);
  }

  /** A run with no h2 before `b`, and `b` empty or starting with an h2, has its first h2 at `b`. */
  lemma {:induction false} FirstH2Concat(a: seq<Element>, b: seq<Element>)
    requires FirstH2(a) == |a| && (b == [] || b[0].tag == H2)
    ensures FirstH2(a + b) == |a|
    decreases |a|
  {
    if a == [] {
      assert a + b == b;
    } else {
      assert (a + b)[1..] == a[1..] + b;
      FirstH2Concat(a[1..], b);
    }
  }

  /** A tag, the h2-free run after it and a rest starting at the next h2: the first piece, then the pieces
    * of the rest. */
  lemma {:induction false} PiecesCons(h: Element, body: seq<Element>, rest: seq<Element>)
    requires FirstH2(body) == |body| && (rest == [] || rest[0].tag == H2)
    ensures Pieces([h] + body + rest) == [Piece(h, body)] + Pieces(rest)
  {
    var s := [h] + body + rest;
    assert s[1..] == body + rest;
    FirstH2Concat(body, rest);
    assert s[1..1 + |body|] == body;
    assert s[1 + |body|..] == rest;
  }

  /** The cut step: an appended h2, or the first tag of all, starts a new piece; any other tag joins the
    * last piece. */
  lemma {:induction false} PiecesStep(es: seq<Element>, e: Element)
    ensures es != [] ==> Pieces(es) != []
    ensures Pieces(es + [e]) ==
            if es == [] || e.tag == H2 then Pieces(es) + [Piece(e, [])] else ExtendLast(Pieces(es), e)
    decreases |es|, 1
  {
    if es == [] {
      assert es + [e] == [e];
      PiecesOne(e);
    } else if 1 + FirstH2(es[1..]) < |es| {
      var j := 1 + FirstH2(es[1..]);
      assert es[1..][..j - 1] == es[1..j];
      FirstH2Prefix(es[1..]);
      assert es == [es[0]] + es[1..j] + es[j..];
      PiecesStepCons(es[0], es[1..j], es[j..], e);
    } else if e.tag == H2 {
      PiecesStepLastH2(es, e);
    } else {
      PiecesStepLastOther(es, e);
    }
  }

  /** The step on a run that holds a second h2: the first piece stays, the rest takes the step. */
  lemma {:induction false} PiecesStepCons(h: Element, body: seq<Element>, rest: seq<Element>, e: Element)
    requires FirstH2(body) == |body| && rest != [] && rest[0].tag == H2
    ensures Pieces([h] + body + rest) != []
    ensures Pieces([h] + body + rest + [e]) ==
            if e.tag == H2 then Pieces([h] + body + rest) + [Piece(e, [])] else ExtendLast(Pieces([h] + body + rest), e)
    decreases 1 + |body| + |rest|, 0
  {
    var first := Piece(h, body);
    var s := [h] + body + rest;
    var ps := Pieces(rest);
    assert Pieces(s) == [first] + ps by {
      PiecesCons(h, body, rest);
    }
    assert Pieces(s + [e]) == [first] + Pieces(rest + [e]) by {
      assert s + [e] == [h] + body + (rest + [e]);
      PiecesCons(h, body, rest + [e]);
    }
    assert ps != [] && Pieces(rest + [e]) == if e.tag == H2 then ps + [Piece(e, [])] else ExtendLast(ps, e) by {
      PiecesStep(rest, e);
    }
    if e.tag == H2 {
      assert [first] + (ps + [Piece(e, [])]) == ([first] + ps) + [Piece(e, [])];
    } else {
      ExtendLastCons(first, ps, e);
    }
  }

  /** An h2 appended to a run without a second h2 starts the second piece. */
  lemma {:induction false} PiecesStepLastH2(es: seq<Element>, e: Element)
    requires es != [] && 1 + FirstH2(es[1..]) == |es| && e.tag == H2
    ensures Pieces(es + [e]) == Pieces(es) + [Piece(e, [])]
  {
    var body := es[1..];
    assert es == [es[0]] + body + [];
    PiecesCons(es[0], body, []);
    assert es + [e] == [es[0]] + body + [e];
    PiecesCons(es[0], body, [e]);
    PiecesOne(e);
  }

  /** Any other tag appended to a run without a second h2 joins its only piece. */
  lemma {:induction false} PiecesStepLastOther(es: seq<Element>, e: Element)
    requires es != [] && 1 + FirstH2(es[1..]) == |es| && e.tag != H2
    ensures Pieces(es + [e]) == ExtendLast(Pieces(es), e)
  {
    var body := es[1..];
    assert es == [es[0]] + body + [];
    PiecesCons(es[0], body, []);
    FirstH2Step(body, e);
    assert es + [e] == [es[0]] + (body + [e]) + [];
    PiecesCons(es[0], body + [e], []);
  }

  lemma {:induction false} SectionsOfAppend(clean: string -> string, ps: seq<Piece>, p: Piece)
    ensures SectionsOf(clean, ps + [p]) == SectionsOf(clean, ps) + [SectionOf(clean, p)]
  {
    assert (ps + [p])[..|ps|] == ps;
  }

  /** Extending the last piece by a tag adds that tag's block, if any, to the last section. */
  lemma {:induction false} SectionsOfExtendLast(clean: string -> string, ps: seq<Piece>, e: Element)
    requires ps != []
    ensures SectionsOf(clean, ExtendLast(ps, e)) == AppendToLast(SectionsOf(clean, ps), Opt(BlockOf(clean, e)))
  {
    var n := |ps|;
    var last := ps[n - 1];
    assert ps == ps[..n - 1] + [last];
    SectionsOfAppend(clean, ps[..n - 1], last);
    SectionsOfAppend(clean, ps[..n - 1], last.(body := last.body + [e]));
    BlocksStep(clean, last.body, e);
  }

  /** The fold step on all sections: an h2 opens a new, empty section; any other tag adds its block, if
    * any, to the last section, and is ignored before the first h2. */
  lemma {:induction false} AllSectionsStep(clean: string -> string, es: seq<Element>, e: Element)
    ensures e.tag == H2 ==> AllSections(clean, es + [e]) == AllSections(clean, es) + [Section(clean(e.text), [])]
    ensures e.tag != H2 && FirstH2(es) == |es| ==> AllSections(clean, es + [e]) == []
    ensures e.tag != H2 && FirstH2(es) < |es| ==>
              AllSections(clean, es) != [] && AllSections(clean, es + [e]) == AppendToLast(AllSections(clean, es), Opt(BlockOf(clean, e)))
  {
    FirstH2Step(es, e);
    var es' := es + [e];
    var k := FirstH2(es);
    if k < |es| {
      assert es'[k..] == es[k..] + [e];
      PiecesStep(es[k..], e);
      if e.tag == H2 {
        SectionsOfAppend(clean, Pieces(es[k..]), Piece(e, []));
      } else {
        SectionsOfExtendLast(clean, Pieces(es[k..]), e);
      }
    } else if e.tag == H2 {
      assert es'[k..] == [e];
      assert es[k..] == [];
      PiecesOne(e);
      SectionsOfAppend(clean, [], Piece(e, []));
    } else {
      assert es'[k + 1..] == [];
    }
  }

  lemma {:induction false} CountH2Append(a: seq<Element>, b: seq<Element>)
    ensures CountH2(a + b) == CountH2(a) + CountH2(b)
    decreases |a|
  {
    if a == [] {
      assert a + b == b;
    } else {
      assert (a + b)[1..] == a[1..] + b;
      CountH2Append(a[1..], b);
    }
  }

  lemma {:induction false} CountH2Free(es: seq<Element>)
    requires forall i :: 0 <= i < |es| ==> es[i].tag != H2
    ensures CountH2(es) == 0
    decreases |es|
  {
    if es != [] {
      CountH2Free(es[1..]);
    }
  }

  /** A run that starts with an h2 has one piece per h2. */
  lemma {:induction false} PiecesCount(es: seq<Element>)
    requires es == [] || es[0].tag == H2
    ensures |Pieces(es)| == CountH2(es)
    decreases |es|
  {
    if es != [] {
      var j := 1 + FirstH2(es[1..]);
      assert es == [es[0]] + es[1..j] + es[j..];
      BeforeFirstH2(es[1..]);
      CountH2Append([es[0]] + es[1..j], es[j..]);
      CountH2Append([es[0]], es[1..j]);
      CountH2Free(es[1..j]);
      PiecesCount(es[j..]);
    }
  }

  /** The first piece of a non-empty run is its first tag and the tags up to the next h2. */
  lemma PiecesFirst(es: seq<Element>) returns (j: nat)
    requires es != []
    ensures 1 <= j <= |es|
    ensures Pieces(es) == [Piece(es[0], es[1..j])] + Pieces(es[j..])
  {
    j := 1 + FirstH2(es[1..]);
  }

  lemma FlattenCons(p: Piece, ps: seq<Piece>)
    ensures Flatten([p] + ps) == [p.head] + p.body + Flatten(ps)
  {
    assert ([p] + ps)[1..] == ps;
  }

  /** The pieces put back together give the run. */
  lemma {:induction false} PiecesFlatten(es: seq<Element>)
    ensures Flatten(Pieces(es)) == es
    decreases |es|
  {
    if es != [] {
      var j := PiecesFirst(es);
      FlattenCons(Piece(es[0], es[1..j]), Pieces(es[j..]));
      PiecesFlatten(es[j..]);
      SplitAround(es, j);
    }
  }

  lemma SplitAround<T>(s: seq<T>, j: nat)
    requires 1 <= j <= |s|
    ensures s == [s[0]] + s[1..j] + s[j..]
  {
    assert s == s[..1] + s[1..j] + s[j..];
  }

  /** In a run that starts with an h2, every piece is headed by an h2 and holds no other h2. */
  lemma {:induction false} PiecesShape(es: seq<Element>)
    requires es == [] || es[0].tag == H2
    ensures forall m :: 0 <= m < |Pieces(es)| ==> Pieces(es)[m].head.tag == H2
    ensures forall m, i :: 0 <= m < |Pieces(es)| && 0 <= i < |Pieces(es)[m].body| ==> Pieces(es)[m].body[i].tag != H2
    decreases |es|
  {
    if es != [] {
      var j := 1 + FirstH2(es[1..]);
      PiecesShape(es[j..]);
      BeforeFirstH2(es[1..]);
      var ps := Pieces(es);
      assert ps == [Piece(es[0], es[1..j])] + Pieces(es[j..]);
      assert forall i :: 0 <= i < j - 1 ==> es[1..j][i] == es[1..][i];
    }
  }

  /** There is one section per h2 before the empty last one is dropped; only that last section can be
    * dropped, so every other section is kept, empty or not, and there are at most as many sections as h2
    * tags. */
  lemma {:induction false} SectionsBound(clean: string -> string, es: seq<Element>)
    ensures |AllSections(clean, es)| == CountH2(es)
    ensures |Sections(clean, es)| <= CountH2(es) <= |Sections(clean, es)| + 1
    ensures forall m :: 0 <= m < |Sections(clean, es)| ==> Sections(clean, es)[m] == AllSections(clean, es)[m]
    ensures |Sections(clean, es)| < CountH2(es) <==> CountH2(es) > 0 && AllSections(clean, es)[CountH2(es) - 1].blocks == []
  {
    var k := FirstH2(es);
    assert es == es[..k] + es[k..];
    CountH2Append(es[..k], es[k..]);
    BeforeFirstH2(es);
    CountH2Free(es[..k]);
    PiecesCount(es[k..]);
  }

  /** Every text of a result is normalised: no leading, trailing or repeated whitespace. */
  predicate NormalizedPage(r: PageResult)
  {
    r.PageData? ==>
      && Normalized(r.pageTitle) && Normalized(r.metaDescription) && Normalized(r.h1)
      && (forall k :: 0 <= k < |r.intro| ==> Normalized(r.intro[k]))
      && (forall m :: 0 <= m < |r.sections| ==> Normalized(r.sections[m].heading))
      && (forall m, k :: 0 <= m < |r.sections| && 0 <= k < |r.sections[m].blocks| ==>
                         NormalizedBlock(r.sections[m].blocks[k]))
  }

  lemma {:induction false} ListItemsNormalized(clean: string -> string, items: seq<string>)
    requires Normalizes(clean)
    ensures forall k :: 0 <= k < |ListItems(clean, items)| ==> Normalized(ListItems(clean, items)[k])
    decreases |items|
  {
    if items != [] {
      ListItemsNormalized(clean, items[1..]);
    }
  }

  lemma {:induction false} BlocksNormalized(clean: string -> string, es: seq<Element>)
    requires Normalizes(clean)
    ensures forall k :: 0 <= k < |Blocks(clean, es)| ==> NormalizedBlock(Blocks(clean, es)[k])
    decreases |es|
  {
    if es != [] {
      BlocksNormalized(clean, es[..|es| - 1]);
      ListItemsNormalized(clean, es[|es| - 1].items);
    }
  }

  lemma {:induction false} IntroTextsNormalized(clean: string -> string, es: seq<Element>)
    requires Normalizes(clean)
    ensures forall k :: 0 <= k < |IntroTexts(clean, es)| ==> Normalized(IntroTexts(clean, es)[k])
    decreases |es|
  {
    if es != [] {
      IntroTextsNormalized(clean, es[..|es| - 1]);
    }
  }

  lemma {:induction false} SectionsOfNormalized(clean: string -> string, ps: seq<Piece>)
    requires Normalizes(clean)
    ensures forall m :: 0 <= m < |ps| ==> Normalized(SectionsOf(clean, ps)[m].heading)
    ensures forall m, k :: 0 <= m < |ps| && 0 <= k < |SectionsOf(clean, ps)[m].blocks| ==>
                           NormalizedBlock(SectionsOf(clean, ps)[m].blocks[k])
    decreases |ps|
  {
    if ps != [] {
      SectionsOfNormalized(clean, ps[..|ps| - 1]);
      BlocksNormalized(clean, ps[|ps| - 1].body);
    }
  }

  lemma {:induction false} SectionsNormalized(clean: string -> string, es: seq<Element>)
    requires Normalizes(clean)
    ensures forall k :: 0 <= k < |Intro(clean, es)| ==> Normalized(Intro(clean, es)[k])
    ensures forall m :: 0 <= m < |Sections(clean, es)| ==> Normalized(Sections(clean, es)[m].heading)
    ensures forall m, k :: 0 <= m < |Sections(clean, es)| && 0 <= k < |Sections(clean, es)[m].blocks| ==>
                           NormalizedBlock(Sections(clean, es)[m].blocks[k])
  {
    IntroTextsNormalized(clean, es[..FirstH2(es)]);
    SectionsOfNormalized(clean, Pieces(es[FirstH2(es)..]));
  }

  /** The extractor's output holds only normalised text, since every text passes through `_clean_text`. */
  lemma PageNormalized(html: Result<Document>, url: string)
    ensures NormalizedPage(ExpectedPage(html, url))
  {
    assert Normalizes(CleanText) by {
      forall s
        ensures Normalized(CleanText(s))
      {
      }
    }
    if html.Ok? && ContentTags(html.value).Some? {
      SectionsNormalized(CleanText, ContentTags(html.value).value);
    }
  }

  /** Every text the extractor keeps is visible: the intro texts are not empty, and each block is well formed
    * (visible text, a list with at least one visible item). */
  predicate VisiblePage(r: PageResult)
  {
    r.PageData? ==>
      && (forall k :: 0 <= k < |r.intro| ==> Visible(r.intro[k]))
      && SectionsWellFormed(r.sections)
  }

  /** Every block of every section is well formed. */
  predicate SectionsWellFormed(cs: seq<Section>)
  {
    forall m, k :: 0 <= m < |cs| && 0 <= k < |cs[m].blocks| ==> WellFormed(cs[m].blocks[k])
  }

  lemma {:induction false} SectionsOfWellFormed(clean: string -> string, ps: seq<Piece>)
    ensures SectionsWellFormed(SectionsOf(clean, ps))
    decreases |ps|
  {
    if ps != [] {
      SectionsOfWellFormed(clean, ps[..|ps| - 1]);
    }
  }

  /** The extractor drops every empty text: no intro text, paragraph, subheading or list item it returns is
    * empty, and no list is empty. */
  lemma PageVisible(html: Result<Document>, url: string)
    ensures VisiblePage(ExpectedPage(html, url))
  {
    if html.Ok? && ContentTags(html.value).Some? {
      var es := ContentTags(html.value).value;
      var all := AllSections(CleanText, es);
      SectionsOfWellFormed(CleanText, Pieces(es[FirstH2(es)..]));
      var cs := Sections(CleanText, es);
      assert cs == all[..|cs|];
      assert SectionsWellFormed(cs) by {
        forall m | 0 <= m < |cs|
          ensures cs[m] == all[m]
        {
        }
      }
      assert ExpectedPage(html, url).sections == cs;
    }
  }

  /** The keys of a successful result. */
  const PageKeys: set<string> :=
    {"url", "page_title", "meta_description", "h1", "intro_content", "content_structure"}

  function StrArray(ts: seq<string>): Json
  {
    JArr(seq(|ts|, k requires 0 <= k < |ts| => JStr(ts[k])))
  }

  function BlockJson(b: Block): Json
  {
    match b
    case Paragraph(t) => JObj(map["type" := JStr("paragraph"), "text" := JStr(t)])
    case ListBlock(items) => JObj(map["type" := JStr("list"), "items" := StrArray(items)])
    case Subheading(t) => JObj(map["type" := JStr("subheading"), "text" := JStr(t)])
  }

  function SectionJson(s: Section): Json
  {
    JObj(map["heading" := JStr(s.heading),
             "content_blocks" := JArr(seq(|s.blocks|, k requires 0 <= k < |s.blocks| => BlockJson(s.blocks[k])))])
  }

  /** The result as the dictionary the worker receives. */
  function PageJson(r: PageResult): (d: Dict)
    ensures "url" in d && d["url"] == JStr(r.url)
    ensures r.PageData? ==> d.Keys == PageKeys
    ensures r.ParseError? ==> d.Keys == {"url", "parsing_error"} && d["parsing_error"] == JStr(r.error)
    ensures "parsing_error" in d <==> r.ParseError?
  {
    match r
    case PageData(url, title, meta, h1, intro, sections) =>
      map["url" := JStr(url), "page_title" := JStr(title), "meta_description" := JStr(meta), "h1" := JStr(h1),
          "intro_content" := StrArray(intro),
          "content_structure" := JArr(seq(|sections|, k requires 0 <= k < |sections| => SectionJson(sections[k])))]
    case ParseError(url, error) => map["url" := JStr(url), "parsing_error" := JStr(error)]
  }
}
