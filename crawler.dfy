/** The breadth-first site crawler of `app/core/crawler.py`.
  * The robots.txt policy and the HTTP fetch with its HTML parse are oracles passed in as functions. */
module Crawler {

  import opened Wrappers
  import opened Text
  import opened UrlParse
  import opened StringOrder

  /** `settings.MAX_PAGES_TO_CRAWL` (config.py). */
  const MaxPagesToCrawl: int := 50

  /** What fetching one page gives the crawler: a failed request (transport error or an error status),
    * a response that is not `text/html`, or the anchors of an HTML page, already made absolute by `urljoin`. */
  datatype FetchResult = FetchFailed | NotHtml | Html(hrefs: seq<string>)

  /** `get_base_domain(url)`: the base domain of the netloc, and "" when `urlparse` raises. */
  function GetBaseDomain(url: string): string
  {
    match Parse(url)
    case None => ""
    case Some(u) => LastTwoLabels(u.netloc)
  }

  /** A URL `urlparse` rejects has no base domain; otherwise the base domain is a suffix of the netloc that starts at
    * a label boundary. */
  lemma GetBaseDomainSpec(url: string)
    ensures Parse(url).None? ==> GetBaseDomain(url) == []
    ensures Parse(url).Some? ==> LabelSuffix(Parse(url).value.netloc, GetBaseDomain(url))
  {
    if Parse(url).Some? {
      LastTwoLabelsIsSuffix(Parse(url).value.netloc);
    }
  }

  /** `d` ends `netloc` and starts at a label boundary: at the start of `netloc` or right after a dot. */
  predicate LabelSuffix(netloc: string, d: string)
  {
    EndsWith(netloc, d) && (|d| == |netloc| || netloc[|netloc| - |d| - 1] == '.')
  }

  /** The last two dot-separated labels of a netloc, or the netloc itself when it has no dot. */
  function LastTwoLabels(netloc: string): string
  {
    var labels := Split(netloc, '.');
    if |labels| >= 2 then labels[|labels| - 2] + "." + labels[|labels| - 1] else netloc
  }

  /** `normalize_url(url)`: drops one trailing '/'. The result is a prefix of the URL that lacks at most its
    * last character, and that only when it is a '/'. */
  function NormalizeUrl(url: string): (r: string)
  {
    if EndsWith(url, "/") then url[..|url| - 1] else url
  }

  /** The base domain is a suffix of the netloc that starts at a label boundary: two dot-free labels joined by
    * one dot, preceded by a dot or by nothing, when the netloc has a dot, and the whole netloc otherwise. */
  lemma LastTwoLabelsIsSuffix(netloc: string)
    ensures var d := LastTwoLabels(netloc);
      && LabelSuffix(netloc, d)
      && ('.' in netloc ==> exists a, b :: d == a + "." + b && '.' !in a && '.' !in b)
      && ('.' !in netloc ==> d == netloc)
  {
    var labels := Split(netloc, '.');
    SplitMany(netloc, '.');
    SplitJoin(netloc, '.');
    if |labels| >= 2 {
      JoinEndsWithLastTwo(labels, '.');
      if |labels| == 2 {
        JoinTwo(labels, '.');
      } else {
        JoinBeforeLastTwo(labels, '.');
      }
      var a, b := labels[|labels| - 2], labels[|labels| - 1];
      assert LastTwoLabels(netloc) == a + "." + b;
    }
  }

  lemma {:induction false} JoinEndsWithLastTwo(parts: seq<string>, sep: char)
    requires |parts| >= 2
    ensures EndsWith(Join(parts, sep), parts[|parts| - 2] + [sep] + parts[|parts| - 1])
  {
    if |parts| > 2 {
      JoinEndsWithLastTwo(parts[1..], sep);
      var tail := Join(parts[1..], sep);
      var x := parts[|parts| - 2] + [sep] + parts[|parts| - 1];
      assert Join(parts, sep) == (parts[0] + [sep]) + tail;
      assert tail[|tail| - |x|..] == x;
      assert Join(parts, sep)[|Join(parts, sep)| - |x|..] == tail[|tail| - |x|..];
    }
  }

  /** A join of two parts is exactly the two parts around the separator. */
  lemma JoinTwo(parts: seq<string>, sep: char)
    requires |parts| == 2
    ensures Join(parts, sep) == parts[0] + [sep] + parts[1]
  {
    assert parts[1..] == [parts[1]];
  }

  /** In a join of three or more parts, a separator comes right before the last two parts. */
  lemma {:induction false} JoinBeforeLastTwo(parts: seq<string>, sep: char)
    requires |parts| > 2
    ensures var j, x := Join(parts, sep), parts[|parts| - 2] + [sep] + parts[|parts| - 1];
      |x| < |j| && j[|j| - |x| - 1] == sep
  {
    var x := parts[|parts| - 2] + [sep] + parts[|parts| - 1];
    var tail := Join(parts[1..], sep);
    var j := Join(parts, sep);
    assert j == (parts[0] + [sep]) + tail;
    if |parts| == 3 {
      JoinTwo(parts[1..], sep);
      assert tail == x;
      assert j[|parts[0]|] == sep;
    } else {
      JoinBeforeLastTwo(parts[1..], sep);
      assert j[|j| - |x| - 1] == tail[|tail| - |x| - 1];
    }
  }

  /** Normalising removes exactly one trailing '/', and touches nothing else. */
  lemma NormalizeUrlDropsOneSlash(url: string)
    ensures EndsWith(url, "/") ==> NormalizeUrl(url) + "/" == url
    ensures !EndsWith(url, "/") ==> NormalizeUrl(url) == url
  {
    if EndsWith(url, "/") {
      assert url == url[..|url| - 1] + "/";
    }
  }

  /** Normalising is not idempotent: of two trailing slashes it removes only one, so "x//" and "x/"
    * are recorded as two different URLs. */
  lemma NormalizeUrlKeepsSecondSlash()
    ensures NormalizeUrl("https://a.com/x//") == "https://a.com/x/"
    ensures NormalizeUrl(NormalizeUrl("https://a.com/x//")) == "https://a.com/x"
  {
  }

  /** How one anchor target is treated: `urlparse` raising aborts the rest of the page; an empty or
    * non-http(s) link is skipped; otherwise the link, without query and fragment, is kept. */
  datatype LinkOutcome = Abort | Skip | Keep(url: string)

  /** The treatment of one absolute anchor target: a target `urlparse` rejects aborts the page, and a kept link
    * is recordable. */
  function CleanLink(absolute: string): (r: LinkOutcome)
    ensures Parse(absolute).None? ==> r.Abort?
    ensures r.Keep? ==> IsRecordable(r.url)
  {
    match Parse(absolute)
    case None => Abort
    case Some(u) =>
      var cleaned := Unparse(u.(query := [], fragment := []));
      UnparseWithoutQuery(u);
      NormalizeUrlKeepsNoQueryMarks(cleaned);
      WebLink(NormalizeUrl(cleaned))
  }

  /** The scheme test on a cleaned link: skipped when empty or not http(s), aborting when it does not parse. */
  function WebLink(link: string): (r: LinkOutcome)
    ensures r.Keep? <==> link != [] && Parse(link).Some? && Parse(link).value.scheme in {"http", "https"}
    ensures r.Keep? ==> r.url == link
    ensures r.Skip? <==> link == [] || (Parse(link).Some? && Parse(link).value.scheme !in {"http", "https"})
    ensures r.Abort? <==> link != [] && Parse(link).None?
  {
    if link == [] then Skip
    else
      match Parse(link)
      case None => Abort
      case Some(v) => if v.scheme == "http" || v.scheme == "https" then Keep(link) else Skip
  }

  /** A link as the crawler records it: non-empty, parsed with scheme http or https, no query, no fragment. */
  predicate IsRecordable(link: string)
  {
    && link != []
    && Parse(link).Some?
    && Parse(link).value.scheme in {"http", "https"}
    && NoQueryMarks(link)
  }

  lemma NormalizeUrlKeepsNoQueryMarks(url: string)
    requires NoQueryMarks(url)
    ensures NoQueryMarks(NormalizeUrl(url))
  {
    var link := NormalizeUrl(url);
    assert link == url[..|link|];
    forall c | c in link ensures c in url {
    }
  }

  /** The links recorded for an HTML page: the kept links in document order, up to the first anchor
    * whose parse raises. */
  function PageLinks(hrefs: seq<string>): (r: seq<string>)
    ensures |r| <= |hrefs|
    ensures forall k :: 0 <= k < |r| ==> IsRecordable(r[k])
  {
    if hrefs == [] then []
    else
      match CleanLink(hrefs[0])
      case Abort => []
      case Skip => PageLinks(hrefs[1..])
      case Keep(link) =>
        var rest := PageLinks(hrefs[1..]);
        assert forall k :: 0 < k <= |rest| ==> ([link] + rest)[k] == rest[k - 1];
        [link] + rest
  }

  /** The internal links among `links`. */
  function InternalLinks(dom: string -> string, links: seq<string>, base: string): set<string>
  {
    if links == [] then {}
    else (if dom(links[0]) == base then {links[0]} else {}) + InternalLinks(dom, links[1..], base)
  }

  /** The external links among `links`. */
  function ExternalLinks(dom: string -> string, links: seq<string>, base: string): set<string>
  {
    if links == [] then {}
    else (if dom(links[0]) != base then {links[0]} else {}) + ExternalLinks(dom, links[1..], base)
  }

  /** The links a page appends to the frontier: each internal link not seen before, once, in order. */
  function Enqueued(dom: string -> string, links: seq<string>, base: string, seen: set<string>): seq<string>
  {
    if links == [] then []
    else if dom(links[0]) == base && links[0] !in seen then
      [links[0]] + Enqueued(dom, links[1..], base, seen + {links[0]})
    else Enqueued(dom, links[1..], base, seen)
  }

  /** Newly enqueued links are distinct, unseen, and together with `seen` cover every internal link. */
  lemma {:induction false} EnqueuedFresh(dom: string -> string, links: seq<string>, base: string, seen: set<string>)
    ensures NoDup(Enqueued(dom, links, base, seen))
    ensures forall x :: x in Enqueued(dom, links, base, seen) ==> x !in seen
    ensures forall x :: x in Enqueued(dom, links, base, seen) || x in seen <==> x in InternalLinks(dom, links, base) || x in seen
  {
    if links != [] {
      var l := links[0];
      if dom(l) == base && l !in seen {
        EnqueuedFresh(dom, links[1..], base, seen + {l});
      } else {
        EnqueuedFresh(dom, links[1..], base, seen);
      }
    }
  }

  predicate NoDup<T(==)>(s: seq<T>)
  {
    forall i, j :: 0 <= i < j < |s| ==> s[i] != s[j]
  }

  /** One anchor's share of the page's recorded links. */
  lemma PageLinksStep(hrefs: seq<string>, i: nat)
    requires i < |hrefs|
    ensures PageLinks(hrefs[i..]) ==
      match CleanLink(hrefs[i])
      case Abort => []
      case Skip => PageLinks(hrefs[i + 1..])
      case Keep(link) => [link] + PageLinks(hrefs[i + 1..])
  {
    assert hrefs[i..][0] == hrefs[i];
    assert hrefs[i..][1..] == hrefs[i + 1..];
  }

  /** One recorded link's share of the visited, external and enqueued links. */
  lemma LinkStep(dom: string -> string, link: string, rest: seq<string>, base: string, seen: set<string>)
    ensures InternalLinks(dom, [link] + rest, base) ==
      (if dom(link) == base then {link} else {}) + InternalLinks(dom, rest, base)
    ensures ExternalLinks(dom, [link] + rest, base) ==
      (if dom(link) != base then {link} else {}) + ExternalLinks(dom, rest, base)
    ensures Enqueued(dom, [link] + rest, base, seen) ==
      if dom(link) == base && link !in seen then [link] + Enqueued(dom, rest, base, seen + {link})
      else Enqueued(dom, rest, base, seen)
  {
    assert ([link] + rest)[0] == link;
    assert ([link] + rest)[1..] == rest;
  }

  /** The body of the anchor loop for a kept link: append it to the page's links, then enqueue it when it is
    * internal and unseen, or add it to the external set when it is external. `dom` maps a link to its
    * domain (the crawler passes `GetBaseDomain`); `rest` stands for the links the page will still record
    * after this one. */
  method RecordLink(dom: string -> string, link: string, ghost rest: seq<string>, base: string,
                    recorded: seq<string>, visited: set<string>, frontier: seq<string>, external: set<string>)
    returns (recorded': seq<string>, visited': set<string>, frontier': seq<string>, external': set<string>)
    ensures recorded' + rest == recorded + ([link] + rest)
    ensures visited' + InternalLinks(dom, rest, base) == visited + InternalLinks(dom, [link] + rest, base)
    ensures external' + ExternalLinks(dom, rest, base) == external + ExternalLinks(dom, [link] + rest, base)
    ensures frontier' + Enqueued(dom, rest, base, visited') == frontier + Enqueued(dom, [link] + rest, base, visited)
  {
    LinkStep(dom, link, rest, base, visited);
    recorded' := recorded + [link];
    assert recorded' + rest == recorded + ([link] + rest);
    visited', frontier', external' := visited, frontier, external;
    if dom(link) == base {
      if link !in visited {
        visited' := visited + {link};
        frontier' := frontier + [link];
        assert frontier' + Enqueued(dom, rest, base, visited') ==
               frontier + ([link] + Enqueued(dom, rest, base, visited + {link}));
      }
    } else {
      external' := external + {link};
    }
  }

  /** The inner loop of the crawler over one page's anchors: records the kept links, adds the unseen
    * internal ones to the visited set and the frontier and the external ones to the external set. */
  method VisitLinks(hrefs: seq<string>, base: string, visited: set<string>, frontier: seq<string>, external: set<string>)
    returns (recorded: seq<string>, visited': set<string>, frontier': seq<string>, external': set<string>)
    ensures recorded == PageLinks(hrefs)
    ensures visited' == visited + InternalLinks(GetBaseDomain, recorded, base)
    ensures external' == external + ExternalLinks(GetBaseDomain, recorded, base)
    ensures frontier' == frontier + Enqueued(GetBaseDomain, recorded, base, visited)
  {
    recorded, visited', frontier', external' := [], visited, frontier, external;
    var i := 0;
    var stop := false;
    assert hrefs[0..] == hrefs;
    ghost var rest := PageLinks(hrefs);
    while i < |hrefs| && !stop
      invariant 0 <= i <= |hrefs|
      invariant rest == if stop then [] else PageLinks(hrefs[i..])
      invariant recorded + rest == PageLinks(hrefs)
      invariant visited' + InternalLinks(GetBaseDomain, rest, base) == visited + InternalLinks(GetBaseDomain, PageLinks(hrefs), base)
      invariant external' + ExternalLinks(GetBaseDomain, rest, base) == external + ExternalLinks(GetBaseDomain, PageLinks(hrefs), base)
      invariant frontier' + Enqueued(GetBaseDomain, rest, base, visited') == frontier + Enqueued(GetBaseDomain, PageLinks(hrefs), base, visited)
      decreases |hrefs| - i, !stop
    {
      PageLinksStep(hrefs, i);
      var outcome := CleanLink(hrefs[i]);
      if outcome.Abort? {
        stop := true;
        rest := [];
      } else if outcome.Skip? {
        i := i + 1;
        rest := PageLinks(hrefs[i..]);
      } else {
        ghost var rest' := PageLinks(hrefs[i + 1..]);
        assert rest == [outcome.url] + rest';
        recorded, visited', frontier', external' :=
          RecordLink(GetBaseDomain, outcome.url, rest', base, recorded, visited', frontier', external');
        i := i + 1;
        rest := rest';
      }
    }
    assert rest == [];
    assert recorded + [] == recorded;
  }

  /** The links `get_url_list_and_map` records for a page it counted. */
  function ExpectedLinks(page: string, crawlLimit: int, fetch: string -> FetchResult): (r: seq<string>)
    ensures crawlLimit == 1 || !fetch(page).Html? ==> r == []
    ensures fetch(page).Html? ==> |r| <= |fetch(page).hrefs|
  {
    if crawlLimit == 1 then []
    else
      match fetch(page)
      case Html(hrefs) => PageLinks(hrefs)
      case _ => []
  }

  /** `u` is among the links recorded for some page of `linkMap`. */
  ghost predicate Discovered(u: string, linkMap: map<string, seq<string>>)
  {
    exists p :: p in linkMap && u in linkMap[p]
  }

  lemma DiscoveredKept(u: string, linkMap: map<string, seq<string>>, page: string, links: seq<string>)
    requires Discovered(u, linkMap) && page !in linkMap
    ensures Discovered(u, linkMap[page := links])
  {
    var p :| p in linkMap && u in linkMap[p];
    assert p in linkMap[page := links] && u in linkMap[page := links][p];
  }

  lemma DiscoveredNew(u: string, linkMap: map<string, seq<string>>, page: string, links: seq<string>)
    requires u in links
    ensures Discovered(u, linkMap[page := links])
  {
    assert page in linkMap[page := links] && u in linkMap[page := links][page];
  }

  /** A link is among the internal (external) links exactly when it is among the links and its base
    * domain is (is not) the crawl's. */
  lemma {:induction false} LinkClassified(dom: string -> string, links: seq<string>, base: string, l: string)
    ensures l in InternalLinks(dom, links, base) <==> l in links && dom(l) == base
    ensures l in ExternalLinks(dom, links, base) <==> l in links && dom(l) != base
  {
    if links != [] {
      LinkClassified(dom, links[1..], base, l);
      assert l in links <==> l == links[0] || l in links[1..];
    }
  }

  /** The work for one counted page: unless it is the only page of a crawl limited to one, fetch it and,
    * when it is HTML, walk its anchors. `fetched` tells whether the fetch oracle was consulted. */
  method CrawlPage(current: string, pageCount: int, crawlLimit: int, base: string, fetch: string -> FetchResult,
                   visited: set<string>, frontier: seq<string>, external: set<string>)
    returns (links: seq<string>, visited': set<string>, frontier': seq<string>, external': set<string>, fetched: bool)
    requires crawlLimit == 1 ==> pageCount == 1
    ensures links == ExpectedLinks(current, crawlLimit, fetch)
    ensures fetched <==> crawlLimit != 1
    ensures visited' == visited + InternalLinks(GetBaseDomain, links, base)
    ensures external' == external + ExternalLinks(GetBaseDomain, links, base)
    ensures frontier' == frontier + Enqueued(GetBaseDomain, links, base, visited)
  {
    links, visited', frontier', external', fetched := [], visited, frontier, external, false;
    if crawlLimit == 1 && pageCount == 1 {
    } else {
      fetched := true;
      match fetch(current)
      case Html(hrefs) =>
        links, visited', frontier', external' := VisitLinks(hrefs, base, visited, frontier, external);
      case _ =>
    }
  }

  /** The frontier is the not yet dequeued part of the enqueue order, which starts with the start URL,
    * holds no URL twice, and holds exactly the visited URLs. */
  ghost predicate QueueInv(start: string, frontier: seq<string>, visited: set<string>,
                           enqueued: seq<string>, dequeued: seq<string>)
  {
    && dequeued + frontier == enqueued
    && NoDup(enqueued) && enqueued != [] && enqueued[0] == start
    && (forall u :: u in enqueued <==> u in visited)
  }

  /** One link-map entry per counted page, for exactly the dequeued URLs the robots policy allows, each
    * holding what the page records; the fetch log lists the counted pages once each unless the crawl is
    * limited to one page. */
  ghost predicate LedgerInv(crawlLimit: int, canFetch: string -> bool, fetch: string -> FetchResult,
                            linkMap: map<string, seq<string>>, pageCount: int, dequeued: seq<string>,
                            fetched: seq<string>)
  {
    && CountInv(crawlLimit, canFetch, linkMap, pageCount, dequeued, fetched)
    && EntriesInv(crawlLimit, fetch, linkMap)
  }

  ghost predicate CountInv(crawlLimit: int, canFetch: string -> bool, linkMap: map<string, seq<string>>,
                           pageCount: int, dequeued: seq<string>, fetched: seq<string>)
  {
    && pageCount == |linkMap| && 0 <= pageCount && (pageCount <= crawlLimit || pageCount == 0)
    && (forall u :: u in linkMap <==> u in dequeued && canFetch(u))
    && NoDup(fetched)
    && (forall u :: u in fetched <==> u in linkMap && crawlLimit != 1)
  }

  ghost predicate EntriesInv(crawlLimit: int, fetch: string -> FetchResult, linkMap: map<string, seq<string>>)
  {
    forall u :: u in linkMap ==> linkMap[u] == ExpectedLinks(u, crawlLimit, fetch)
  }

  /** Every visited URL but the start is an internal link some counted page recorded, every external URL
    * an external one, and every recorded link is in the set its domain calls for. */
  ghost predicate ScopeInv(dom: string -> string, start: string, base: string, visited: set<string>, external: set<string>,
                           linkMap: map<string, seq<string>>)
  {
    && (forall u :: u in visited ==> u == start || (dom(u) == base && Discovered(u, linkMap)))
    && (forall e :: e in external ==> dom(e) != base && Discovered(e, linkMap))
    && LinksPlaced(dom, base, visited, external, linkMap)
  }

  ghost predicate LinksPlaced(dom: string -> string, base: string, visited: set<string>, external: set<string>,
                              linkMap: map<string, seq<string>>)
  {
    forall p, l :: p in linkMap && l in linkMap[p] ==>
      (dom(l) == base ==> l in visited) && (dom(l) != base ==> l in external)
  }

  /** The state of the crawl loop between two iterations. `enqueued` is the order in which URLs entered
    * the frontier, `dequeued` the order in which they left it, `fetched` the pages handed to the fetch. */
  ghost predicate CrawlInv(dom: string -> string, start: string, base: string, crawlLimit: int, canFetch: string -> bool,
                           fetch: string -> FetchResult, frontier: seq<string>, visited: set<string>,
                           external: set<string>, linkMap: map<string, seq<string>>, pageCount: int,
                           enqueued: seq<string>, dequeued: seq<string>, fetched: seq<string>)
  {
    && QueueInv(start, frontier, visited, enqueued, dequeued)
    && LedgerInv(crawlLimit, canFetch, fetch, linkMap, pageCount, dequeued, fetched)
    && ScopeInv(dom, start, base, visited, external, linkMap)
    && OrderInv(dom, start, base, crawlLimit, canFetch, fetch, pageCount, enqueued, dequeued)
  }

  /** The order in which a breadth-first crawl enqueues URLs, given the order `dequeued` in which it took
    * them off the frontier: the start URL first, then for each dequeued URL the robots policy allows, in
    * turn, the internal links its page records that were not enqueued before. */
  function EnqueueOrder(dom: string -> string, start: string, base: string, crawlLimit: int, canFetch: string -> bool,
                        fetch: string -> FetchResult, dequeued: seq<string>): seq<string>
    decreases |dequeued|
  {
    if dequeued == [] then [start]
    else
      var earlier := EnqueueOrder(dom, start, base, crawlLimit, canFetch, fetch, dequeued[..|dequeued| - 1]);
      var page := dequeued[|dequeued| - 1];
      if canFetch(page) then earlier + Enqueued(dom, ExpectedLinks(page, crawlLimit, fetch), base, set u | u in earlier)
      else earlier
  }

  /** The frontier grows in discovery order, and once the budget is spent the last dequeued URL was the
    * page that spent it. */
  ghost predicate OrderInv(dom: string -> string, start: string, base: string, crawlLimit: int, canFetch: string -> bool,
                           fetch: string -> FetchResult, pageCount: int, enqueued: seq<string>, dequeued: seq<string>)
  {
    && enqueued == EnqueueOrder(dom, start, base, crawlLimit, canFetch, fetch, dequeued)
    && (pageCount >= crawlLimit ==> dequeued == [] || canFetch(dequeued[|dequeued| - 1]))
  }

  /** One more dequeued URL extends the enqueue order by the fresh internal links of its page, if it is
    * counted, and by nothing otherwise. */
  lemma EnqueueOrderStep(dom: string -> string, start: string, base: string, crawlLimit: int, canFetch: string -> bool,
                         fetch: string -> FetchResult, dequeued: seq<string>, page: string)
    ensures var earlier := EnqueueOrder(dom, start, base, crawlLimit, canFetch, fetch, dequeued);
      EnqueueOrder(dom, start, base, crawlLimit, canFetch, fetch, dequeued + [page]) ==
        if canFetch(page) then earlier + Enqueued(dom, ExpectedLinks(page, crawlLimit, fetch), base, set u | u in earlier)
        else earlier
  {
    assert (dequeued + [page])[..|dequeued|] == dequeued;
  }

  /** The queue bookkeeping of one iteration: the head of the frontier is dequeued and the fresh internal
    * links are appended. */
  lemma QueueStep(start: string, frontier: seq<string>, visited: set<string>, enqueued: seq<string>,
                  dequeued: seq<string>, added: seq<string>, visited': set<string>)
    requires QueueInv(start, frontier, visited, enqueued, dequeued) && frontier != []
    requires NoDup(added) && forall x :: x in added ==> x !in visited
    requires forall x :: x in visited' <==> x in added || x in visited
    ensures frontier[0] !in dequeued
    ensures QueueInv(start, frontier[1..] + added, visited', enqueued + added, dequeued + [frontier[0]])
  {
    var k := |dequeued|;
    assert enqueued[k] == frontier[0];
    forall i | 0 <= i < k ensures dequeued[i] != frontier[0] {
      assert dequeued[i] == enqueued[i];
    }
    NoDupAppend(enqueued, added);
    assert (dequeued + [frontier[0]]) + (frontier[1..] + added) == enqueued + added;
  }

  /** The link map gains the counted page's entry, and the fetch log the page when it was fetched. */
  lemma LedgerStep(crawlLimit: int, canFetch: string -> bool, fetch: string -> FetchResult,
                   linkMap: map<string, seq<string>>, pageCount: int, dequeued: seq<string>, fetched: seq<string>,
                   current: string)
    requires LedgerInv(crawlLimit, canFetch, fetch, linkMap, pageCount, dequeued, fetched)
    requires pageCount < crawlLimit && current !in dequeued && canFetch(current)
    ensures LedgerInv(crawlLimit, canFetch, fetch, linkMap[current := ExpectedLinks(current, crawlLimit, fetch)],
                      pageCount + 1, dequeued + [current], if crawlLimit != 1 then fetched + [current] else fetched)
  {
    CountStep(crawlLimit, canFetch, linkMap, pageCount, dequeued, fetched, current,
              ExpectedLinks(current, crawlLimit, fetch));
    EntriesStep(crawlLimit, fetch, linkMap, current);
  }

  lemma CountStep(crawlLimit: int, canFetch: string -> bool, linkMap: map<string, seq<string>>,
                  pageCount: int, dequeued: seq<string>, fetched: seq<string>, current: string, links: seq<string>)
    requires CountInv(crawlLimit, canFetch, linkMap, pageCount, dequeued, fetched)
    requires pageCount < crawlLimit && current !in dequeued && canFetch(current)
    ensures CountInv(crawlLimit, canFetch, linkMap[current := links], pageCount + 1, dequeued + [current],
                     if crawlLimit != 1 then fetched + [current] else fetched)
  {
    NoDupAppend(fetched, [current]);
  }

  lemma EntriesStep(crawlLimit: int, fetch: string -> FetchResult, linkMap: map<string, seq<string>>, current: string)
    requires EntriesInv(crawlLimit, fetch, linkMap)
    ensures EntriesInv(crawlLimit, fetch, linkMap[current := ExpectedLinks(current, crawlLimit, fetch)])
  {
  }

  /** The link-map bookkeeping of one counted page: every URL in the visited and external sets stays
    * explained by a recorded link, and every recorded link lands in the set its domain calls for. */
  lemma ScopeStep(dom: string -> string, start: string, base: string, visited: set<string>, external: set<string>,
                  linkMap: map<string, seq<string>>, current: string, links: seq<string>)
    requires ScopeInv(dom, start, base, visited, external, linkMap) && current !in linkMap
    ensures ScopeInv(dom, start, base, visited + InternalLinks(dom, links, base), external + ExternalLinks(dom, links, base),
                     linkMap[current := links])
  {
    var m := linkMap[current := links];
    forall u | u in visited + InternalLinks(dom, links, base)
      ensures u == start || (dom(u) == base && Discovered(u, m))
    {
      LinkClassified(dom, links, base, u);
      if u in links {
        DiscoveredNew(u, linkMap, current, links);
      } else if u != start {
        DiscoveredKept(u, linkMap, current, links);
      }
    }
    forall e | e in external + ExternalLinks(dom, links, base)
      ensures dom(e) != base && Discovered(e, m)
    {
      LinkClassified(dom, links, base, e);
      if e in links {
        DiscoveredNew(e, linkMap, current, links);
      } else {
        DiscoveredKept(e, linkMap, current, links);
      }
    }
    var visited', external' := visited + InternalLinks(dom, links, base), external + ExternalLinks(dom, links, base);
    forall l | l in links
      ensures (dom(l) == base ==> l in visited') && (dom(l) != base ==> l in external')
    {
      LinkClassified(dom, links, base, l);
    }
    PlacedStep(dom, base, visited, external, linkMap, current, links, visited', external');
  }

  lemma PlacedStep(dom: string -> string, base: string, visited: set<string>, external: set<string>, linkMap: map<string, seq<string>>,
                   current: string, links: seq<string>, visited': set<string>, external': set<string>)
    requires LinksPlaced(dom, base, visited, external, linkMap)
    requires visited <= visited' && external <= external'
    requires forall l :: l in links ==> (dom(l) == base ==> l in visited') && (dom(l) != base ==> l in external')
    ensures LinksPlaced(dom, base, visited', external', linkMap[current := links])
  {
    var m := linkMap[current := links];
    forall p, l | p in m && l in m[p]
      ensures (dom(l) == base ==> l in visited') && (dom(l) != base ==> l in external')
    {
      if p != current {
        assert m[p] == linkMap[p];
        assert p in linkMap && l in linkMap[p];
      } else {
        assert l in links;
      }
    }
  }

  /** A URL the robots policy rejects is dequeued and nothing else changes. */
  lemma RejectedStep(dom: string -> string, start: string, base: string, crawlLimit: int, canFetch: string -> bool,
                     fetch: string -> FetchResult, frontier: seq<string>, visited: set<string>,
                     external: set<string>, linkMap: map<string, seq<string>>, pageCount: int,
                     enqueued: seq<string>, dequeued: seq<string>, fetched: seq<string>)
    requires CrawlInv(dom, start, base, crawlLimit, canFetch, fetch, frontier, visited, external, linkMap, pageCount,
                      enqueued, dequeued, fetched)
    requires frontier != [] && !canFetch(frontier[0]) && pageCount < crawlLimit
    ensures CrawlInv(dom, start, base, crawlLimit, canFetch, fetch, frontier[1..], visited, external, linkMap, pageCount,
                     enqueued, dequeued + [frontier[0]], fetched)
  {
    EnqueueOrderStep(dom, start, base, crawlLimit, canFetch, fetch, dequeued, frontier[0]);
    QueueStep(start, frontier, visited, enqueued, dequeued, [], visited);
    assert frontier[1..] + [] == frontier[1..] && enqueued + [] == enqueued;
  }

  /** A counted page is dequeued, gets its link-map entry, and its fresh internal links join the frontier. */
  lemma CountedStep(dom: string -> string, start: string, base: string, crawlLimit: int, canFetch: string -> bool,
                    fetch: string -> FetchResult, frontier: seq<string>, visited: set<string>,
                    external: set<string>, linkMap: map<string, seq<string>>, pageCount: int,
                    enqueued: seq<string>, dequeued: seq<string>, fetched: seq<string>)
    requires CrawlInv(dom, start, base, crawlLimit, canFetch, fetch, frontier, visited, external, linkMap, pageCount,
                      enqueued, dequeued, fetched)
    requires frontier != [] && canFetch(frontier[0]) && pageCount < crawlLimit
    ensures var current := frontier[0];
      var links := ExpectedLinks(current, crawlLimit, fetch);
      var added := Enqueued(dom, links, base, visited);
      CrawlInv(dom, start, base, crawlLimit, canFetch, fetch, frontier[1..] + added,
               visited + InternalLinks(dom, links, base), external + ExternalLinks(dom, links, base),
               linkMap[current := links], pageCount + 1, enqueued + added, dequeued + [current],
               if crawlLimit != 1 then fetched + [current] else fetched)
  {
    var current := frontier[0];
    var links := ExpectedLinks(current, crawlLimit, fetch);
    var added := Enqueued(dom, links, base, visited);
    EnqueueOrderStep(dom, start, base, crawlLimit, canFetch, fetch, dequeued, current);
    assert visited == set u | u in enqueued;
    EnqueuedFresh(dom, links, base, visited);
    QueueStep(start, frontier, visited, enqueued, dequeued, added, visited + InternalLinks(dom, links, base));
    LedgerStep(crawlLimit, canFetch, fetch, linkMap, pageCount, dequeued, fetched, current);
    ScopeStep(dom, start, base, visited, external, linkMap, current, links);
  }

  /** `get_url_list_and_map(start_url, max_pages)`: breadth-first discovery of the start URL's site.
    * Besides the three results of the source, the ghost outputs record the order in which URLs were
    * enqueued and dequeued, and the URLs handed to the fetch oracle. */
  method GetUrlListAndMap(startUrl: string, maxPages: Option<int>, canFetch: string -> bool, fetch: string -> FetchResult)
    returns (urls: seq<string>, linkMap: map<string, seq<string>>, externalLinks: seq<string>,
             ghost enqueued: seq<string>, ghost dequeued: seq<string>, ghost fetched: seq<string>)
    ensures GetBaseDomain(startUrl) == [] ==>
      urls == [] && linkMap == map[] && externalLinks == [] && enqueued == [] && fetched == []
    ensures GetBaseDomain(startUrl) != [] ==> CrawlPostcondition(GetBaseDomain, startUrl, maxPages, canFetch, fetch,
      urls, linkMap, externalLinks, enqueued, dequeued, fetched)
  {
    var base := GetBaseDomain(startUrl);
    if base == [] {
      return [], map[], [], [], [], [];
    }
    var start := NormalizeUrl(startUrl);
    var frontier := [start];
    var visited := {start};
    var external: set<string> := {};
    linkMap := map[];
    var pageCount := 0;
    var crawlLimit := if maxPages.Some? then maxPages.value else MaxPagesToCrawl;
    enqueued, dequeued, fetched := [start], [], [];
    while frontier != [] && pageCount < crawlLimit
      invariant CrawlInv(GetBaseDomain, start, base, crawlLimit, canFetch, fetch, frontier, visited, external, linkMap, pageCount,
                         enqueued, dequeued, fetched)
      decreases if pageCount <= crawlLimit then crawlLimit - pageCount else 0, |frontier|
    {
      var current := frontier[0];
      if !canFetch(current) {
        RejectedStep(GetBaseDomain, start, base, crawlLimit, canFetch, fetch, frontier, visited, external, linkMap, pageCount,
                     enqueued, dequeued, fetched);
        frontier := frontier[1..];
        dequeued := dequeued + [current];
        continue;
      }
      CountedStep(GetBaseDomain, start, base, crawlLimit, canFetch, fetch, frontier, visited, external, linkMap, pageCount,
                  enqueued, dequeued, fetched);
      ghost var added := Enqueued(GetBaseDomain, ExpectedLinks(current, crawlLimit, fetch), base, visited);
      pageCount := pageCount + 1;
      var links, visited', frontier', external', fetchedIt :=
        CrawlPage(current, pageCount, crawlLimit, base, fetch, visited, frontier[1..], external);
      if fetchedIt {
        fetched := fetched + [current];
      }
      frontier, visited, external := frontier', visited', external';
      dequeued := dequeued + [current];
      enqueued := enqueued + added;
      linkMap := linkMap[current := links];
    }
    urls := SortedList(visited);
    externalLinks := SortedList(external);
    CrawlDone(GetBaseDomain, startUrl, maxPages, canFetch, fetch, urls, linkMap, externalLinks, enqueued, dequeued, fetched,
              frontier, visited, external, pageCount);
  }

  /** When the loop stops, the loop invariant and the two sorted lists give the crawl's guarantees. */
  lemma CrawlDone(dom: string -> string, startUrl: string, maxPages: Option<int>, canFetch: string -> bool,
                  fetch: string -> FetchResult, urls: seq<string>, linkMap: map<string, seq<string>>,
                  externalLinks: seq<string>, enqueued: seq<string>, dequeued: seq<string>, fetched: seq<string>,
                  frontier: seq<string>, visited: set<string>, external: set<string>, pageCount: int)
    requires var crawlLimit := if maxPages.Some? then maxPages.value else MaxPagesToCrawl;
      && CrawlInv(dom, NormalizeUrl(startUrl), dom(startUrl), crawlLimit, canFetch, fetch, frontier, visited,
                  external, linkMap, pageCount, enqueued, dequeued, fetched)
      && !(frontier != [] && pageCount < crawlLimit)
    requires StrictlySorted(urls) && forall x :: x in urls <==> x in visited
    requires StrictlySorted(externalLinks) && forall x :: x in externalLinks <==> x in external
    ensures CrawlPostcondition(dom, startUrl, maxPages, canFetch, fetch, urls, linkMap, externalLinks, enqueued,
                               dequeued, fetched)
  {
    var crawlLimit := if maxPages.Some? then maxPages.value else MaxPagesToCrawl;
    var start, base := NormalizeUrl(startUrl), dom(startUrl);
    OrderDone(dom, start, base, crawlLimit, canFetch, fetch, urls, frontier, visited, linkMap, pageCount, enqueued,
              dequeued, fetched);
    ScopeDone(dom, start, base, crawlLimit, fetch, urls, visited, linkMap, externalLinks, external);
    BudgetDone(crawlLimit, canFetch, fetch, urls, frontier, visited, linkMap, pageCount, start, enqueued, dequeued,
               fetched);
  }

  /** At loop exit the queue and order invariants give the breadth-first order. */
  lemma OrderDone(dom: string -> string, start: string, base: string, crawlLimit: int, canFetch: string -> bool,
                  fetch: string -> FetchResult, urls: seq<string>, frontier: seq<string>, visited: set<string>,
                  linkMap: map<string, seq<string>>, pageCount: int, enqueued: seq<string>, dequeued: seq<string>,
                  fetched: seq<string>)
    requires QueueInv(start, frontier, visited, enqueued, dequeued)
    requires OrderInv(dom, start, base, crawlLimit, canFetch, fetch, pageCount, enqueued, dequeued)
    requires pageCount == |linkMap| && !(frontier != [] && pageCount < crawlLimit)
    requires forall x :: x in urls <==> x in visited
    ensures CrawlOrder(dom, start, base, crawlLimit, canFetch, fetch, urls, linkMap, enqueued, dequeued)
  {
    assert dequeued + frontier == enqueued;
    assert dequeued == enqueued[..|dequeued|];
  }

  /** At loop exit the scope invariant and the two sorted lists give the domain scope. */
  lemma ScopeDone(dom: string -> string, start: string, base: string, crawlLimit: int, fetch: string -> FetchResult,
                  urls: seq<string>, visited: set<string>, linkMap: map<string, seq<string>>,
                  externalLinks: seq<string>, external: set<string>)
    requires ScopeInv(dom, start, base, visited, external, linkMap) && EntriesInv(crawlLimit, fetch, linkMap)
    requires forall x :: x in urls <==> x in visited
    requires forall x :: x in externalLinks <==> x in external
    ensures CrawlScope(dom, start, base, urls, linkMap, externalLinks)
  {
    EntriesRecordable(crawlLimit, fetch, linkMap);
  }

  /** At loop exit the ledger invariant gives the budget; below the budget the frontier ran dry, so every
    * permitted URL was dequeued and counted. */
  lemma BudgetDone(crawlLimit: int, canFetch: string -> bool, fetch: string -> FetchResult, urls: seq<string>,
                   frontier: seq<string>, visited: set<string>, linkMap: map<string, seq<string>>, pageCount: int,
                   start: string, enqueued: seq<string>, dequeued: seq<string>, fetched: seq<string>)
    requires QueueInv(start, frontier, visited, enqueued, dequeued)
    requires LedgerInv(crawlLimit, canFetch, fetch, linkMap, pageCount, dequeued, fetched)
    requires !(frontier != [] && pageCount < crawlLimit)
    requires forall x :: x in urls <==> x in visited
    ensures CrawlBudget(crawlLimit, canFetch, fetch, urls, linkMap, dequeued, fetched)
  {
    if |linkMap| < crawlLimit {
      assert dequeued + frontier == enqueued;
    }
  }

  /** Every link in the link map is recordable. */
  lemma EntriesRecordable(crawlLimit: int, fetch: string -> FetchResult, linkMap: map<string, seq<string>>)
    requires EntriesInv(crawlLimit, fetch, linkMap)
    ensures forall p, l :: p in linkMap && l in linkMap[p] ==> IsRecordable(l)
  {
    forall p, l | p in linkMap && l in linkMap[p] ensures IsRecordable(l) {
      var k :| 0 <= k < |linkMap[p]| && linkMap[p][k] == l;
      if fetch(p).Html? && crawlLimit != 1 {
        assert linkMap[p] == PageLinks(fetch(p).hrefs);
      }
    }
  }

  lemma NoDupAppend<T>(a: seq<T>, b: seq<T>)
    requires NoDup(a) && NoDup(b)
    requires forall x :: x in b ==> x !in a
    ensures NoDup(a + b)
  {
    forall i, j | 0 <= i < j < |a + b| ensures (a + b)[i] != (a + b)[j] {
      if j >= |a| && i < |a| {
        assert (a + b)[j] in b;
      }
    }
  }

  /** What a crawl of a start URL with a non-empty base domain guarantees, where `dom` gives the base
    * domain of a URL (the crawler uses `GetBaseDomain`). */
  ghost predicate CrawlPostcondition(dom: string -> string, startUrl: string, maxPages: Option<int>,
    canFetch: string -> bool, fetch: string -> FetchResult, urls: seq<string>, linkMap: map<string, seq<string>>,
    externalLinks: seq<string>, enqueued: seq<string>, dequeued: seq<string>, fetched: seq<string>)
  {
    var crawlLimit := if maxPages.Some? then maxPages.value else MaxPagesToCrawl;
    // both lists are sorted and free of repetitions
    && StrictlySorted(urls) && StrictlySorted(externalLinks)
    && CrawlOrder(dom, NormalizeUrl(startUrl), dom(startUrl), crawlLimit, canFetch, fetch, urls, linkMap, enqueued, dequeued)
    && CrawlScope(dom, NormalizeUrl(startUrl), dom(startUrl), urls, linkMap, externalLinks)
    && CrawlBudget(crawlLimit, canFetch, fetch, urls, linkMap, dequeued, fetched)
  }

  /** Breadth-first: every URL is enqueued once, starting with the start URL, and dequeued in that order; each
    * counted page, in dequeue order, enqueues its fresh internal links in document order; the crawl stops when
    * the frontier is empty or right after the page that spent the budget; the URLs are the enqueued ones. */
  ghost predicate CrawlOrder(dom: string -> string, start: string, base: string, crawlLimit: int,
    canFetch: string -> bool, fetch: string -> FetchResult, urls: seq<string>, linkMap: map<string, seq<string>>,
    enqueued: seq<string>, dequeued: seq<string>)
  {
    && NoDup(enqueued) && enqueued != [] && enqueued[0] == start
    && |dequeued| <= |enqueued| && dequeued == enqueued[..|dequeued|]
    && enqueued == EnqueueOrder(dom, start, base, crawlLimit, canFetch, fetch, dequeued)
    && (|dequeued| == |enqueued| || (|linkMap| >= crawlLimit && (dequeued == [] || canFetch(dequeued[|dequeued| - 1]))))
    && (forall u :: u in urls <==> u in enqueued)
  }

  /** Domain scope: every URL but the start URL is an internal link recorded for some crawled page, every
    * external link an off-domain one, and every recorded link is recordable and listed where its domain says. */
  ghost predicate CrawlScope(dom: string -> string, start: string, base: string, urls: seq<string>,
    linkMap: map<string, seq<string>>, externalLinks: seq<string>)
  {
    && (forall u :: u in urls ==> u == start || (dom(u) == base && Discovered(u, linkMap)))
    && (forall e :: e in externalLinks ==> dom(e) != base && Discovered(e, linkMap))
    && (forall p, l :: p in linkMap && l in linkMap[p] ==>
          IsRecordable(l) && (dom(l) == base ==> l in urls) && (dom(l) != base ==> l in externalLinks))
  }

  /** Budget: one link_map entry per counted page, robots-rejected URLs get none, and below the budget every
    * permitted URL was counted; each entry holds what its page records, and only counted pages are fetched,
    * each once. */
  ghost predicate CrawlBudget(crawlLimit: int, canFetch: string -> bool, fetch: string -> FetchResult,
    urls: seq<string>, linkMap: map<string, seq<string>>, dequeued: seq<string>, fetched: seq<string>)
  {
    && |linkMap| <= (if crawlLimit < 0 then 0 else crawlLimit)
    && (forall u :: u in linkMap <==> u in dequeued && canFetch(u))
    && (|linkMap| < crawlLimit ==> forall u :: u in urls && canFetch(u) ==> u in linkMap)
    && (forall u :: u in linkMap ==> linkMap[u] == ExpectedLinks(u, crawlLimit, fetch))
    && NoDup(fetched)
    && (forall u :: u in fetched <==> u in linkMap && crawlLimit != 1)
  }
}
